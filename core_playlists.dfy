/**
 * The part of Go's container/list that the earlier playlists use: a list of
 * element handles, each holding a value that never changes.
 */
module GoList {
  import opened Seqs

  /** `*list.Element`: a handle holding one value. */
  class Element<V> {
    const Value: V

    constructor (v: V)
      ensures Value == v
    {
      Value := v;
    }
  }

  /** `s` with its first occurrence of `e` cut out. */
  function Without<V>(s: seq<Element<V>>, e: Element<V>): (r: seq<Element<V>>)
    ensures e !in s ==> r == s
  {
    if s == [] then []
    else if s[0] == e then s[1..]
    else [s[0]] + Without(s[1..], e)
  }

  /** Cutting out the first occurrence is cutting out the position a search finds. */
  lemma {:induction false} WithoutAt<V>(s: seq<Element<V>>, i: nat)
    requires i < |s| && s[i] !in s[..i]
    ensures Without(s, s[i]) == s[..i] + s[i + 1..]
  {
    if i == 0 {
      assert s[..0] + s[1..] == s[1..];
    } else {
      var t := s[1..];
      assert s[0] != s[i] && t[i - 1] == s[i];
      assert t[..i - 1] == s[1..i];
      calc {
        Without(s, s[i]);
        [s[0]] + Without(t, s[i]);
        { WithoutAt(t, i - 1); }
        [s[0]] + (t[..i - 1] + t[i..]);
        { assert s[..i] == [s[0]] + t[..i - 1] && s[i + 1..] == t[i..]; }
        s[..i] + s[i + 1..];
      }
    }
  }

  /** `*list.List`: the element handles from front to back. */
  class List<V> {
    var elems: seq<Element<V>>

    ghost predicate Valid()
      reads this
    {
      Distinct(elems)
    }

    /** `list.New()` */
    constructor ()
      ensures Valid() && elems == []
    {
      elems := [];
    }

    /** `Len()` */
    function Len(): (n: nat)
      reads this
      ensures n == |elems|
    {
      |elems|
    }

    /** `PushBack(v)`: a new handle at the back. */
    method PushBack(v: V) returns (e: Element<V>)
      requires Valid()
      modifies this
      ensures Valid() && fresh(e) && e.Value == v && elems == old(elems) + [e]
    {
      e := new Element(v);
      elems := elems + [e];
    }

    /** `Remove(e)`: unlinks `e` when it is an element of this list; any other handle is ignored. */
    method Remove(e: Element<V>)
      requires Valid()
      modifies this
      ensures Valid()
      ensures e in old(elems) ==> var i := IndexOf(old(elems), e); elems == old(elems)[..i] + old(elems)[i + 1..]
      ensures e !in old(elems) ==> elems == old(elems)
      ensures forall x :: x in elems <==> x in old(elems) && x != e
    {
      if e in elems {
        ghost var i := IndexOf(elems, e);
        WithoutAt(elems, i);
        DistinctRemove(elems, i);
        RemoveMembers(elems, i);
        elems := Without(elems, e);
      }
    }

    /** `Init()`: the list becomes empty. */
    method Init()
      modifies this
      ensures Valid() && elems == []
    {
      elems := [];
    }
  }
}

/**
 * The bookkeeping both earlier playlists keep beside their list: a map from
 * each id to the element holding it, and the `tail` counter beyond every id
 * issued. `key` reads the id out of a stored value.
 */
module IdIndex {
  import opened Seqs
  import opened GoList

  /** The ids of a sequence of elements. */
  ghost function IdsOf<V>(es: seq<Element<V>>, key: V -> int): (ids: seq<int>)
    ensures |ids| == |es|
    ensures forall k {:trigger ids[k]} :: 0 <= k < |es| ==> ids[k] == key(es[k].Value)
  {
    if es == [] then [] else [key(es[0].Value)] + IdsOf(es[1..], key)
  }

  /**
   * The list and the map hold the same elements, each under its own id,
   * and every id lies in 0..tail-1.
   */
  ghost predicate Indexed<V>(es: seq<Element<V>>, m: map<int, Element<V>>, tail: int, key: V -> int) {
    && Distinct(es)
    && 0 <= tail
    && (forall id :: id in m ==> m[id] in es && key(m[id].Value) == id && 0 <= id < tail)
    && (forall e :: e in es ==> key(e.Value) in m && m[key(e.Value)] == e)
  }

  /** Ids of an indexed list are distinct, below `tail`, and exactly the keys of the map. */
  lemma IndexedIds<V>(es: seq<Element<V>>, m: map<int, Element<V>>, tail: int, key: V -> int)
    requires Indexed(es, m, tail, key)
    ensures Distinct(IdsOf(es, key))
    ensures forall k :: 0 <= k < |es| ==> 0 <= IdsOf(es, key)[k] < tail
    ensures forall id :: id in m <==> id in IdsOf(es, key)
  {
    var ids := IdsOf(es, key);
    forall i, j | 0 <= i < j < |ids| ensures ids[i] != ids[j] {
      assert es[i] in es && es[j] in es;
      assert m[key(es[i].Value)] == es[i] && m[key(es[j].Value)] == es[j];
    }
    forall id | id in m ensures id in ids {
      var k :| 0 <= k < |es| && es[k] == m[id];
      assert ids[k] == id;
    }
    forall k | 0 <= k < |ids| ensures ids[k] in m && 0 <= ids[k] < tail {
      assert es[k] in es && m[key(es[k].Value)] == es[k];
    }
  }

  /** Pushing a new element stamped with `tail` and indexing it keeps the list indexed, one id further. */
  lemma IndexedPush<V>(es: seq<Element<V>>, m: map<int, Element<V>>, tail: int, key: V -> int, e: Element<V>)
    requires Indexed(es, m, tail, key) && e !in es && key(e.Value) == tail
    ensures tail !in m
    ensures Indexed(es + [e], m[tail := e], tail + 1, key)
    ensures IdsOf(es + [e], key) == IdsOf(es, key) + [tail]
  {
    var es', m' := es + [e], m[tail := e];
    assert Distinct(es') by {
      forall i, j | 0 <= i < j < |es'| ensures es'[i] != es'[j] {
        if j == |es| { assert es'[i] in es; } else { assert es'[i] == es[i] && es'[j] == es[j]; }
      }
    }
    forall x | x in es' ensures key(x.Value) in m' && m'[key(x.Value)] == x {
      if x != e { assert x in es; }
    }
    assert IdsOf(es', key) == IdsOf(es, key) + [tail];
  }

  /** Cutting out position `i` cuts out its id. */
  lemma IdsOfRemove<V>(es: seq<Element<V>>, key: V -> int, i: nat)
    requires i < |es|
    ensures IdsOf(es[..i] + es[i + 1..], key) == IdsOf(es, key)[..i] + IdsOf(es, key)[i + 1..]
  {
    RemoveIndices(es, i);
    RemoveIndices(IdsOf(es, key), i);
  }

  /** Unlinking the element of `id`, at position `i`, and unmapping `id` keeps the list indexed. */
  lemma IndexedCut<V>(es: seq<Element<V>>, m: map<int, Element<V>>, tail: int, key: V -> int, id: int, i: nat)
    requires Indexed(es, m, tail, key) && id in m && i < |es| && es[i] == m[id]
    ensures Indexed(es[..i] + es[i + 1..], m - {id}, tail, key)
  {
    RemoveMembers(es, i);
    DistinctRemove(es, i);
    var es', m' := es[..i] + es[i + 1..], m - {id};
    forall id' | id' in m' ensures m'[id'] in es' {
      assert m[id'] in es && key(m[id'].Value) == id' && m[id'] != m[id];
    }
    forall x | x in es' ensures key(x.Value) in m' && m'[key(x.Value)] == x {
      assert x in es && x != m[id] && m[key(x.Value)] == x;
    }
  }

  /** Unlinking the element of `id` and unmapping `id` keeps the list indexed and cuts the id out. */
  lemma IndexedRemove<V>(es: seq<Element<V>>, m: map<int, Element<V>>, tail: int, key: V -> int, id: int)
    requires Indexed(es, m, tail, key) && id in m
    ensures id in IdsOf(es, key)
    ensures var i := IndexOf(IdsOf(es, key), id);
      && i < |es| && es[i] == m[id] && IndexOf(es, m[id]) == i
      && Indexed(es[..i] + es[i + 1..], m - {id}, tail, key)
      && IdsOf(es[..i] + es[i + 1..], key) == IdsOf(es, key)[..i] + IdsOf(es, key)[i + 1..]
  {
    IndexedIds(es, m, tail, key);
    var ids := IdsOf(es, key);
    var i := IndexOf(es, m[id]);
    assert ids[i] == id;
    IndexOfDistinct(ids, i);
    IndexedCut(es, m, tail, key, id, i);
    IdsOfRemove(es, key, i);
  }
}

/**
 * The playlist of the earlier room package, core/room/playlist.go: a
 * container/list of track copies, a map from each id to its element, and a
 * `tail` counter that stamps the next id.
 */
module CoreRoomPlaylist {
  import opened Wrappers
  import opened Seqs
  import opened GoList
  import opened IdIndex

  const LIST_MAX_SIZE := 1024

  /** `*MusicNode` as the caller holds it; `Enqueue` stamps its `ID`. */
  class MusicNode {
    var ID: int
    var URL: string
    var AudioByte: seq<bv8>

    constructor (url: string)
      ensures ID == 0 && URL == url && AudioByte == []
    {
      ID := 0;
      URL := url;
      AudioByte := [];
    }
  }

  /** The `MusicNode` value copied into the list. */
  datatype Track = Track(ID: int, URL: string, AudioByte: seq<bv8>)

  function TrackID(t: Track): int {
    t.ID
  }

  class Playlist {
    const nodeList: List<Track>
    var nodeMap: map<int, Element<Track>>
    var tail: int

    ghost predicate Valid()
      reads this, nodeList
    {
      nodeList.Valid() && Indexed(nodeList.elems, nodeMap, tail, TrackID)
    }

    /** The ids in play order. */
    ghost function Ids(): seq<int>
      reads this, nodeList
    {
      IdsOf(nodeList.elems, TrackID)
    }

    /** `CreatePlaylist` */
    constructor ()
      ensures Valid() && fresh(nodeList) && nodeList.elems == [] && nodeMap == map[] && tail == 0
    {
      nodeList := new List();
      nodeMap := map[];
      tail := 0;
    }

    /**
     * `Enqueue`: refused at 1024 entries; otherwise the caller's node is
     * stamped with `tail`, a copy goes to the back of the list and into the
     * map, and `tail` advances.
     */
    method Enqueue(node: MusicNode) returns (r: Outcome<string>)
      requires Valid()
      modifies this, nodeList, node`ID
      ensures Valid()
      ensures old(|nodeList.elems|) >= LIST_MAX_SIZE ==>
        && r == Fail("enqueue err: playlist reached max size")
        && nodeList.elems == old(nodeList.elems) && nodeMap == old(nodeMap) && tail == old(tail) && node.ID == old(node.ID)
      ensures old(|nodeList.elems|) < LIST_MAX_SIZE ==>
        && r.Pass? && node.ID == old(tail) && tail == old(tail) + 1
        && old(tail) !in old(nodeMap) && old(tail) in nodeMap
        && nodeList.elems == old(nodeList.elems) + [nodeMap[old(tail)]]
        && nodeMap == old(nodeMap)[old(tail) := nodeMap[old(tail)]]
        && nodeMap[old(tail)].Value == Track(old(tail), node.URL, node.AudioByte)
        && Ids() == old(Ids()) + [old(tail)]
    {
      if nodeList.Len() >= LIST_MAX_SIZE {
        return Fail("enqueue err: playlist reached max size");
      }
      ghost var es := nodeList.elems;
      node.ID := tail;
      var elem := nodeList.PushBack(Track(node.ID, node.URL, node.AudioByte));
      IndexedPush(es, nodeMap, tail, TrackID, elem);
      nodeMap := nodeMap[tail := elem];
      tail := tail + 1;
      return Pass;
    }

    /** `Remove(id)`: an unknown id is an error; otherwise its element leaves both the list and the map. */
    method Remove(id: int) returns (r: Outcome<string>)
      requires Valid()
      modifies this, nodeList
      ensures Valid() && tail == old(tail)
      ensures id !in old(nodeMap) ==>
        r == Fail("remove err: element not found") && nodeList.elems == old(nodeList.elems) && nodeMap == old(nodeMap)
      ensures id in old(nodeMap) ==>
        && r.Pass? && nodeMap == old(nodeMap) - {id} && id in old(Ids())
        && var i := IndexOf(old(Ids()), id);
        && nodeList.elems == old(nodeList.elems)[..i] + old(nodeList.elems)[i + 1..]
        && Ids() == old(Ids())[..i] + old(Ids())[i + 1..]
    {
      if id !in nodeMap {
        return Fail("remove err: element not found");
      }
      IndexedRemove(nodeList.elems, nodeMap, tail, TrackID, id);
      var elem := nodeMap[id];
      nodeList.Remove(elem);
      nodeMap := nodeMap - {id};
      return Pass;
    }

    /** `Clear`: list and map are emptied; `tail` is kept, so later ids stay fresh. */
    method Clear()
      requires Valid()
      modifies this, nodeList
      ensures Valid() && nodeList.elems == [] && nodeMap == map[] && tail == old(tail)
    {
      nodeList.Init();
      nodeMap := map[];
    }
  }
}

/**
 * The stand-alone playlist package of the earlier server,
 * core/playlist/playlist.go: the same design over value-typed nodes, so
 * `Enqueue` stamps only the copy it stores.
 */
module CorePlaylist {
  import opened Wrappers
  import opened Seqs
  import opened GoList
  import opened IdIndex

  const LIST_MAX_SIZE := 1024

  datatype MusicNode = MusicNode(NodeID: int, NodeURL: string)

  function NodeID(n: MusicNode): int {
    n.NodeID
  }

  class Playlist {
    const nodeList: List<MusicNode>
    var nodeMap: map<int, Element<MusicNode>>
    var tail: int

    ghost predicate Valid()
      reads this, nodeList
    {
      nodeList.Valid() && Indexed(nodeList.elems, nodeMap, tail, NodeID)
    }

    ghost function Ids(): seq<int>
      reads this, nodeList
    {
      IdsOf(nodeList.elems, NodeID)
    }

    /** `New` */
    constructor ()
      ensures Valid() && fresh(nodeList) && nodeList.elems == [] && nodeMap == map[] && tail == 0
    {
      nodeList := new List();
      nodeMap := map[];
      tail := 0;
    }

    /** `Enqueue(node)`: the stored copy carries `NodeID = tail`. */
    method Enqueue(node: MusicNode) returns (r: Outcome<string>)
      requires Valid()
      modifies this, nodeList
      ensures Valid()
      ensures old(|nodeList.elems|) >= LIST_MAX_SIZE ==>
        && r == Fail("enqueue err: playlist reached max size")
        && nodeList.elems == old(nodeList.elems) && nodeMap == old(nodeMap) && tail == old(tail)
      ensures old(|nodeList.elems|) < LIST_MAX_SIZE ==>
        && r.Pass? && tail == old(tail) + 1
        && old(tail) !in old(nodeMap) && old(tail) in nodeMap
        && nodeList.elems == old(nodeList.elems) + [nodeMap[old(tail)]]
        && nodeMap == old(nodeMap)[old(tail) := nodeMap[old(tail)]]
        && nodeMap[old(tail)].Value == node.(NodeID := old(tail))
        && Ids() == old(Ids()) + [old(tail)]
    {
      if nodeList.Len() >= LIST_MAX_SIZE {
        return Fail("enqueue err: playlist reached max size");
      }
      ghost var es := nodeList.elems;
      var stamped := node.(NodeID := tail);
      var elem := nodeList.PushBack(stamped);
      IndexedPush(es, nodeMap, tail, NodeID, elem);
      nodeMap := nodeMap[tail := elem];
      tail := tail + 1;
      return Pass;
    }

    /** `Remove(id)`: an unknown id is an error; otherwise its element leaves both the list and the map. */
    method Remove(id: int) returns (r: Outcome<string>)
      requires Valid()
      modifies this, nodeList
      ensures Valid() && tail == old(tail)
      ensures id !in old(nodeMap) ==>
        r == Fail("remove err: element not found") && nodeList.elems == old(nodeList.elems) && nodeMap == old(nodeMap)
      ensures id in old(nodeMap) ==>
        && r.Pass? && nodeMap == old(nodeMap) - {id} && id in old(Ids())
        && var i := IndexOf(old(Ids()), id);
        && nodeList.elems == old(nodeList.elems)[..i] + old(nodeList.elems)[i + 1..]
        && Ids() == old(Ids())[..i] + old(Ids())[i + 1..]
    {
      if id !in nodeMap {
        return Fail("remove err: element not found");
      }
      IndexedRemove(nodeList.elems, nodeMap, tail, NodeID, id);
      var elem := nodeMap[id];
      nodeList.Remove(elem);
      nodeMap := nodeMap - {id};
      return Pass;
    }

    /** `Clear`: list and map are emptied; `tail` is kept. */
    method Clear()
      requires Valid()
      modifies this, nodeList
      ensures Valid() && nodeList.elems == [] && nodeMap == map[] && tail == old(tail)
    {
      nodeList.Init();
      nodeMap := map[];
    }
  }
}
