/**
 * The playlist of a music room, web/internal/room/playlist.go.
 *
 * A `Playlist` keeps `*MusicInfo` entries in a `LinkedList.List`, in play
 * order, and stamps every entry it accepts with the next value of its own
 * id counter. The entries themselves are shared with the rest of the room
 * (the music player writes their audio), so they are not part of the
 * playlist's representation: the playlist owns its list and its counter,
 * and reads only the `ID` fields of the entries.
 */
module WebPlaylist {
  import opened Wrappers
  import opened Seqs
  import opened LinkedList

  /** `LIST_MAX_SIZE`: the most entries a playlist accepts. */
  const LIST_MAX_SIZE := 1024

  /** `autoIncID`: a counter whose `ID` advances it and returns the new value. */
  class AutoIncId {
    var id: int

    constructor (start: int)
      ensures id == start
    {
      id := start;
    }

    method ID() returns (r: int)
      modifies this
      ensures id == old(id) + 1 && r == id
    {
      id := id + 1;
      r := id;
    }
  }

  /** `MusicInfo`: one requested track; `AudioByte` stays empty until the track is fetched. */
  class MusicInfo {
    var ID: int
    var URL: string
    var AudioByte: seq<bv8>

    /** `&MusicInfo{}`: the zero entry. */
    constructor ()
      ensures ID == 0 && URL == "" && AudioByte == []
    {
      ID := 0;
      URL := "";
      AudioByte := [];
    }

    /** An entry for the track at `url`, not yet stamped or fetched. */
    constructor FromURL(url: string)
      ensures ID == 0 && URL == url && AudioByte == []
    {
      ID := 0;
      URL := url;
      AudioByte := [];
    }
  }

  ghost predicate NonNull(es: seq<MusicInfo?>) {
    null !in es
  }

  /** The ids of a sequence of entries. */
  ghost function IdsOf(es: seq<MusicInfo?>): (ids: seq<int>)
    requires NonNull(es)
    reads set k | 0 <= k < |es| :: es[k]`ID
    ensures |ids| == |es|
    ensures forall k {:trigger ids[k]} :: 0 <= k < |es| ==> ids[k] == es[k].ID
  {
    if |es| == 0 then [] else [es[0].ID] + IdsOf(es[1..])
  }

  /** The ids of appended entries are appended. */
  lemma IdsOfAppend(es: seq<MusicInfo?>, x: MusicInfo)
    requires NonNull(es)
    ensures NonNull(es + [x]) && IdsOf(es + [x]) == IdsOf(es) + [x.ID]
  {
    assert NonNull(es + [x]);
    var a, b := IdsOf(es + [x]), IdsOf(es) + [x.ID];
    assert forall k | 0 <= k < |a| :: a[k] == b[k];
  }

  /** Removing an entry removes its id. */
  lemma IdsOfRemove(es: seq<MusicInfo?>, i: nat)
    requires NonNull(es) && i < |es|
    ensures NonNull(es[..i] + es[i + 1..])
    ensures IdsOf(es[..i] + es[i + 1..]) == IdsOf(es)[..i] + IdsOf(es)[i + 1..]
  {
    RemoveIndices(es, i);
    RemoveIndices(IdsOf(es), i);
    assert NonNull(es[..i] + es[i + 1..]);
    var a, b := IdsOf(es[..i] + es[i + 1..]), IdsOf(es)[..i] + IdsOf(es)[i + 1..];
    assert forall k | 0 <= k < |a| :: a[k] == b[k];
  }

  /**
   * What the id counter guarantees about a sequence of ids: none occurs
   * twice and none is above `last`, the latest id issued.
   */
  ghost predicate Issued(ids: seq<int>, last: int) {
    && Distinct(ids)
    && forall k :: 0 <= k < |ids| ==> ids[k] <= last
  }

  /** Appending the next id to be issued keeps the ids issued and fresh. */
  lemma IssuedAppend(ids: seq<int>, last: int)
    requires Issued(ids, last)
    ensures Issued(ids + [last + 1], last + 1)
  {
    DistinctInsert(ids, |ids|, last + 1);
    assert ids[..|ids|] + [last + 1] + ids[|ids|..] == ids + [last + 1];
  }

  /** Dropping an id keeps the rest issued, and the dropped id no longer occurs. */
  lemma IssuedRemove(ids: seq<int>, i: nat, last: int)
    requires Issued(ids, last) && i < |ids|
    ensures Issued(ids[..i] + ids[i + 1..], last) && ids[i] !in ids[..i] + ids[i + 1..]
  {
    DistinctRemove(ids, i);
    RemoveIndices(ids, i);
  }

  /**
   * Entry `i` of `s` moved to stand immediately before entry `j`, everything
   * else in its order: the effect `Move` is meant to have.
   */
  function MoveBefore<X>(s: seq<X>, i: nat, j: nat): (m: seq<X>)
    requires i < |s| && j < |s|
    ensures |m| == |s|
  {
    if i == j then s
    else if i < j then s[..i] + s[i + 1..j] + [s[i]] + s[j..]
    else s[..j] + [s[i]] + s[j..i] + s[i + 1..]
  }

  /** Where entry `i` ends up in `MoveBefore(s, i, j)`. */
  function MovedTo(i: nat, j: nat): nat {
    if i < j then j - 1 else j
  }

  /**
   * `MoveBefore` puts entry `i` at `MovedTo(i, j)`, right before entry `j`
   * (unless the two are the same entry), and leaves the other entries in
   * their order.
   */
  lemma MoveBeforePlaces<X>(s: seq<X>, i: nat, j: nat)
    requires i < |s| && j < |s|
    ensures var m, p := MoveBefore(s, i, j), MovedTo(i, j);
      && m[p] == s[i]
      && (i != j ==> p + 1 < |m| && m[p + 1] == s[j])
      && m[..p] + m[p + 1..] == s[..i] + s[i + 1..]
  {
    var m, p := MoveBefore(s, i, j), MovedTo(i, j);
    RemoveIndices(m, p);
    RemoveIndices(s, i);
    var a, b := m[..p] + m[p + 1..], s[..i] + s[i + 1..];
    forall k | 0 <= k < |a| ensures a[k] == b[k] {
      if i < j {
        assert m == s[..i] + s[i + 1..j] + [s[i]] + s[j..];
      } else if j < i {
        assert m == s[..j] + [s[i]] + s[j..i] + s[i + 1..];
      }
    }
  }

  /** Exchanging two middle blocks of a sequence keeps its elements. */
  lemma ShuffleBlocks<X>(a: seq<X>, b: seq<X>, c: seq<X>, d: seq<X>)
    ensures multiset(a + b + c + d) == multiset(a + c + b + d)
  {
    calc {
      multiset(a + b + c + d);
      multiset(a) + multiset(b) + multiset(c) + multiset(d);
      multiset(a) + multiset(c) + multiset(b) + multiset(d);
      multiset(a + c + b + d);
    }
  }

  /** `MoveBefore` only rearranges. */
  lemma MoveBeforePermutes<X>(s: seq<X>, i: nat, j: nat)
    requires i < |s| && j < |s|
    ensures multiset(MoveBefore(s, i, j)) == multiset(s)
  {
    if i < j {
      assert s == s[..i] + [s[i]] + s[i + 1..j] + s[j..];
      ShuffleBlocks(s[..i], [s[i]], s[i + 1..j], s[j..]);
    } else if j < i {
      assert s == s[..j] + s[j..i] + [s[i]] + s[i + 1..];
      ShuffleBlocks(s[..j], s[j..i], [s[i]], s[i + 1..]);
    }
  }

  /** Moving an entry before itself or before its successor changes nothing. */
  lemma MoveBeforeInPlace<X>(s: seq<X>, i: nat, j: nat)
    requires i < |s| && j < |s| && (i == j || i + 1 == j)
    ensures MoveBefore(s, i, j) == s
  {
    if i + 1 == j {
      assert s == s[..i] + [s[i]] + s[j..];
    }
  }

  /** The position in `s` of entry `k` of `MoveBefore(s, i, j)`. */
  function MoveSource(i: nat, j: nat, k: nat): nat {
    if i < j && i <= k < j - 1 then k + 1
    else if i != j && k == MovedTo(i, j) then i
    else if j < i && j < k <= i then k - 1
    else k
  }

  /** Entry `k` of `MoveBefore(s, i, j)`, through `MoveSource`. */
  lemma MoveBeforeAt<X>(s: seq<X>, i: nat, j: nat, k: nat)
    requires i < |s| && j < |s| && k < |s|
    ensures MoveSource(i, j, k) < |s| && MoveBefore(s, i, j)[k] == s[MoveSource(i, j, k)]
  {
    if i < j {
      assert MoveBefore(s, i, j) == s[..i] + s[i + 1..j] + [s[i]] + s[j..];
    } else if j < i {
      assert MoveBefore(s, i, j) == s[..j] + [s[i]] + s[j..i] + s[i + 1..];
    }
  }

  /** The ids of moved entries are the moved ids. */
  lemma IdsOfMoveBefore(es: seq<MusicInfo?>, i: nat, j: nat)
    requires NonNull(es) && i < |es| && j < |es|
    ensures NonNull(MoveBefore(es, i, j))
    ensures IdsOf(MoveBefore(es, i, j)) == MoveBefore(IdsOf(es), i, j)
  {
    var m := MoveBefore(es, i, j);
    MoveBeforePermutes(es, i, j);
    assert null !in multiset(m);
    var a, b := IdsOf(m), MoveBefore(IdsOf(es), i, j);
    forall k | 0 <= k < |a| ensures a[k] == b[k] {
      MoveBeforeAt(es, i, j, k);
      MoveBeforeAt(IdsOf(es), i, j, k);
    }
  }

  /** Moving an id keeps the ids issued. */
  lemma IssuedMove(ids: seq<int>, i: nat, j: nat, last: int)
    requires Issued(ids, last) && i < |ids| && j < |ids|
    ensures Issued(MoveBefore(ids, i, j), last)
  {
    var m := MoveBefore(ids, i, j);
    MoveBeforePermutes(ids, i, j);
    DistinctPermutation(ids, m);
    forall k | 0 <= k < |m| ensures m[k] <= last {
      MoveBeforeAt(ids, i, j, k);
    }
  }

  /**
   * The three list steps of `Move`: insert a dummy `d` before entry `j`,
   * swap entry `i` with the dummy, drop the dummy (from the position entry
   * `i` had after the insertion).
   */
  lemma MoveByDummy<X>(s: seq<X>, i: nat, j: nat, d: X)
    requires i < |s| && j < |s|
    ensures
      var t := s[..j] + [d] + s[j..];
      var i' := if i < j then i else i + 1;
      var u := t[i' := t[j]][j := t[i']];
      u[..i'] + u[i' + 1..] == MoveBefore(s, i, j)
  {
    var t := s[..j] + [d] + s[j..];
    var i' := if i < j then i else i + 1;
    var u := t[i' := t[j]][j := t[i']];
    var r := u[..i'] + u[i' + 1..];
    var m := MoveBefore(s, i, j);
    InsertIndices(s, j, d);
    RemoveIndices(u, i');
    assert |r| == |m|;
    forall k | 0 <= k < |r| ensures r[k] == m[k] {
      if i == j {
        assert r[k] == (if k < j then t[k] else t[k + 1]);
      } else if i < j {
        assert r[k] == (if k < i then u[k] else u[k + 1]);
        if k < i {
          assert m[k] == s[k];
        } else if k < j - 1 {
          assert m[k] == s[k + 1];
        } else if k == j - 1 {
          assert m[k] == s[i];
        } else {
          assert m[k] == s[k];
        }
      } else {
        assert r[k] == (if k < i + 1 then u[k] else u[k + 1]);
        if k < j {
          assert m[k] == s[k];
        } else if k == j {
          assert m[k] == s[i];
        } else if k <= i {
          assert m[k] == s[k - 1];
        } else {
          assert m[k] == s[k];
        }
      }
    }
  }

  class Playlist {
    const list: List<MusicInfo?>
    const autoID: AutoIncId

    /** The playlist, its list's objects and its counter. */
    ghost function Repr(): set<object>
      reads this, list
    {
      {this, autoID, list} + list.Repr
    }

    ghost predicate Valid()
      reads this, list, Repr()
      ensures Valid() ==> this in Repr()
    {
      && this !in list.Repr && autoID !in list.Repr
      && list.Valid()
      && NonNull(list.Values())
    }

    /** No entry is part of the playlist's own representation. */
    lemma NoEntryInRepr()
      requires Valid()
      ensures forall m: MusicInfo :: m !in Repr() && m !in list.Repr
    {
      forall m: MusicInfo | m in list.Repr ensures false {
      }
    }

    /** The entries from head to tail. */
    ghost function Entries(): (es: seq<MusicInfo?>)
      requires Valid()
      reads this, list, Repr()
      ensures NonNull(es)
    {
      list.Values()
    }

    /** The ids of the entries, head to tail. */
    ghost function Ids(): (ids: seq<int>)
      requires Valid()
      reads this, list, Repr(), set k | 0 <= k < |Entries()| :: Entries()[k]`ID
      ensures |ids| == |Entries()|
      ensures forall k {:trigger ids[k]} :: 0 <= k < |ids| ==> ids[k] == Entries()[k].ID
    {
      IdsOf(Entries())
    }

    /**
     * What the counter guarantees while entries are stamped only by this
     * playlist: no two entries share an id and every id has been issued.
     */
    ghost predicate Unique()
      requires Valid()
      reads this, list, Repr(), set k | 0 <= k < |Entries()| :: Entries()[k]`ID
    {
      Issued(Ids(), autoID.id)
    }

    /** `NewPlaylist`: an empty playlist whose first id will be 0. */
    constructor ()
      ensures Valid() && fresh(Repr()) && Entries() == [] && autoID.id == -1
      ensures Unique()
    {
      list := new List<MusicInfo?>();
      autoID := new AutoIncId(-1);
      new;
    }

    /** `Enqueue`: stamp `info` with the next id and append it, unless the playlist is full. */
    method Enqueue(info: MusicInfo) returns (r: Outcome<string>)
      requires Valid()
      modifies Repr(), info`ID
      ensures Valid() && fresh(Repr() - old(Repr()))
      ensures r.Fail? <==> |old(Entries())| >= LIST_MAX_SIZE
      ensures r.Fail? ==> Entries() == old(Entries()) && autoID.id == old(autoID.id) && info.ID == old(info.ID)
      ensures r.Pass? ==>
        && Entries() == old(Entries()) + [info]
        && autoID.id == old(autoID.id) + 1
        && info.ID == autoID.id
      ensures r.Pass? && info !in old(Entries()) ==> Ids() == old(Ids()) + [info.ID]
      ensures old(Unique()) && info !in old(Entries()) ==> Unique()
    {
      var n := list.Size();
      if n >= LIST_MAX_SIZE {
        return Fail("enqueue err: playlist reached max size");
      }
      ghost var es, ids, R := Entries(), Ids(), list.Repr;
      NoEntryInRepr();
      r := Append(info);
      if info !in es {
        assert IdsOf(es) == ids by {
          forall k | 0 <= k < |es| ensures es[k].ID == ids[k] {
            assert es[k] != info && es[k] !in R;
          }
        }
        IdsOfAppend(es, info);
        if old(Unique()) {
          IssuedAppend(ids, old(autoID.id));
        }
      }
    }

    /** The stamping and the append of `Enqueue`. */
    method Append(info: MusicInfo) returns (r: Outcome<string>)
      requires Valid()
      modifies Repr(), info`ID
      ensures Valid() && fresh(Repr() - old(Repr())) && r.Pass?
      ensures Entries() == old(Entries()) + [info]
      ensures autoID.id == old(autoID.id) + 1 && info.ID == autoID.id
    {
      NoEntryInRepr();
      ghost var es := Entries();
      var id := autoID.ID();
      info.ID := id;
      assert list.Valid() && list.Values() == es;
      r := list.InsertTail(info);
      assert list.Values() == es + [info];
      assert this !in list.Repr && autoID !in list.Repr;
      assert NonNull(es + [info]);
    }

    /** The left-to-right search of `Remove` and `Move`: the first node whose entry has `id`, or nil. */
    method Find(id: int) returns (n: Node?<MusicInfo?>)
      requires Valid()
      ensures n == null <==> id !in Ids()
      ensures n != null ==> n in list.Nodes && n == list.Nodes[IndexOf(Ids(), id)]
    {
      ghost var ns, ids := list.Nodes, Ids();
      n := list.Head();
      ghost var k := 0;
      while n != null
        invariant 0 <= k <= |ns|
        invariant n == (if k < |ns| then ns[k] else null)
        invariant id !in ids[..k]
        decreases |ns| - k
      {
        var info := n.Val();
        assert info == Entries()[k];
        if info.ID == id {
          IndexOfFirst(ids, id, k);
          return;
        }
        assert ids[..k + 1] == ids[..k] + [ids[k]];
        IndexOfDistinct(ns, k);
        n := n.Next();
        k := k + 1;
      }
      assert ids[..k] == ids;
    }

    /** `Remove`: drop the first entry with `id`; "id not found" when there is none. */
    method Remove(id: int) returns (r: Outcome<string>)
      requires Valid()
      modifies Repr()
      ensures Valid() && Repr() <= old(Repr()) && autoID.id == old(autoID.id)
      ensures r.Fail? <==> id !in old(Ids())
      ensures r.Fail? ==> Entries() == old(Entries())
      ensures r.Pass? ==>
        var i := IndexOf(old(Ids()), id);
        && Entries() == old(Entries())[..i] + old(Entries())[i + 1..]
        && Ids() == old(Ids())[..i] + old(Ids())[i + 1..]
      ensures old(Unique()) ==> Unique() && id !in Ids()
    {
      ghost var es, ids, ns := Entries(), Ids(), list.Nodes;
      var n := Find(id);
      assert list.Nodes == ns && Ids() == ids;
      if n == null {
        return Fail("id not found");
      }
      ghost var i := IndexOf(ids, id);
      ghost var R := list.Repr;
      NoEntryInRepr();
      r := Drop(n, i);
      assert IdsOf(es) == ids by {
        forall k | 0 <= k < |es| ensures es[k].ID == ids[k] {
          assert es[k] !in R;
        }
      }
      IdsOfRemove(es, i);
      if old(Unique()) {
        IssuedRemove(ids, i, autoID.id);
      }
    }

    /** The unlinking shared by `Remove` and `Dequeue`: a member node is always removed. */
    method Drop(n: Node<MusicInfo?>, ghost i: nat) returns (r: Outcome<string>)
      requires list.Valid() && i < |list.Nodes| && n == list.Nodes[i]
      modifies list.Repr
      ensures list.Valid() && list.Repr == old(list.Repr) - {n} && r.Pass?
      ensures list.Nodes == old(list.Nodes)[..i] + old(list.Nodes)[i + 1..]
      ensures list.Values() == old(list.Values())[..i] + old(list.Values())[i + 1..]
    {
      IndexOfDistinct(list.Nodes, i);
      r := list.Remove(n);
    }

    /**
     * `Move`: put the entry with `id` immediately before the entry with
     * `other`, by inserting a dummy entry before `other`, swapping it with
     * `id`'s node and removing it again.
     */
    method Move(id: int, other: int) returns (r: Outcome<string>)
      requires Valid()
      modifies Repr()
      ensures Valid() && Repr() == old(Repr()) && autoID.id == old(autoID.id)
      ensures r.Fail? <==> id !in old(Ids()) || other !in old(Ids())
      ensures r.Fail? ==> Entries() == old(Entries())
      ensures r.Pass? ==>
        var i, j := IndexOf(old(Ids()), id), IndexOf(old(Ids()), other);
        && Entries() == MoveBefore(old(Entries()), i, j)
        && Ids() == MoveBefore(old(Ids()), i, j)
      ensures old(Unique()) ==> Unique()
    {
      ghost var es, ids, ns := Entries(), Ids(), list.Nodes;
      var n1 := Find(id);
      assert list.Nodes == ns && Ids() == ids;
      if n1 == null {
        return Fail("node not found, id");
      }
      var n2 := Find(other);
      assert list.Nodes == ns && Ids() == ids;
      assert Valid();
      if n2 == null {
        return Fail("node not found, other");
      }
      ghost var i, j := IndexOf(ids, id), IndexOf(ids, other);
      ghost var R := list.Repr;
      NoEntryInRepr();
      r := Relocate(n1, n2, i, j);
      assert IdsOf(es) == ids by {
        forall k | 0 <= k < |es| ensures es[k].ID == ids[k] {
          assert es[k] !in R;
        }
      }
      IdsOfMoveBefore(es, i, j);
      if old(Unique()) {
        IssuedMove(ids, i, j, autoID.id);
      }
    }

    /** The list steps of `Move` for the nodes at positions `i` and `j`; none of them can fail. */
    method Relocate(n1: Node<MusicInfo?>, n2: Node<MusicInfo?>, ghost i: nat, ghost j: nat) returns (r: Outcome<string>)
      requires Valid() && i < |list.Nodes| && j < |list.Nodes|
      requires n1 == list.Nodes[i] && n2 == list.Nodes[j]
      modifies list.Repr
      ensures Valid() && list.Repr == old(list.Repr) && r.Pass?
      ensures Entries() == MoveBefore(old(Entries()), i, j)
    {
      ghost var es, ns := Entries(), list.Nodes;
      ghost var i': nat := if i < j then i else i + 1;
      var info := new MusicInfo();
      var dummy;
      r, dummy := InsertDummy(info, n2, j);
      ghost var e1 := es[..j] + [info] + es[j..];
      InsertIndices(ns, j, dummy);
      assert list.Nodes[i'] == n1 && list.Nodes[j] == dummy;
      r := SwapNodes(n1, dummy, i', j);
      ghost var e2 := e1[i' := e1[j]][j := e1[i']];
      assert list.Values() == e2;
      r := Drop(dummy, i');
      assert list.Values() == e2[..i'] + e2[i' + 1..];
      MoveByDummy(es, i, j, info);
      IdsOfMoveBefore(es, i, j);
    }

    /** The first step of `Move`: a dummy entry `info` goes in before the node at position `j`. */
    method InsertDummy(info: MusicInfo, n2: Node<MusicInfo?>, ghost j: nat) returns (r: Outcome<string>, dummy: Node<MusicInfo?>)
      requires list.Valid() && j < |list.Nodes| && n2 == list.Nodes[j]
      modifies list.Repr
      ensures list.Valid() && r.Pass? && fresh(dummy) && list.Repr == old(list.Repr) + {dummy}
      ensures list.Nodes == old(list.Nodes)[..j] + [dummy] + old(list.Nodes)[j..]
      ensures list.Values() == old(list.Values())[..j] + [info] + old(list.Values())[j..]
    {
      ghost var ns := list.Nodes;
      IndexOfDistinct(ns, j);
      r := list.InsertBefore(info, n2);
      ghost var t := list.Nodes;
      InsertIndices(ns, j, t[j]);
      assert t == ns[..j] + [t[j]] + ns[j..];
      assert t[j + 1] == n2;
      IndexOfDistinct(t, j + 1);
      var d := n2.Prev();
      return r, d;
    }

    /** The second step of `Move`: the nodes at positions `a` and `b` trade places. */
    method SwapNodes(n1: Node<MusicInfo?>, n2: Node<MusicInfo?>, ghost a: nat, ghost b: nat) returns (r: Outcome<string>)
      requires list.Valid() && a < |list.Nodes| && b < |list.Nodes| && a != b
      requires n1 == list.Nodes[a] && n2 == list.Nodes[b]
      modifies list.Repr
      ensures list.Valid() && r.Pass? && list.Repr == old(list.Repr)
      ensures list.Nodes == old(list.Nodes)[a := n2][b := n1]
      ensures list.Values() == old(list.Values())[a := old(list.Values())[b]][b := old(list.Values())[a]]
    {
      IndexOfDistinct(list.Nodes, a);
      IndexOfDistinct(list.Nodes, b);
      RingLink(list.root, list.Nodes, a);
      RingLink(list.root, list.Nodes, b);
      r := list.Swap(n1, n2);
    }

    /** `Dequeue`: take the head entry off the playlist. */
    method Dequeue() returns (r: Result<MusicInfo, string>)
      requires Valid()
      modifies Repr()
      ensures Valid() && Repr() <= old(Repr()) && autoID.id == old(autoID.id)
      ensures r.Failure? <==> |old(Entries())| == 0
      ensures r.Failure? ==> Entries() == old(Entries())
      ensures r.Success? ==> r.value == old(Entries())[0] && Entries() == old(Entries())[1..]
      ensures r.Success? ==> Ids() == old(Ids())[1..]
      ensures old(Unique()) ==> Unique()
    {
      ghost var es, ids := Entries(), Ids();
      var node := list.Head();
      if node == null {
        return Failure("Trying to dequeue an empty playlist");
      }
      var info := node.Val();
      ghost var R := list.Repr;
      NoEntryInRepr();
      // Go returns the error of this removal, which a member node never gets.
      var e := Drop(node, 0);
      assert IdsOf(es) == ids by {
        forall k | 0 <= k < |es| ensures es[k].ID == ids[k] {
          assert es[k] !in R;
        }
      }
      IdsOfRemove(es, 0);
      assert es[..0] + es[1..] == es[1..] && ids[..0] + ids[1..] == ids[1..];
      if old(Unique()) {
        IssuedRemove(ids, 0, autoID.id);
      }
      return Success(info);
    }

    /** `Head`: the head entry, nil when the playlist is empty. */
    function Head(): (info: MusicInfo?)
      requires Valid()
      reads this, list, Repr()
      ensures info == (if |Entries()| == 0 then null else Entries()[0])
    {
      var node := list.Head();
      if node == null then null else node.Val()
    }

    /** `Clear`: empty the playlist; the counter keeps going, so no id is issued twice. */
    method Clear()
      requires Valid()
      modifies Repr()
      ensures Valid() && Repr() <= old(Repr()) && Entries() == [] && autoID.id == old(autoID.id)
      ensures Unique()
    {
      list.Init();
    }

    /** `Size`: the number of entries. */
    function Size(): (s: int)
      requires Valid()
      reads this, list, Repr()
      ensures s == |Entries()|
    {
      list.Size()
    }
  }
}
