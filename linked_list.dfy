/**
 * The intrusive doubly-linked list of utils/linkedlist/linked_list.go.
 *
 * As in Go's container/list, the list is a ring closed by a sentinel node
 * `root`: `root.next` is the head, `root.prev` is the tail, and an empty list
 * is the sentinel pointing at itself. Every node records the list it belongs
 * to in `l`; a removed node has `prev`, `next` and `l` all cleared.
 *
 * The ghost sequence `Nodes` is the abstract view: the nodes from head to
 * tail. `Valid()` ties every pointer of the ring to that sequence through
 * `Ring`, which speaks of ring positions: `-1` (and `|ns|`) is the sentinel,
 * `0 .. |ns| - 1` are the nodes.
 */
module LinkedList {
  import opened Wrappers
  import opened Seqs

  /** `strings.Join`. */
  function Join(parts: seq<string>, sep: string): (s: string)
    ensures |parts| == 0 ==> s == ""
    ensures |parts| == 1 ==> s == parts[0]
  {
    if |parts| == 0 then ""
    else if |parts| == 1 then parts[0]
    else parts[0] + sep + Join(parts[1..], sep)
  }

  /** The rendering of every value with `show` (standing for `fmt.Sprintf("%v", ...)`). */
  function Shown<T>(show: T -> string, vs: seq<T>): (r: seq<string>)
    ensures |r| == |vs|
    ensures forall i :: 0 <= i < |vs| ==> r[i] == show(vs[i])
  {
    if |vs| == 0 then [] else [show(vs[0])] + Shown(show, vs[1..])
  }

  lemma {:induction false} ShownAppend<T>(show: T -> string, vs: seq<T>, v: T)
    ensures Shown(show, vs + [v]) == Shown(show, vs) + [show(v)]
  {
    if |vs| > 0 {
      assert (vs + [v])[1..] == vs[1..] + [v];
      ShownAppend(show, vs[1..], v);
    }
  }

  // ---------------------------------------------------------------------
  // Node sequences in the heap
  // ---------------------------------------------------------------------

  /** The nodes of a sequence, as a set of objects (for footprints). */
  ghost function NodeSet<T(0)>(ns: seq<Node<T>>): set<object>
  {
    set n | n in ns
  }

  lemma NodeSetInsert<T(0)>(ns: seq<Node<T>>, p: nat, n: Node<T>)
    requires p <= |ns|
    ensures NodeSet(ns[..p] + [n] + ns[p..]) == NodeSet(ns) + {n}
  {
    var t := ns[..p] + [n] + ns[p..];
    InsertIndices(ns, p, n);
    forall o | o in NodeSet(t) ensures o in NodeSet(ns) + {n} {
      var k :| 0 <= k < |t| && t[k] == o;
      assert t[k] == if k < p then ns[k] else if k == p then n else ns[k - 1];
    }
    forall o | o in NodeSet(ns) ensures o in NodeSet(t) {
      var k :| 0 <= k < |ns| && ns[k] == o;
      if k < p {
        assert t[k] == o;
      } else {
        assert t[k + 1] == o;
      }
    }
  }

  lemma NodeSetRemove<T(0)>(ns: seq<Node<T>>, i: nat)
    requires i < |ns| && Distinct(ns)
    ensures NodeSet(ns[..i] + ns[i + 1..]) == NodeSet(ns) - {ns[i]}
  {
    var t := ns[..i] + ns[i + 1..];
    DistinctRemove(ns, i);
    forall o | o in NodeSet(t) ensures o in NodeSet(ns) - {ns[i]} {
      var k :| 0 <= k < |t| && t[k] == o;
      assert t[k] == if k < i then ns[k] else ns[k + 1];
    }
    forall o | o in NodeSet(ns) - {ns[i]} ensures o in NodeSet(t) {
      var k :| 0 <= k < |ns| && ns[k] == o;
      if k < i {
        assert t[k] == o;
      } else {
        assert t[k - 1] == o;
      }
    }
  }

  lemma NodeSetSwap<T(0)>(ns: seq<Node<T>>, i: nat, j: nat)
    requires i < |ns| && j < |ns|
    ensures NodeSet(ns[i := ns[j]][j := ns[i]]) == NodeSet(ns)
  {
    var t := ns[i := ns[j]][j := ns[i]];
    forall o | o in NodeSet(t) ensures o in NodeSet(ns) {
      var k :| 0 <= k < |t| && t[k] == o;
      assert t[k] == if k == j then ns[i] else if k == i then ns[j] else ns[k];
    }
    forall o | o in NodeSet(ns) ensures o in NodeSet(t) {
      var k :| 0 <= k < |ns| && ns[k] == o;
      if k == i {
        assert t[j] == o;
      } else if k == j {
        assert t[i] == o;
      } else {
        assert t[k] == o;
      }
    }
  }

  /** The values held by a sequence of nodes. */
  ghost function ValuesOf<T(0)>(ns: seq<Node<T>>): (vs: seq<T>)
    reads ns
    ensures |vs| == |ns|
    ensures forall i {:trigger vs[i]} :: 0 <= i < |ns| ==> vs[i] == ns[i].value
  {
    if |ns| == 0 then [] else [ns[0].value] + ValuesOf(ns[1..])
  }

  /** The values of nodes whose `value` fields did not change are the same. */
  twostate lemma ValuesOfUnchanged<T(0)>(ns: seq<Node<T>>)
    requires forall k :: 0 <= k < |ns| ==> ns[k].value == old(ns[k].value)
    ensures ValuesOf(ns) == old(ValuesOf(ns))
  {
    var a, b := ValuesOf(ns), old(ValuesOf(ns));
    assert |a| == |b|;
    forall k | 0 <= k < |a| ensures a[k] == b[k] {
      assert a[k] == ns[k].value;
    }
  }

  lemma ValuesOfInsert<T(0)>(ns: seq<Node<T>>, p: nat, n: Node<T>)
    requires p <= |ns|
    ensures ValuesOf(ns[..p] + [n] + ns[p..]) == ValuesOf(ns)[..p] + [n.value] + ValuesOf(ns)[p..]
  {
    var t := ns[..p] + [n] + ns[p..];
    var vs := ValuesOf(ns);
    var a, b := ValuesOf(t), vs[..p] + [n.value] + vs[p..];
    InsertIndices(ns, p, n);
    InsertIndices(vs, p, n.value);
    assert |a| == |b|;
    forall k | 0 <= k < |a| ensures a[k] == b[k] {
      assert a[k] == t[k].value;
      if k < p {
        assert t[k] == ns[k] && b[k] == vs[k];
      } else if k > p {
        assert t[k] == ns[k - 1] && b[k] == vs[k - 1];
      }
    }
  }

  lemma ValuesOfRemove<T(0)>(ns: seq<Node<T>>, i: nat)
    requires i < |ns|
    ensures ValuesOf(ns[..i] + ns[i + 1..]) == ValuesOf(ns)[..i] + ValuesOf(ns)[i + 1..]
  {
    var a, b := ValuesOf(ns[..i] + ns[i + 1..]), ValuesOf(ns)[..i] + ValuesOf(ns)[i + 1..];
    RemoveIndices(ns, i);
    assert |a| == |b|;
    forall k | 0 <= k < |a| ensures a[k] == b[k] {
      if k < i {
        assert a[k] == ns[k].value;
      } else {
        assert a[k] == ns[k + 1].value;
      }
    }
  }

  lemma ValuesOfSwap<T(0)>(ns: seq<Node<T>>, i: nat, j: nat)
    requires i < |ns| && j < |ns|
    ensures var vs := ValuesOf(ns); ValuesOf(ns[i := ns[j]][j := ns[i]]) == vs[i := vs[j]][j := vs[i]]
  {
    var t := ns[i := ns[j]][j := ns[i]];
    var vs := ValuesOf(ns);
    var a, b := ValuesOf(t), vs[i := vs[j]][j := vs[i]];
    assert |a| == |b|;
    forall k | 0 <= k < |a| ensures a[k] == b[k] {
      assert a[k] == t[k].value;
      if k == j {
        assert t[k] == ns[i] && b[k] == vs[i];
      } else if k == i {
        assert t[k] == ns[j] && b[k] == vs[j];
      } else {
        assert t[k] == ns[k] && b[k] == vs[k];
      }
    }
  }

  /** The node at ring position `i`: `ns[i]` inside the list, the sentinel anywhere else. */
  ghost function RingAt<T(0)>(root: Node<T>, ns: seq<Node<T>>, i: int): Node<T>
  {
    if 0 <= i < |ns| then ns[i] else root
  }

  /** The pointers form the ring sentinel, `ns[0]`, ..., `ns[|ns| - 1]`, sentinel. */
  ghost predicate Ring<T(0)>(root: Node<T>, ns: seq<Node<T>>)
    reads root, ns
  {
    forall i, j {:trigger RingAt(root, ns, i), RingAt(root, ns, j)} :: -1 <= i < |ns| && j == i + 1 ==>
      RingAt(root, ns, i).next == RingAt(root, ns, j) && RingAt(root, ns, j).prev == RingAt(root, ns, i)
  }

  /** The two links between ring positions `i` and `i + 1`. */
  lemma RingLink<T(0)>(root: Node<T>, ns: seq<Node<T>>, i: int)
    requires Ring(root, ns) && -1 <= i < |ns|
    ensures RingAt(root, ns, i).next == RingAt(root, ns, i + 1)
    ensures RingAt(root, ns, i + 1).prev == RingAt(root, ns, i)
  {
  }

  class Node<T(0)> {
    var value: T
    var prev: Node?<T>
    var next: Node?<T>
    var l: List?<T>

    /** A node outside every list. */
    ghost predicate Detached()
      reads this
    {
      prev == null && next == null && l == null
    }

    /** `&Node[T]{value: v}`: a fresh node outside every list. */
    constructor (v: T)
      ensures value == v && Detached()
    {
      value := v;
      prev := null;
      next := null;
      l := null;
    }

    /** The zero node embedded in a list as its sentinel. */
    constructor Sentinel()
      ensures Detached()
    {
      prev := null;
      next := null;
      l := null;
    }

    /** `Next`: the following node of the list, nil after the tail or outside a list. */
    function Next(): (r: Node?<T>)
      requires l != null ==> l.Valid() && this in l.Nodes
      reads this, if l != null then {l} + l.Repr else {}
      ensures l == null ==> r == null
      ensures l != null ==> r == l.Succ(this)
    {
      if l == null then null
      else
        RingLink(l.root, l.Nodes, IndexOf(l.Nodes, this));
        if next != l.root then next else null
    }

    /** `Prev`: the preceding node of the list, nil before the head or outside a list. */
    function Prev(): (r: Node?<T>)
      requires l != null ==> l.Valid() && this in l.Nodes
      reads this, if l != null then {l} + l.Repr else {}
      ensures l == null ==> r == null
      ensures l != null ==> r == l.Pred(this)
    {
      if l == null then null
      else
        RingLink(l.root, l.Nodes, IndexOf(l.Nodes, this) - 1);
        if prev != l.root then prev else null
    }

    /** `Val`: the stored value (Go hands out a pointer to it; writes go through `Set`). */
    function Val(): (v: T)
      reads this
      ensures v == value
    {
      value
    }

    /** `Set`: overwrite the stored value; the shape of the list does not change. */
    method Set(t: T)
      requires l != null ==> l.Valid() && this in l.Nodes
      modifies this`value
      ensures value == t
      ensures l != null ==> l.Valid() && l.Nodes == old(l.Nodes)
      ensures l != null ==> l.Values() == old(l.Values())[IndexOf(l.Nodes, this) := t]
    {
      ghost var vs := if l != null then l.Values() else [];
      value := t;
      if l != null {
        var list := l;
        ghost var i := IndexOf(list.Nodes, this);
        forall k | 0 <= k < |vs| ensures list.Values()[k] == vs[i := t][k] {
          assert list.Values()[k] == list.Nodes[k].value;
        }
      }
    }
  }

  class List<T(0)> {
    /** The sentinel closing the ring (embedded by value in Go). */
    const root: Node<T>
    var size: int

    /** The nodes from head to tail. */
    ghost var Nodes: seq<Node<T>>
    /** Every object of the list: itself, the sentinel and the nodes. */
    ghost var Repr: set<object>

    ghost predicate Valid()
      reads this, Repr
      ensures Valid() ==> this in Repr && root in Repr
    {
      && this in Repr && root in Repr
      && Repr == {this, root} + NodeSet(Nodes)
      && root !in Nodes
      && size == |Nodes|
      && root.l == null
      && Distinct(Nodes)
      && (forall i :: 0 <= i < |Nodes| ==> Nodes[i].l == this)
      && Ring(root, Nodes)
    }

    /** The stored values from head to tail. */
    ghost function Values(): (vs: seq<T>)
      requires Valid()
      reads this, Repr
      ensures |vs| == |Nodes|
      ensures forall i {:trigger vs[i]} :: 0 <= i < |Nodes| ==> vs[i] == Nodes[i].value
    {
      ValuesOf(Nodes)
    }

    /** The node after `n` in the list, or nil when `n` is the tail. */
    ghost function Succ(n: Node<T>): Node?<T>
      requires n in Nodes
      reads this
    {
      var i := IndexOf(Nodes, n);
      if i + 1 < |Nodes| then Nodes[i + 1] else null
    }

    /** The node before `n` in the list, or nil when `n` is the head. */
    ghost function Pred(n: Node<T>): Node?<T>
      requires n in Nodes
      reads this
    {
      var i := IndexOf(Nodes, n);
      if i > 0 then Nodes[i - 1] else null
    }

    /** Ring position of a member node or of the sentinel (-1). */
    ghost function Pos(n: Node<T>): int
      requires n == root || n in Nodes
      reads this
    {
      if n == root then -1 else IndexOf(Nodes, n)
    }

    /** `New`: an initialised, empty list. */
    constructor ()
      ensures Valid() && fresh(Repr) && Nodes == []
    {
      root := new Node<T>.Sentinel();
      size := 0;
      Nodes := [];
      new;
      Repr := {this, root};
      root.next := root;
      root.prev := root;
    }

    /** `Init`: make the list empty again (nodes that were in it are simply forgotten). */
    method Init()
      requires Valid()
      modifies this, root
      ensures Valid() && Nodes == [] && Repr == {this, root}
    {
      root.next := root;
      root.prev := root;
      size := 0;
      Nodes := [];
      Repr := {this, root};
    }

    /** The four pointer writes of `insertAt`: link `n` between ring positions `p - 1` and `p` of `ns`. */
    method Splice(n: Node<T>, at: Node<T>, ghost ns: seq<Node<T>>, ghost p: int)
      requires Ring(root, ns) && Distinct(ns) && root !in ns && n != root && n !in ns
      requires 0 <= p <= |ns| && at == RingAt(root, ns, p - 1)
      modifies at`next, RingAt(root, ns, p)`prev, n`prev, n`next, n`l
      ensures n.l == this
      ensures Ring(root, ns[..p] + [n] + ns[p..])
    {
      RingLink(root, ns, p - 1);
      n.prev := at;
      n.next := at.next;
      n.l := this;
      at.next.prev := n;
      at.next := n;
      ghost var t := ns[..p] + [n] + ns[p..];
      InsertIndices(ns, p, n);
      forall i, j | -1 <= i < |t| && j == i + 1
        ensures RingAt(root, t, i).next == RingAt(root, t, j) && RingAt(root, t, j).prev == RingAt(root, t, i)
      {
        if i < p - 1 {
          assert RingAt(root, t, i) == RingAt(root, ns, i) && RingAt(root, t, j) == RingAt(root, ns, j);
          assert old(RingAt(root, ns, i).next) == RingAt(root, ns, j);
        } else if i == p - 1 {
          assert RingAt(root, t, i) == at && RingAt(root, t, j) == n;
        } else if i == p {
          assert RingAt(root, t, j) == RingAt(root, ns, p);
        } else {
          assert RingAt(root, t, i) == RingAt(root, ns, i - 1) && RingAt(root, t, j) == RingAt(root, ns, i);
          assert old(RingAt(root, ns, i - 1).next) == RingAt(root, ns, i);
        }
      }
    }

    /** `insertAt`: link a new node holding `v` right after `at`. */
    method InsertAt(v: T, at: Node?<T>) returns (r: Outcome<string>)
      requires Valid()
      requires at == null || at == root || at in Nodes || at.Detached()
      modifies Repr
      ensures Valid() && fresh(Repr - old(Repr))
      ensures r.Fail? <==> at == null || old(at.next) == null || old(at.prev) == null
      ensures r.Fail? ==> unchanged(old(Repr)) && Nodes == old(Nodes) && Repr == old(Repr)
      ensures r.Pass? ==>
        var p := old(Pos(at)) + 1;
        && |Nodes| == |old(Nodes)| + 1
        && Nodes == old(Nodes)[..p] + [Nodes[p]] + old(Nodes)[p..]
        && fresh(Nodes[p]) && Repr == old(Repr) + {Nodes[p]}
        && Values() == old(Values())[..p] + [v] + old(Values())[p..]
    {
      if at == null || at.next == null || at.prev == null {
        return Fail("invalid node provided");
      }
      ghost var p := Pos(at) + 1;
      ghost var ns, vs := Nodes, Values();
      var n := new Node<T>(v);
      Splice(n, at, ns, p);
      size := size + 1;
      Repr := Repr + {n};
      InsertIndices(ns, p, n);
      NodeSetInsert(ns, p, n);
      DistinctInsert(ns, p, n);
      Reseat(ns[..p] + [n] + ns[p..]);
      ValuesOfUnchanged(ns);
      ValuesOfInsert(ns, p, n);
      assert Values() == vs[..p] + [v] + vs[p..];
      return Pass;
    }

    /** `InsertHead`: prepend `v`. */
    method InsertHead(v: T) returns (r: Outcome<string>)
      requires Valid()
      modifies Repr
      ensures Valid() && fresh(Repr - old(Repr))
      ensures r == Pass && |Nodes| == |old(Nodes)| + 1 && fresh(Nodes[0]) && Repr == old(Repr) + {Nodes[0]}
      ensures Nodes[1..] == old(Nodes) && Values() == [v] + old(Values())
    {
      RingLink(root, Nodes, -1);
      RingLink(root, Nodes, |Nodes| - 1);
      ghost var ns, vs := Nodes, Values();
      r := InsertAt(v, root);
      assert Nodes == [Nodes[0]] + ns;
      assert Values() == [v] + vs;
    }

    /** `InsertTail`: append `v`. */
    method InsertTail(v: T) returns (r: Outcome<string>)
      requires Valid()
      modifies Repr
      ensures Valid() && fresh(Repr - old(Repr))
      ensures r == Pass && |Nodes| == |old(Nodes)| + 1
      ensures fresh(Nodes[|Nodes| - 1]) && Repr == old(Repr) + {Nodes[|Nodes| - 1]}
      ensures Nodes[..|Nodes| - 1] == old(Nodes) && Values() == old(Values()) + [v]
    {
      RingLink(root, Nodes, |Nodes| - 1);
      if |Nodes| > 0 {
        RingLink(root, Nodes, |Nodes| - 2);
        IndexOfDistinct(Nodes, |Nodes| - 1);
      }
      RingLink(root, Nodes, -1);
      ghost var ns, vs := Nodes, Values();
      r := InsertAt(v, root.prev);
      assert Nodes == ns + [Nodes[|ns|]];
      assert Values() == vs + [v];
    }

    /** `InsertAfter`: place `v` immediately after `node`. */
    method InsertAfter(v: T, node: Node?<T>) returns (r: Outcome<string>)
      requires Valid()
      requires node == null || node in Nodes || node.Detached()
      modifies Repr
      ensures Valid() && fresh(Repr - old(Repr))
      ensures r.Fail? <==> node == null || node !in old(Nodes)
      ensures r.Fail? ==> unchanged(old(Repr)) && Nodes == old(Nodes) && Repr == old(Repr)
      ensures r.Pass? ==>
        var p := old(IndexOf(Nodes, node)) + 1;
        && |Nodes| == |old(Nodes)| + 1
        && Nodes == old(Nodes)[..p] + [Nodes[p]] + old(Nodes)[p..]
        && fresh(Nodes[p]) && Repr == old(Repr) + {Nodes[p]}
        && Values() == old(Values())[..p] + [v] + old(Values())[p..]
    {
      if node != null && node in Nodes {
        RingLink(root, Nodes, IndexOf(Nodes, node));
        RingLink(root, Nodes, IndexOf(Nodes, node) - 1);
      }
      r := InsertAt(v, node);
    }

    /** `InsertBefore`: place `v` immediately before `node` (Go dereferences `node`, so it is not nil). */
    method InsertBefore(v: T, node: Node<T>) returns (r: Outcome<string>)
      requires Valid()
      requires node in Nodes || node.Detached()
      modifies Repr
      ensures Valid() && fresh(Repr - old(Repr))
      ensures r.Fail? <==> node !in old(Nodes)
      ensures r.Fail? ==> unchanged(old(Repr)) && Nodes == old(Nodes) && Repr == old(Repr)
      ensures r.Pass? ==>
        var p := old(IndexOf(Nodes, node));
        && |Nodes| == |old(Nodes)| + 1
        && Nodes == old(Nodes)[..p] + [Nodes[p]] + old(Nodes)[p..]
        && fresh(Nodes[p]) && Repr == old(Repr) + {Nodes[p]}
        && Values() == old(Values())[..p] + [v] + old(Values())[p..]
    {
      if node in Nodes {
        ghost var i: int := IndexOf(Nodes, node);
        RingLink(root, Nodes, i - 1);
        RingLink(root, Nodes, |Nodes| - 1);
        if i > 0 {
          RingLink(root, Nodes, i - 2);
          IndexOfDistinct(Nodes, i - 1);
        }
      }
      r := InsertAt(v, node.prev);
    }

    /** The pointer writes of `Remove`: unlink the node at ring position `i` of `ns`. */
    method Unsplice(node: Node<T>, ghost ns: seq<Node<T>>, ghost i: int)
      requires Ring(root, ns) && Distinct(ns) && root !in ns
      requires 0 <= i < |ns| && node == ns[i]
      modifies RingAt(root, ns, i - 1)`next, RingAt(root, ns, i + 1)`prev, node`prev, node`next, node`l
      ensures node.Detached()
      ensures Ring(root, ns[..i] + ns[i + 1..])
    {
      RingLink(root, ns, i - 1);
      RingLink(root, ns, i);
      node.prev.next := node.next;
      node.next.prev := node.prev;
      node.prev := null;
      node.next := null;
      node.l := null;
      ghost var t := ns[..i] + ns[i + 1..];
      RemoveIndices(ns, i);
      forall a, b | -1 <= a < |t| && b == a + 1
        ensures RingAt(root, t, a).next == RingAt(root, t, b) && RingAt(root, t, b).prev == RingAt(root, t, a)
      {
        if a < i - 1 {
          assert RingAt(root, t, a) == RingAt(root, ns, a) && RingAt(root, t, b) == RingAt(root, ns, b);
          assert old(RingAt(root, ns, a).next) == RingAt(root, ns, b);
        } else if a == i - 1 {
          assert RingAt(root, t, a) == RingAt(root, ns, i - 1) && RingAt(root, t, b) == RingAt(root, ns, i + 1);
        } else {
          assert RingAt(root, t, a) == RingAt(root, ns, a + 1) && RingAt(root, t, b) == RingAt(root, ns, b + 1);
          assert old(RingAt(root, ns, a + 1).next) == RingAt(root, ns, b + 1);
        }
      }
    }

    /** `Remove`: unlink `node` and clear its links. */
    method Remove(node: Node?<T>) returns (r: Outcome<string>)
      requires Valid()
      requires node == null || node in Nodes || node.Detached()
      modifies Repr
      ensures Valid() && Repr <= old(Repr)
      ensures r.Fail? <==> old(size) == 0 || node == null || old(node.next) == null
      ensures r.Pass? <==> node != null && node in old(Nodes)
      ensures r.Fail? ==> unchanged(old(Repr)) && Nodes == old(Nodes) && Repr == old(Repr)
      ensures r.Pass? ==>
        var i := old(IndexOf(Nodes, node));
        && Nodes == old(Nodes)[..i] + old(Nodes)[i + 1..]
        && Values() == old(Values())[..i] + old(Values())[i + 1..]
        && node.Detached() && node.value == old(node.value)
        && Repr == old(Repr) - {node}
    {
      if node != null && node in Nodes {
        RingLink(root, Nodes, IndexOf(Nodes, node));
      }
      if size == 0 {
        return Fail("list is size of 0");
      }
      if node == null || node.next == null {
        return Fail("null pointer given");
      }
      Unlink(node);
      return Pass;
    }

    /** The unlinking of `Remove`, for a member node. */
    method Unlink(node: Node<T>)
      requires Valid() && node in Nodes
      modifies Repr
      ensures Valid() && Repr == old(Repr) - {node}
      ensures
        var i := old(IndexOf(Nodes, node));
        && Nodes == old(Nodes)[..i] + old(Nodes)[i + 1..]
        && Values() == old(Values())[..i] + old(Values())[i + 1..]
        && node.Detached() && node.value == old(node.value)
    {
      ghost var i: int := IndexOf(Nodes, node);
      ghost var ns := Nodes;
      Unsplice(node, ns, i);
      size := size - 1;
      Repr := Repr - {node};
      RemoveIndices(ns, i);
      NodeSetRemove(ns, i);
      DistinctRemove(ns, i);
      Reseat(ns[..i] + ns[i + 1..]);
      ValuesOfUnchanged(ns);
      ValuesOfRemove(ns, i);
    }

    /** The pointer writes of `Swap` for neighbours: `a` at ring position `k`, `b` right after it. */
    method SwapAdjacent(a: Node<T>, b: Node<T>, ghost ns: seq<Node<T>>, ghost k: int)
      requires Ring(root, ns) && Distinct(ns) && root !in ns
      requires 0 <= k && k + 1 < |ns| && a == ns[k] && b == ns[k + 1]
      modifies RingAt(root, ns, k - 1)`next, RingAt(root, ns, k + 2)`prev, a`prev, a`next, b`prev, b`next
      ensures Ring(root, ns[k := b][k + 1 := a])
    {
      RingLink(root, ns, k - 1);
      RingLink(root, ns, k);
      RingLink(root, ns, k + 1);
      var after := b.next;
      a.prev.next := b;
      b.prev := a.prev;
      b.next := a;
      a.prev := b;
      a.next := after;
      after.prev := a;
      ghost var t := ns[k := b][k + 1 := a];
      forall q, r | -1 <= q < |t| && r == q + 1
        ensures RingAt(root, t, q).next == RingAt(root, t, r) && RingAt(root, t, r).prev == RingAt(root, t, q)
      {
        if q < k - 1 || k + 1 < q {
          assert RingAt(root, t, q) == RingAt(root, ns, q) && RingAt(root, t, r) == RingAt(root, ns, r);
          assert old(RingAt(root, ns, q).next) == RingAt(root, ns, r);
        } else if q == k - 1 {
          assert RingAt(root, t, q) == RingAt(root, ns, k - 1) && RingAt(root, t, r) == b;
        } else if q == k {
          assert RingAt(root, t, q) == b && RingAt(root, t, r) == a;
        } else {
          assert RingAt(root, t, q) == a && RingAt(root, t, r) == RingAt(root, ns, k + 2);
        }
      }
    }

    /** The pointer writes of `Swap` for nodes at ring positions `i` and `j` that are not neighbours. */
    method SwapApart(n1: Node<T>, n2: Node<T>, ghost ns: seq<Node<T>>, ghost i: int, ghost j: int)
      requires Ring(root, ns) && Distinct(ns) && root !in ns
      requires 0 <= i < |ns| && 0 <= j < |ns| && n1 == ns[i] && n2 == ns[j]
      requires i != j && i + 1 != j && j + 1 != i
      modifies RingAt(root, ns, i - 1)`next, RingAt(root, ns, i + 1)`prev, n1`prev, n1`next
      modifies RingAt(root, ns, j - 1)`next, RingAt(root, ns, j + 1)`prev, n2`prev, n2`next
      ensures Ring(root, ns[i := n2][j := n1])
    {
      RingLink(root, ns, i - 1);
      RingLink(root, ns, i);
      RingLink(root, ns, j - 1);
      RingLink(root, ns, j);
      var after, before := n2.next, n2.prev;
      n1.prev.next := n2;
      n1.next.prev := n2;
      n2.next := n1.next;
      n2.prev := n1.prev;
      before.next := n1;
      after.prev := n1;
      n1.prev := before;
      n1.next := after;
      ghost var t: seq<Node<T>> := ns[i := n2][j := n1];
      forall q, r | -1 <= q < |t| && r == q + 1
        ensures RingAt(root, t, q).next == RingAt(root, t, r) && RingAt(root, t, r).prev == RingAt(root, t, q)
      {
        if q == i {
          assert RingAt(root, t, q) == n2 && RingAt(root, t, r) == RingAt(root, ns, i + 1);
        } else if q == j {
          assert RingAt(root, t, q) == n1 && RingAt(root, t, r) == RingAt(root, ns, j + 1);
        } else if r == i {
          assert RingAt(root, t, q) == RingAt(root, ns, i - 1) && RingAt(root, t, r) == n2;
        } else if r == j {
          assert RingAt(root, t, q) == RingAt(root, ns, j - 1) && RingAt(root, t, r) == n1;
        } else {
          assert RingAt(root, t, q) == RingAt(root, ns, q) && RingAt(root, t, r) == RingAt(root, ns, r);
          assert old(RingAt(root, ns, q).next) == RingAt(root, ns, r);
        }
      }
    }

    /**
     * `Swap`: exchange the places of two nodes of the list. A node that claims
     * to belong to this list is in it; nodes of two other lists are told apart
     * by their `l`.
     */
    method Swap(n1: Node?<T>, n2: Node?<T>) returns (r: Outcome<string>)
      requires Valid()
      requires n1 == null || n1 in Nodes || n1.l != this
      requires n2 == null || n2 in Nodes || n2.l != this
      requires n1 != null && n2 != null && n1 != n2 && n1 !in Nodes && n2 !in Nodes ==> n1.l != n2.l
      modifies Repr
      ensures Valid() && Repr == old(Repr)
      ensures r.Fail? <==>
        n1 == null || n2 == null || old(n1.next) == null || old(n2.next) == null || (n1 != n2 && old(n1.l) != old(n2.l))
      ensures r.Fail? || n1 == n2 ==> unchanged(old(Repr)) && Nodes == old(Nodes)
      ensures r.Pass? && n1 != n2 ==>
        var i, j := old(IndexOf(Nodes, n1)), old(IndexOf(Nodes, n2));
        && Nodes == old(Nodes)[i := n2][j := n1]
        && Values() == old(Values())[i := old(Values())[j]][j := old(Values())[i]]
    {
      if n1 == null || n2 == null || n1.next == null || n2.next == null {
        return Fail("null pointer error");
      }
      if n1 == n2 {
        return Pass;
      }
      if n1.l != n2.l {
        return Fail("swaping nodes with different linked list");
      }
      Exchange(n1, n2);
      return Pass;
    }

    /** The relinking part of `Swap`, once both nodes are known to be distinct members. */
    method Exchange(n1: Node<T>, n2: Node<T>)
      requires Valid() && n1 in Nodes && n2 in Nodes && n1 != n2
      modifies Repr
      ensures Valid() && Repr == old(Repr)
      ensures
        var i, j := old(IndexOf(Nodes, n1)), old(IndexOf(Nodes, n2));
        && Nodes == old(Nodes)[i := n2][j := n1]
        && Values() == old(Values())[i := old(Values())[j]][j := old(Values())[i]]
    {
      ghost var i: int := IndexOf(Nodes, n1);
      ghost var j: int := IndexOf(Nodes, n2);
      ghost var ns := Nodes;
      ghost var t: seq<Node<T>> := ns[i := n2][j := n1];
      RingLink(root, ns, i);
      RingLink(root, ns, i - 1);
      if n1.next == n2 || n1.prev == n2 {
        if n1.prev == n2 {
          IndexOfDistinct(ns, i - 1);
          SwapAdjacent(n2, n1, ns, j);
          ghost var t1: seq<Node<T>> := ns[j := n1];
          assert t1[j + 1 := n2] == t;
        } else {
          IndexOfDistinct(ns, i + 1);
          SwapAdjacent(n1, n2, ns, i);
        }
      } else {
        IndexOfDistinct(ns, j);
        SwapApart(n1, n2, ns, i, j);
      }
      assert Ring(root, t);
      NodeSetSwap(ns, i, j);
      DistinctSwap(ns, i, j);
      Reseat(t);
      ValuesOfUnchanged(ns);
      ValuesOfSwap(ns, i, j);
    }

    /** Records a new node order whose ring links are already in place. */
    ghost method Reseat(t: seq<Node<T>>)
      requires this in Repr && root in Repr && Repr == {this, root} + NodeSet(t)
      requires root !in t && size == |t| && root.l == null && Distinct(t)
      requires forall k :: 0 <= k < |t| ==> t[k].l == this
      requires Ring(root, t)
      modifies this`Nodes
      ensures Valid() && Nodes == t
    {
      Nodes := t;
    }

    /** `Head`: the first node, nil when empty. */
    function Head(): (n: Node?<T>)
      requires Valid()
      reads this, Repr
      ensures n == (if |Nodes| == 0 then null else Nodes[0])
    {
      if size == 0 then null
      else
        RingLink(root, Nodes, -1);
        root.next
    }

    /** `Tail`: the last node, nil when empty. */
    function Tail(): (n: Node?<T>)
      requires Valid()
      reads this, Repr
      ensures n == (if |Nodes| == 0 then null else Nodes[|Nodes| - 1])
    {
      if size == 0 then null
      else
        RingLink(root, Nodes, |Nodes| - 1);
        root.prev
    }

    /** `Size`: the number of nodes. */
    function Size(): (s: int)
      requires Valid()
      reads this, Repr
      ensures s == |Nodes|
    {
      size
    }

    /** `String`: walk from `Head` along `Next` and join the rendered values with commas. */
    method String(show: T -> string) returns (s: string)
      requires Valid()
      ensures s == Join(Shown(show, Values()), ",")
    {
      var values: seq<string> := [];
      var n := Head();
      ghost var k := 0;
      while n != null
        invariant 0 <= k <= |Nodes|
        invariant n == (if k < |Nodes| then Nodes[k] else null)
        invariant values == Shown(show, Values()[..k])
        decreases |Nodes| - k
      {
        assert Values()[..k + 1] == Values()[..k] + [n.value];
        ShownAppend(show, Values()[..k], n.value);
        values := values + [show(n.value)];
        IndexOfDistinct(Nodes, k);
        n := n.Next();
        k := k + 1;
      }
      assert Values()[..k] == Values();
      s := Join(values, ",");
    }
  }
}
