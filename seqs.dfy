/** Facts about positions in sequences, shared by the list and the playlists. */
module Seqs {
  /** Position of the first occurrence of `x` in `s`. */
  ghost function IndexOf<X>(s: seq<X>, x: X): (i: nat)
    requires x in s
    ensures i < |s| && s[i] == x && x !in s[..i]
  {
    if s[0] == x then 0
    else
      var i := 1 + IndexOf(s[1..], x);
      assert s[..i] == [s[0]] + s[1..][..i - 1];
      i
  }

  ghost predicate Distinct<X>(s: seq<X>) {
    forall i, j :: 0 <= i < j < |s| ==> s[i] != s[j]
  }

  /** The tail of a sequence without repetitions has none, and lacks the head. */
  lemma DistinctTail<X>(s: seq<X>)
    requires |s| > 0 && Distinct(s)
    ensures Distinct(s[1..]) && s[0] !in s[1..]
  {
    var t := s[1..];
    forall a, b | 0 <= a < b < |t| ensures t[a] != t[b] {
      assert t[a] == s[a + 1] && t[b] == s[b + 1];
    }
    forall k | 0 <= k < |t| ensures t[k] != s[0] {
      assert t[k] == s[k + 1];
    }
  }

  /** In a sequence without repetitions, an element's position is its only one. */
  lemma IndexOfDistinct<X>(s: seq<X>, k: nat)
    requires k < |s| && Distinct(s)
    ensures IndexOf(s, s[k]) == k
  {
  }

  /** The first occurrence of `x` is the position a left-to-right search stops at. */
  lemma IndexOfFirst<X>(s: seq<X>, x: X, k: nat)
    requires k < |s| && s[k] == x && x !in s[..k]
    ensures IndexOf(s, x) == k
  {
  }

  /** Where the elements of `s` end up once `x` is inserted at position `p`. */
  lemma InsertIndices<X>(s: seq<X>, p: nat, x: X)
    requires p <= |s|
    ensures var t := s[..p] + [x] + s[p..];
      && |t| == |s| + 1 && t[p] == x
      && (forall k {:trigger t[k]} :: 0 <= k < p ==> t[k] == s[k])
      && (forall k {:trigger t[k]} :: p < k < |t| ==> t[k] == s[k - 1])
  {
  }

  /** Where the elements of `s` end up once position `i` is cut out. */
  lemma RemoveIndices<X>(s: seq<X>, i: nat)
    requires i < |s|
    ensures var t := s[..i] + s[i + 1..];
      && |t| == |s| - 1
      && (forall k {:trigger t[k]} :: 0 <= k < i ==> t[k] == s[k])
      && (forall k {:trigger t[k]} :: i <= k < |t| ==> t[k] == s[k + 1])
  {
  }

  lemma DistinctInsert<X>(s: seq<X>, p: nat, x: X)
    requires p <= |s| && x !in s && Distinct(s)
    ensures Distinct(s[..p] + [x] + s[p..])
  {
    var t := s[..p] + [x] + s[p..];
    InsertIndices(s, p, x);
    forall i, j | 0 <= i < j < |t| ensures t[i] != t[j] {
      assert t[i] == if i < p then s[i] else if i == p then x else s[i - 1];
      assert t[j] == if j < p then s[j] else if j == p then x else s[j - 1];
    }
  }

  lemma DistinctRemove<X>(s: seq<X>, i: nat)
    requires i < |s| && Distinct(s)
    ensures Distinct(s[..i] + s[i + 1..])
    ensures s[i] !in s[..i] + s[i + 1..]
  {
    var t := s[..i] + s[i + 1..];
    RemoveIndices(s, i);
    forall a, b | 0 <= a < b < |t| ensures t[a] != t[b] {
      assert t[a] == if a < i then s[a] else s[a + 1];
      assert t[b] == if b < i then s[b] else s[b + 1];
    }
    forall k | 0 <= k < |t| ensures t[k] != s[i] {
      assert t[k] == if k < i then s[k] else s[k + 1];
    }
  }

  /** Cutting out position `i` of a sequence without repetitions removes exactly `s[i]`. */
  lemma RemoveMembers<X>(s: seq<X>, i: nat)
    requires i < |s| && Distinct(s)
    ensures forall x :: x in s[..i] + s[i + 1..] <==> x in s && x != s[i]
  {
    var t := s[..i] + s[i + 1..];
    RemoveIndices(s, i);
    forall x | x in s && x != s[i] ensures x in t {
      var k :| 0 <= k < |s| && s[k] == x;
      assert t[if k < i then k else k - 1] == x;
    }
    DistinctRemove(s, i);
  }

  lemma DistinctSwap<X>(s: seq<X>, i: nat, j: nat)
    requires i < |s| && j < |s| && Distinct(s)
    ensures Distinct(s[i := s[j]][j := s[i]])
  {
  }

  /** A sequence has no repetitions exactly when no element occurs twice in its multiset. */
  lemma {:induction false} DistinctCounts<X>(s: seq<X>)
    ensures Distinct(s) <==> forall x :: multiset(s)[x] <= 1
  {
    if |s| > 0 {
      var t := s[1..];
      DistinctCounts(t);
      assert s == [s[0]] + t;
      assert multiset(s) == multiset{s[0]} + multiset(t);
      if Distinct(s) {
        forall k | 0 <= k < |t| ensures t[k] != s[0] {
          assert t[k] == s[k + 1];
        }
        assert s[0] !in multiset(t);
        forall a, b | 0 <= a < b < |t| ensures t[a] != t[b] {
          assert t[a] == s[a + 1] && t[b] == s[b + 1];
        }
      }
      if forall x :: multiset(s)[x] <= 1 {
        assert multiset(s)[s[0]] <= 1;
        assert s[0] !in t;
        assert forall x :: multiset(t)[x] <= multiset(s)[x];
        forall a, b | 0 <= a < b < |s| ensures s[a] != s[b] {
          if a == 0 {
            assert s[b] == t[b - 1];
          } else {
            assert s[a] == t[a - 1] && s[b] == t[b - 1];
          }
        }
      }
    }
  }

  /** Rearranging a sequence without repetitions leaves it without repetitions. */
  lemma DistinctPermutation<X>(a: seq<X>, b: seq<X>)
    requires multiset(a) == multiset(b) && Distinct(a)
    ensures Distinct(b)
  {
    DistinctCounts(a);
    DistinctCounts(b);
  }
}
