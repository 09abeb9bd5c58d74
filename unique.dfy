/**
 * De-duplication of the joint-1 candidates. The solver calls numpy's
 * unique(values, return_index=True), which yields the distinct values in
 * increasing order together with the index of each one's first occurrence,
 * and then indexes the sorted array with those indices. UniqueReindexed
 * models that as written; Dedup keeps the distinct values in the order of
 * their first occurrence.
 */
module Unique {
  import opened Wrappers

  ghost predicate StrictlyIncreasing(u: seq<real>)
  {
    forall i, j :: 0 <= i < j < |u| ==> u[i] < u[j]
  }

  ghost predicate Distinct(u: seq<real>)
  {
    forall i, j :: 0 <= i < j < |u| ==> u[i] != u[j]
  }

  /** Same values, regardless of order and repetition. */
  ghost predicate SameValues(a: seq<real>, b: seq<real>)
  {
    forall v :: v in a <==> v in b
  }

  /** Inserts x into an increasing sequence unless it is already there. */
  function Insert(u: seq<real>, x: real): (r: seq<real>)
    ensures x in r
  {
    if |u| == 0 then [x]
    else if x < u[0] then [x] + u
    else if x == u[0] then u
    else [u[0]] + Insert(u[1..], x)
  }

  /** Insertion adds exactly x. */
  lemma {:induction false} InsertMembers(u: seq<real>, x: real)
    ensures forall v :: v in Insert(u, x) <==> v in u || v == x
  {
    if |u| > 0 && x > u[0] {
      InsertMembers(u[1..], x);
      assert u == [u[0]] + u[1..];
    }
  }

  /** Insertion grows the sequence by one exactly when x is new. */
  lemma {:induction false} InsertLength(u: seq<real>, x: real)
    requires StrictlyIncreasing(u)
    ensures |Insert(u, x)| == if x in u then |u| else |u| + 1
  {
    if |u| > 0 {
      assert u == [u[0]] + u[1..];
      if x > u[0] {
        InsertLength(u[1..], x);
        assert x in u <==> x in u[1..];
      } else if x < u[0] {
        forall i | 0 <= i < |u| ensures u[i] != x {
          if i > 0 {
            assert u[0] < u[i];
          }
        }
      }
    }
  }

  /** Insertion keeps the sequence strictly increasing. */
  lemma {:induction false} InsertSorted(u: seq<real>, x: real)
    requires StrictlyIncreasing(u)
    ensures StrictlyIncreasing(Insert(u, x))
  {
    if |u| > 0 && x > u[0] {
      var tail := u[1..];
      InsertSorted(tail, x);
      InsertAbove(tail, x, u[0]);
      ConsSorted(u[0], Insert(tail, x));
    } else if |u| > 0 && x < u[0] {
      ConsSorted(x, u);
    }
  }

  /** A value below every entry of a strictly increasing sequence can lead it. */
  lemma ConsSorted(a: real, t: seq<real>)
    requires StrictlyIncreasing(t)
    requires forall i :: 0 <= i < |t| ==> a < t[i]
    ensures StrictlyIncreasing([a] + t)
  {
    var r := [a] + t;
    forall i, j | 0 <= i < j < |r| ensures r[i] < r[j] {
      if i == 0 {
        assert r[j] == t[j - 1];
      } else {
        assert r[i] == t[i - 1] && r[j] == t[j - 1];
      }
    }
  }

  /** Inserting a value above a bound keeps every entry above it. */
  lemma InsertAbove(u: seq<real>, x: real, lo: real)
    requires forall i :: 0 <= i < |u| ==> lo < u[i]
    requires lo < x
    ensures forall i :: 0 <= i < |Insert(u, x)| ==> lo < Insert(u, x)[i]
  {
    InsertMembers(u, x);
    var t := Insert(u, x);
    forall i | 0 <= i < |t| ensures lo < t[i] {
      assert t[i] in t;
      if t[i] != x {
        var k :| 0 <= k < |u| && u[k] == t[i];
      }
    }
  }


  /** numpy's unique: the distinct values of s in increasing order. */
  function SortedUnique(s: seq<real>): (u: seq<real>)
    ensures StrictlyIncreasing(u)
    ensures SameValues(u, s)
    ensures |u| <= |s|
  {
    if |s| == 0 then []
    else
      var p := SortedUnique(s[..|s| - 1]);
      InsertSorted(p, s[|s| - 1]);
      InsertMembers(p, s[|s| - 1]);
      InsertLength(p, s[|s| - 1]);
      assert s == s[..|s| - 1] + [s[|s| - 1]];
      Insert(p, s[|s| - 1])
  }

  /** The index of the first occurrence of v in s. */
  function FirstIndex(s: seq<real>, v: real): (i: nat)
    requires v in s
    ensures i < |s| && s[i] == v
    ensures forall j :: 0 <= j < i ==> s[j] != v
  {
    if s[0] == v then 0 else 1 + FirstIndex(s[1..], v)
  }

  /**
   * unique(s, return_index=True) followed by u[idx], as the solver writes it:
   * entry j is the sorted array at the first-occurrence index of its j-th
   * value. None where numpy would raise IndexError (an index past the end of
   * the shorter sorted array).
   */
  function UniqueReindexed(s: seq<real>): (r: Option<seq<real>>)
    ensures r.Some? ==> |r.value| == |SortedUnique(s)|
    ensures r.Some? ==> forall j :: 0 <= j < |r.value| ==> r.value[j] in SortedUnique(s)
  {
    var u := SortedUnique(s);
    if forall j :: 0 <= j < |u| ==> FirstIndex(s, u[j]) < |u| then
      Some(seq(|u|, j requires 0 <= j < |u| => u[FirstIndex(s, u[j])]))
    else
      None
  }

  /**
   * When it is defined, the reindexed array lists distinct values of s, as
   * many as numpy's unique finds.
   */
  lemma UniqueReindexedDistinct(s: seq<real>)
    requires UniqueReindexed(s).Some?
    ensures var r := UniqueReindexed(s).value;
      && Distinct(r)
      && (forall v :: v in r ==> v in s)
      && |r| == |SortedUnique(s)| <= |s|
  {
    var u := SortedUnique(s);
    var r := UniqueReindexed(s).value;
    forall i, j | 0 <= i < j < |r| ensures r[i] != r[j] {
      assert u[i] < u[j];
      assert FirstIndex(s, u[i]) != FirstIndex(s, u[j]);
    }
  }

  /** The distinct values of s in the order of their first occurrence. */
  function Dedup(s: seq<real>): (d: seq<real>)
    ensures Distinct(d)
    ensures SameValues(d, s)
    ensures |d| <= |s|
  {
    if |s| == 0 then []
    else
      var d := Dedup(s[..|s| - 1]);
      if s[|s| - 1] in d then d else d + [s[|s| - 1]]
  }

  /** Dedup keeps the order in which values first occur in s. */
  lemma {:induction false} DedupFirstOccurrenceOrder(s: seq<real>)
    ensures forall i, j :: 0 <= i < j < |Dedup(s)| ==>
      FirstIndex(s, Dedup(s)[i]) < FirstIndex(s, Dedup(s)[j])
  {
    if |s| > 0 {
      var p := s[..|s| - 1];
      DedupFirstOccurrenceOrder(p);
      var d := Dedup(s);
      var dp := Dedup(p);
      forall i, j | 0 <= i < j < |d| ensures FirstIndex(s, d[i]) < FirstIndex(s, d[j]) {
        assert d[i] == dp[i] && dp[i] in p;
        FirstIndexPrefix(s, d[i]);
        if j < |dp| {
          assert d[j] == dp[j] && dp[j] in p;
          FirstIndexPrefix(s, d[j]);
          assert FirstIndex(p, dp[i]) < FirstIndex(p, dp[j]);
        } else {
          assert d == dp + [s[|s| - 1]];
          assert d[j] == s[|s| - 1] && d[j] !in p;
          assert forall k :: 0 <= k < |s| - 1 ==> s[k] == p[k];
          assert FirstIndex(s, d[j]) == |s| - 1;
        }
      }
    }
  }

  /** A value that occurs in a prefix first occurs at the same index in s. */
  lemma FirstIndexPrefix(s: seq<real>, v: real)
    requires |s| > 0 && v in s[..|s| - 1]
    ensures FirstIndex(s, v) == FirstIndex(s[..|s| - 1], v)
  {
    var p := s[..|s| - 1];
    var i := FirstIndex(p, v);
    assert s[i] == v;
    assert FirstIndex(s, v) <= i;
    assert p[FirstIndex(s, v)] == v;
  }

  /** The sorted unique values of a sequence of three. */
  lemma SortedUniqueOfThree(a: real, b: real, c: real)
    ensures SortedUnique([a, b, c]) == Insert(Insert([a], b), c)
  {
    var s := [a, b, c];
    assert s[..2] == [a, b];
    assert [a, b][..1] == [a];
    assert [a][..0] == [];
    assert SortedUnique([a]) == Insert([], a) == [a];
    assert SortedUnique([a, b]) == Insert([a], b);
  }

  /**
   * On a value followed by twice another, as the joint-1 candidates are,
   * the reindexing keeps the input order and agrees with Dedup.
   */
  lemma ReindexedOfValueAndRepeat(x: real, y: real)
    requires x != y
    ensures UniqueReindexed([x, y, y]) == Some([x, y])
    ensures Dedup([x, y, y]) == [x, y]
  {
    var s := [x, y, y];
    SortedUniqueOfThree(x, y, y);
    var u := SortedUnique(s);
    assert FirstIndex(s, x) == 0;
    assert FirstIndex(s, y) == 1;
    if x < y {
      assert Insert([], y) == [y];
      assert Insert([x], y) == [x, y];
      assert Insert([y], y) == [y];
      assert Insert([x, y], y) == [x] + Insert([y], y) == [x, y];
      assert u == [x, y];
    } else {
      assert Insert([x], y) == [y, x];
      assert Insert([y, x], y) == [y, x];
      assert u == [y, x];
    }
    var r := UniqueReindexed(s).value;
    assert r == [x, y];
    DedupOfThree(x, y, y);
  }

  /** Dedup unfolded on a sequence of three. */
  lemma DedupOfThree(a: real, b: real, c: real)
    ensures var d2 := if b == a then [a] else [a, b];
      Dedup([a, b, c]) == if c in d2 then d2 else d2 + [c]
  {
    var s := [a, b, c];
    assert s[..2] == [a, b];
    assert [a, b][..1] == [a];
    assert [a][..0] == [];
    assert Dedup([a]) == [a];
  }

  /** Three distinct values are already de-duplicated. */
  lemma DedupOfDistinctThree(a: real, b: real, c: real)
    requires a != b && a != c && b != c
    ensures Dedup([a, b, c]) == [a, b, c]
  {
    DedupOfThree(a, b, c);
    assert c !in [a, b];
  }

  /**
   * On three values the reindexing is undefined (numpy raises IndexError)
   * exactly when the first two are equal and the third differs.
   */
  lemma ReindexedDefinedOnThree(a: real, b: real, c: real)
    ensures UniqueReindexed([a, b, c]).None? <==> a == b != c
  {
    var s := [a, b, c];
    SortedUniqueOfThree(a, b, c);
    var u := SortedUnique(s);
    assert FirstIndex(s, a) == 0;
    if a == b && b == c {
      assert Insert([a], a) == [a];
      assert u == [a];
    } else if a == b {
      assert Insert([a], a) == [a];
      assert |u| == 2;
      assert FirstIndex(s, c) == 2;
      assert c in u;
    } else {
      assert FirstIndex(s, b) == 1;
      if c == a || c == b {
        assert |Insert([a], b)| == 2;
        assert |u| == 2;
      } else {
        assert FirstIndex(s, c) == 2;
        assert |u| == 3;
      }
    }
  }

  /** numpy's unique sorts [0, R, -R] into [-R, 0, R]. */
  lemma SortedUniqueOfMixedSigns(r: real)
    requires r > 0.0
    ensures SortedUnique([0.0, r, -r]) == [-r, 0.0, r]
  {
    SortedUniqueOfThree(0.0, r, -r);
    assert Insert([], r) == [r];
    assert Insert([0.0], r) == [0.0, r];
    assert Insert([0.0, r], -r) == [-r, 0.0, r];
  }

  /**
   * With three distinct values the reindexed array is in neither input nor
   * sorted order: [0, R, -R] becomes [R, -R, 0], where Dedup keeps
   * [0, R, -R] (DedupOfDistinctThree).
   */
  lemma ReindexedReordersThree(r: real)
    requires r > 0.0
    ensures UniqueReindexed([0.0, r, -r]) == Some([r, -r, 0.0])
  {
    var s := [0.0, r, -r];
    var u := [-r, 0.0, r];
    SortedUniqueOfMixedSigns(r);
    assert FirstIndex(s, -r) == 2 && FirstIndex(s, 0.0) == 0 && FirstIndex(s, r) == 1;
    var q := seq(3, j requires 0 <= j < 3 => u[FirstIndex(s, u[j])]);
    assert q == [r, -r, 0.0];
  }
}
