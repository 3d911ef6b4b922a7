/**
 * Labels and their emission order. Constant labels are sorted by key once,
 * when the middleware is built, so every observation carries its labels in
 * the same order whatever order the configuration map enumerates them in.
 */
module Labels {

  /** One metric label: its name and its value. */
  datatype Label = Label(key: string, value: string)

  /** Strict lexicographic order on strings, character by character. On Unicode scalar values this is the byte order of `str`, since UTF-8 encoding keeps code-point order. */
  predicate StrLess(a: string, b: string)
    decreases |a|
  {
    if a == [] then b != []
    else if b == [] then false
    else if a[0] != b[0] then a[0] < b[0]
    else StrLess(a[1..], b[1..])
  }

  lemma {:induction false} StrLessIrreflexive(a: string)
    ensures !StrLess(a, a)
    decreases |a|
  {
    if a != [] {
      StrLessIrreflexive(a[1..]);
    }
  }

  lemma {:induction false} StrLessTransitive(a: string, b: string, c: string)
    requires StrLess(a, b) && StrLess(b, c)
    ensures StrLess(a, c)
    decreases |a|
  {
    if a != [] && b != [] && c != [] && a[0] == b[0] == c[0] {
      StrLessTransitive(a[1..], b[1..], c[1..]);
    }
  }

  lemma {:induction false} StrLessTotal(a: string, b: string)
    ensures a == b || StrLess(a, b) || StrLess(b, a)
    decreases |a|
  {
    if a != [] && b != [] && a[0] == b[0] {
      StrLessTotal(a[1..], b[1..]);
      if a[1..] == b[1..] {
        assert a == [a[0]] + a[1..] && b == [b[0]] + b[1..];
      }
    }
  }

  lemma {:induction false} StrLessAsymmetric(a: string, b: string)
    requires StrLess(a, b)
    ensures !StrLess(b, a)
    decreases |a|
  {
    if a != [] && b != [] && a[0] == b[0] {
      StrLessAsymmetric(a[1..], b[1..]);
    }
  }

  /** Keys strictly ascending, hence also pairwise distinct. */
  predicate SortedByKey(ls: seq<Label>) {
    forall i, j :: 0 <= i < j < |ls| ==> StrLess(ls[i].key, ls[j].key)
  }

  predicate DistinctKeys(ls: seq<Label>) {
    forall i, j :: 0 <= i < j < |ls| ==> ls[i].key != ls[j].key
  }

  lemma SortedIsDistinct(ls: seq<Label>)
    requires SortedByKey(ls)
    ensures DistinctKeys(ls)
  {
    forall i, j | 0 <= i < j < |ls| ensures ls[i].key != ls[j].key {
      StrLessIrreflexive(ls[i].key);
    }
  }

  /** Every element of `ls` has a key strictly above `k`. */
  predicate AllAbove(k: string, ls: seq<Label>) {
    forall j :: 0 <= j < |ls| ==> StrLess(k, ls[j].key)
  }

  /** A key below every key of a sorted sequence can head it. */
  lemma ConsSorted(h: Label, ls: seq<Label>)
    requires SortedByKey(ls) && AllAbove(h.key, ls)
    ensures SortedByKey([h] + ls)
  {
  }

  /** A key below every element of `ls` and below `x` is below every element of a permutation of both. */
  lemma AboveByMembers(k: string, r: seq<Label>, ls: seq<Label>, x: Label)
    requires AllAbove(k, ls) && StrLess(k, x.key)
    requires multiset(r) == multiset(ls) + multiset{x}
    ensures AllAbove(k, r)
  {
    forall j | 0 <= j < |r| ensures StrLess(k, r[j].key) {
      assert r[j] in multiset(r);
      if r[j] != x {
        assert r[j] in multiset(ls);
        var i :| 0 <= i < |ls| && ls[i] == r[j];
      }
    }
  }

  /** Inserts `x` into a key-sorted sequence that does not hold its key. */
  function Insert(ls: seq<Label>, x: Label): (r: seq<Label>)
    requires SortedByKey(ls)
    requires forall i :: 0 <= i < |ls| ==> ls[i].key != x.key
    ensures SortedByKey(r)
    ensures multiset(r) == multiset(ls) + multiset{x}
    decreases |ls|
  {
    if ls == [] then [x]
    else if StrLess(x.key, ls[0].key) then
      assert AllAbove(x.key, ls) by {
        forall j | 0 <= j < |ls| ensures StrLess(x.key, ls[j].key) {
          if j > 0 {
            StrLessTransitive(x.key, ls[0].key, ls[j].key);
          }
        }
      }
      ConsSorted(x, ls);
      [x] + ls
    else
      StrLessTotal(ls[0].key, x.key);
      var rest := Insert(ls[1..], x);
      AboveByMembers(ls[0].key, rest, ls[1..], x);
      ConsSorted(ls[0], rest);
      assert ls == [ls[0]] + ls[1..];
      [ls[0]] + rest
  }

  /** The constant labels in ascending key order (a stable sort; keys are distinct here). */
  function SortByKey(ls: seq<Label>): (r: seq<Label>)
    requires DistinctKeys(ls)
    ensures SortedByKey(r)
    ensures multiset(r) == multiset(ls)
    decreases |ls|
  {
    if ls == [] then []
    else
      var init := ls[..|ls| - 1];
      var last := ls[|ls| - 1];
      var sorted := SortByKey(init);
      assert forall i :: 0 <= i < |sorted| ==> sorted[i].key != last.key by {
        forall i | 0 <= i < |sorted| ensures sorted[i].key != last.key {
          assert sorted[i] in multiset(init);
          var k :| 0 <= k < |init| && init[k] == sorted[i];
        }
      }
      assert ls == init + [last];
      Insert(sorted, last)
  }

  lemma MultisetTail(a: seq<Label>)
    requires a != []
    ensures multiset(a[1..]) == multiset(a) - multiset{a[0]}
  {
    assert a == [a[0]] + a[1..];
  }

  /** Two nonempty key-sorted sequences with the same elements start with the same label. */
  lemma SortedHeadsAgree(a: seq<Label>, b: seq<Label>)
    requires SortedByKey(a) && SortedByKey(b)
    requires multiset(a) == multiset(b) && a != []
    ensures b != [] && a[0] == b[0]
  {
    assert a[0] in multiset(b);
    var k :| 0 <= k < |b| && b[k] == a[0];
    assert b[0] in multiset(a);
    var m :| 0 <= m < |a| && a[m] == b[0];
    if k > 0 {
      if m > 0 {
        StrLessAsymmetric(a[0].key, a[m].key);
      } else {
        StrLessIrreflexive(b[0].key);
      }
    }
  }

  /**
   * Two key-sorted sequences with the same elements are equal: the sorted
   * order does not depend on the order the labels were enumerated in.
   */
  lemma {:induction false} SortedUnique(a: seq<Label>, b: seq<Label>)
    requires SortedByKey(a) && SortedByKey(b)
    requires multiset(a) == multiset(b)
    ensures a == b
    decreases |a|
  {
    if a == [] {
      assert |b| == |multiset(b)| == 0;
    } else {
      SortedHeadsAgree(a, b);
      MultisetTail(a);
      MultisetTail(b);
      SortedUnique(a[1..], b[1..]);
      assert a == [a[0]] + a[1..] && b == [b[0]] + b[1..];
    }
  }

  /** Every key of `cm` listed exactly once, each with its value. */
  predicate Enumerates(ls: seq<Label>, cm: map<string, string>) {
    && DistinctKeys(ls)
    && (forall i :: 0 <= i < |ls| ==> ls[i].key in cm && cm[ls[i].key] == ls[i].value)
    && (forall k :: k in cm ==> exists i :: 0 <= i < |ls| && ls[i].key == k)
  }

  /** The keys a sequence of labels carries. */
  function KeySet(ls: seq<Label>): set<string> {
    set i | 0 <= i < |ls| :: ls[i].key
  }

  lemma {:induction false} KeySetSize(ls: seq<Label>)
    requires DistinctKeys(ls)
    ensures |KeySet(ls)| == |ls|
    decreases |ls|
  {
    if ls != [] {
      var init := ls[..|ls| - 1];
      var last := ls[|ls| - 1];
      assert DistinctKeys(init);
      KeySetSize(init);
      assert KeySet(ls) == KeySet(init) + {last.key} by {
        forall k | k in KeySet(ls) ensures k in KeySet(init) + {last.key} {
          var i :| 0 <= i < |ls| && ls[i].key == k;
          if i < |ls| - 1 {
            assert init[i] == ls[i];
          }
        }
        forall k | k in KeySet(init) ensures k in KeySet(ls) {
          var i :| 0 <= i < |init| && init[i].key == k;
          assert ls[i] == init[i];
        }
      }
      assert last.key !in KeySet(init);
    }
  }

  /** An enumeration of a map has exactly as many labels as the map has entries. */
  lemma EnumeratesSize(ls: seq<Label>, cm: map<string, string>)
    requires Enumerates(ls, cm)
    ensures |ls| == |cm|
  {
    KeySetSize(ls);
    assert KeySet(ls) == cm.Keys by {
      forall k | k in cm ensures k in KeySet(ls) {
        var i :| 0 <= i < |ls| && ls[i].key == k;
      }
    }
  }

  /** In a sequence with distinct keys every label occurs at most once. */
  lemma {:induction false} DistinctCount(a: seq<Label>, x: Label)
    requires DistinctKeys(a)
    ensures multiset(a)[x] == if x in a then 1 else 0
    decreases |a|
  {
    if a != [] {
      assert a == [a[0]] + a[1..];
      assert DistinctKeys(a[1..]) by {
        forall i, j | 0 <= i < j < |a[1..]| ensures a[1..][i].key != a[1..][j].key {
          assert a[1..][i] == a[i + 1] && a[1..][j] == a[j + 1];
        }
      }
      DistinctCount(a[1..], x);
    }
  }

  /** Two enumerations of the same map list the same labels, with the same multiplicities. */
  lemma EnumerationsSameMultiset(a: seq<Label>, b: seq<Label>, cm: map<string, string>)
    requires Enumerates(a, cm) && Enumerates(b, cm)
    ensures multiset(a) == multiset(b)
  {
    forall x ensures multiset(a)[x] == multiset(b)[x] {
      DistinctCount(a, x);
      DistinctCount(b, x);
      if x in a {
        var i :| 0 <= i < |a| && a[i] == x;
        var j :| 0 <= j < |b| && b[j].key == x.key;
      }
      if x in b {
        var j :| 0 <= j < |b| && b[j] == x;
        var i :| 0 <= i < |a| && a[i].key == x.key;
      }
    }
  }

  /** A permutation of an enumeration of `cm` enumerates `cm` too. */
  lemma EnumeratesPermutation(a: seq<Label>, b: seq<Label>, cm: map<string, string>)
    requires Enumerates(a, cm) && multiset(a) == multiset(b) && SortedByKey(b)
    ensures Enumerates(b, cm)
  {
    SortedIsDistinct(b);
    forall i | 0 <= i < |b| ensures b[i].key in cm && cm[b[i].key] == b[i].value {
      assert b[i] in multiset(a);
    }
    forall k | k in cm ensures exists i :: 0 <= i < |b| && b[i].key == k {
      var j :| 0 <= j < |a| && a[j].key == k;
      assert a[j] in multiset(b);
      var i :| 0 <= i < |b| && b[i] == a[j];
    }
  }

  /**
   * The constant labels are canonical: any two key-sorted enumerations of
   * the same map are equal, whatever order the map was iterated in.
   */
  lemma ConstLabelsCanonical(a: seq<Label>, b: seq<Label>, cm: map<string, string>)
    requires Enumerates(a, cm) && Enumerates(b, cm)
    requires SortedByKey(a) && SortedByKey(b)
    ensures a == b
  {
    EnumerationsSameMultiset(a, b, cm);
    SortedUnique(a, b);
  }

  // ---------------------------------------------------------------------------
  // The in-place sort of the constant-label vector
  // ---------------------------------------------------------------------------

  /** Keys strictly ascending on positions `lo` to `hi` (exclusive). */
  predicate SortedRange(s: seq<Label>, lo: int, hi: int)
    requires 0 <= lo <= hi <= |s|
  {
    forall p, q :: lo <= p < q < hi ==> StrLess(s[p].key, s[q].key)
  }

  lemma SortedPrefix(s: seq<Label>, n: nat)
    requires n <= |s|
    ensures SortedByKey(s[..n]) <==> SortedRange(s, 0, n)
  {
  }

  /**
   * The state of inserting `s[j]` (originally `s[i]`) into the sorted
   * prefix: the labels left of `j` and right of `j` (up to `i`) are each
   * sorted, every left label is below every right one, and `s[j]` is below
   * every right one.
   */
  predicate Inserting(s: seq<Label>, j: nat, i: nat) {
    && j <= i < |s|
    && SortedRange(s, 0, j)
    && SortedRange(s, j + 1, i + 1)
    && (forall p, q :: 0 <= p < j < q <= i ==> StrLess(s[p].key, s[q].key))
    && (forall q :: j < q <= i ==> StrLess(s[j].key, s[q].key))
  }

  /** A sorted prefix of `i` labels is the start of inserting `s[i]`. */
  lemma InsertingStart(s: seq<Label>, i: nat)
    requires i < |s| && SortedRange(s, 0, i)
    ensures Inserting(s, i, i)
  {
  }

  /** Swapping `s[j]` below its left neighbour moves the insertion point one step left. */
  lemma InsertingSwap(s: seq<Label>, j: nat, i: nat)
    requires Inserting(s, j, i) && 0 < j && StrLess(s[j].key, s[j - 1].key)
    ensures Inserting(s[j - 1 := s[j]][j := s[j - 1]], j - 1, i)
  {
  }

  /** Once `s[j]` is not below its left neighbour, the first `i + 1` labels are sorted. */
  lemma InsertingDone(s: seq<Label>, j: nat, i: nat)
    requires Inserting(s, j, i) && DistinctKeys(s)
    requires j == 0 || !StrLess(s[j].key, s[j - 1].key)
    ensures SortedRange(s, 0, i + 1)
  {
    if 0 < j {
      StrLessTotal(s[j - 1].key, s[j].key);
    }
    forall p, q | 0 <= p < q <= i ensures StrLess(s[p].key, s[q].key) {
      if p < j && q == j && p < j - 1 {
        StrLessTransitive(s[p].key, s[j - 1].key, s[j].key);
      }
    }
  }

  /** Swapping two positions keeps the labels and their keys' distinctness. */
  lemma SwapKeeps(s: seq<Label>, j: nat)
    requires 0 < j < |s|
    ensures multiset(s[j - 1 := s[j]][j := s[j - 1]]) == multiset(s)
    ensures DistinctKeys(s) ==> DistinctKeys(s[j - 1 := s[j]][j := s[j - 1]])
  {
  }

  /** A fully sorted rearrangement of `original` is `SortByKey(original)`. */
  lemma SortedIsSortByKey(s: seq<Label>, original: seq<Label>)
    requires DistinctKeys(original) && SortedRange(s, 0, |s|) && multiset(s) == multiset(original)
    ensures s == SortByKey(original)
  {
    SortedPrefix(s, |s|);
    assert s[..|s|] == s;
    SortedUnique(s, SortByKey(original));
  }

  /** Sorts the labels of `a` by key in place, by insertion. */
  method SortInPlace(a: array<Label>)
    requires DistinctKeys(a[..])
    modifies a
    ensures a[..] == SortByKey(old(a[..]))
  {
    ghost var original := a[..];
    var i := 0;
    while i < a.Length
      invariant 0 <= i <= a.Length
      invariant SortedRange(a[..], 0, i)
      invariant multiset(a[..]) == multiset(original)
      invariant DistinctKeys(a[..])
    {
      var j := i;
      InsertingStart(a[..], i);
      while 0 < j && StrLess(a[j].key, a[j - 1].key)
        invariant Inserting(a[..], j, i)
        invariant multiset(a[..]) == multiset(original)
        invariant DistinctKeys(a[..])
      {
        ghost var s := a[..];
        InsertingSwap(s, j, i);
        SwapKeeps(s, j);
        a[j - 1], a[j] := a[j], a[j - 1];
        assert a[..] == s[j - 1 := s[j]][j := s[j - 1]];
        j := j - 1;
      }
      InsertingDone(a[..], j, i);
      i := i + 1;
    }
    SortedIsSortByKey(a[..], original);
  }
}
