/**
 * The three selection idioms the source repeats in several files:
 *
 *  - a scan over a dictionary's entries that keeps a running best and replaces it
 *    only when an entry's score is STRICTLY greater,
 *    so that ties go to the earliest entry and a default survives when no entry
 *    beats the initial score;
 *  - a dictionary of counts built by counting up one key at a time, whose
 *    keys are enumerated in insertion order, i.e. in order of first occurrence;
 *  - the array sort with a numeric comparator, which is stable.
 */
module Ranking {

  // ---------------------------------------------------------------------------
  // First strict maximum

  /** The result of scanning `entries` left to right starting from `best`. */
  function FirstMax<K>(entries: seq<(K, real)>, best: (K, real)): (K, real)
    decreases |entries|
  {
    if |entries| == 0 then best
    else FirstMax(entries[1..], if entries[0].1 > best.1 then entries[0] else best)
  }

  /** What the scan computes: a score no entry exceeds; the initial pair when no
      entry beats it; otherwise the earliest entry reaching the maximum. */
  lemma {:induction false} FirstMaxSpec<K>(entries: seq<(K, real)>, best: (K, real))
    ensures FirstMax(entries, best).1 >= best.1
    ensures forall j :: 0 <= j < |entries| ==> entries[j].1 <= FirstMax(entries, best).1
    ensures (forall j :: 0 <= j < |entries| ==> entries[j].1 <= best.1) ==> FirstMax(entries, best) == best
    ensures (exists j :: 0 <= j < |entries| && entries[j].1 > best.1) ==>
              FirstMax(entries, best).1 > best.1 &&
              exists k :: 0 <= k < |entries| && FirstMax(entries, best) == entries[k] &&
                          forall j :: 0 <= j < k ==> entries[j].1 < entries[k].1
    decreases |entries|
  {
    if |entries| > 0 {
      var rest := entries[1..];
      var next := if entries[0].1 > best.1 then entries[0] else best;
      FirstMaxSpec(rest, next);
      var r := FirstMax(entries, best);
      assert r == FirstMax(rest, next);
      forall j | 0 <= j < |entries| ensures entries[j].1 <= r.1 {
        if j > 0 { assert entries[j] == rest[j - 1]; }
      }
      if exists j :: 0 <= j < |entries| && entries[j].1 > best.1 {
        if exists j :: 0 <= j < |rest| && rest[j].1 > next.1 {
          var k' :| 0 <= k' < |rest| && r == rest[k'] && forall j :: 0 <= j < k' ==> rest[j].1 < rest[k'].1;
          forall j | 0 <= j < k' + 1 ensures entries[j].1 < entries[k' + 1].1 {
            if j > 0 { assert entries[j] == rest[j - 1]; }
          }
          assert r == entries[k' + 1];
        } else {
          assert r == next;
          assert r == entries[0];
        }
      }
    }
  }

  /** Scanning a non-empty list from its own first entry stops at the earliest
      entry with the highest score. */
  lemma FirstMaxOfAll<K>(entries: seq<(K, real)>) returns (k: nat)
    requires |entries| > 0
    ensures k < |entries| && FirstMax(entries[1..], entries[0]) == entries[k]
    ensures forall j :: 0 <= j < |entries| ==> entries[j].1 <= entries[k].1
    ensures forall j :: 0 <= j < k ==> entries[j].1 < entries[k].1
  {
    var rest := entries[1..];
    FirstMaxSpec(rest, entries[0]);
    assert forall j :: 0 < j < |entries| ==> entries[j] == rest[j - 1];
    if exists j :: 0 <= j < |rest| && rest[j].1 > entries[0].1 {
      var k' :| 0 <= k' < |rest| && FirstMax(rest, entries[0]) == rest[k'] &&
                forall j :: 0 <= j < k' ==> rest[j].1 < rest[k'].1;
      k := k' + 1;
    } else {
      k := 0;
    }
  }

  /** The `forEach` loop that computes a first strict maximum. */
  method PickFirstMax<K>(entries: seq<(K, real)>, init: (K, real)) returns (best: (K, real))
    ensures best == FirstMax(entries, init)
  {
    best := init;
    for i := 0 to |entries|
      invariant FirstMax(entries[i..], best) == FirstMax(entries, init)
    {
      assert entries[i..][1..] == entries[i + 1..];
      if entries[i].1 > best.1 {
        best := entries[i];
      }
    }
    assert entries[|entries|..] == [];
  }

  // ---------------------------------------------------------------------------
  // Occurrence counts in insertion order

  /** Number of occurrences of `k` in `xs`. */
  function Count<K(==)>(xs: seq<K>, k: K): nat
  {
    if |xs| == 0 then 0
    else Count(xs[..|xs| - 1], k) + (if xs[|xs| - 1] == k then 1 else 0)
  }

  lemma {:induction false} CountPositive<K>(xs: seq<K>, k: K)
    ensures Count(xs, k) > 0 <==> k in xs
  {
    if |xs| > 0 {
      CountPositive(xs[..|xs| - 1], k);
      assert xs == xs[..|xs| - 1] + [xs[|xs| - 1]];
    }
  }

  /** Position of the first occurrence of `k` in `xs`. */
  function FirstIndex<K(==)>(xs: seq<K>, k: K): (r: nat)
    requires k in xs
    ensures r < |xs| && xs[r] == k
    ensures forall j :: 0 <= j < r ==> xs[j] != k
  {
    if xs[0] == k then 0 else 1 + FirstIndex(xs[1..], k)
  }

  /** Counting `k` once more in a dictionary kept as its entry list: its entry
      goes up by one, or a new entry with count 1 is appended. */
  function Bump<K(==)>(t: seq<(K, nat)>, k: K): seq<(K, nat)>
  {
    if |t| == 0 then [(k, 1)]
    else if t[0].0 == k then [(k, t[0].1 + 1)] + t[1..]
    else [t[0]] + Bump(t[1..], k)
  }

  /** The entries of the counts dictionary after adding every element of `xs`. */
  function Tally<K(==)>(xs: seq<K>): seq<(K, nat)>
  {
    if |xs| == 0 then [] else Bump(Tally(xs[..|xs| - 1]), xs[|xs| - 1])
  }

  /** The loop that fills the counts dictionary. */
  method CountOccurrences<K(==)>(xs: seq<K>) returns (t: seq<(K, nat)>)
    ensures t == Tally(xs)
  {
    t := [];
    for i := 0 to |xs|
      invariant t == Tally(xs[..i])
    {
      assert xs[..i + 1][..i] == xs[..i];
      t := Bump(t, xs[i]);
    }
    assert xs[..|xs|] == xs;
  }

  lemma {:induction false} BumpNew<K>(t: seq<(K, nat)>, k: K)
    requires forall i :: 0 <= i < |t| ==> t[i].0 != k
    ensures Bump(t, k) == t + [(k, 1)]
  {
    if |t| > 0 {
      BumpNew(t[1..], k);
    }
  }

  lemma {:induction false} BumpExisting<K>(t: seq<(K, nat)>, k: K, p: nat)
    requires p < |t| && t[p].0 == k
    requires forall i :: 0 <= i < p ==> t[i].0 != k
    ensures Bump(t, k) == t[p := (k, t[p].1 + 1)]
  {
    if p > 0 {
      BumpExisting(t[1..], k, p - 1);
    }
  }

  /** A dictionary of counts for `xs`, with its keys in first-occurrence order. */
  ghost predicate IsTallyOf<K>(t: seq<(K, nat)>, xs: seq<K>)
  {
    CountsAgree(t, xs) && CoversAll(t, xs) && InFirstOccurrenceOrder(t, xs)
  }

  ghost predicate CountsAgree<K>(t: seq<(K, nat)>, xs: seq<K>)
  {
    forall i :: 0 <= i < |t| ==> t[i].0 in xs && t[i].1 == Count(xs, t[i].0)
  }

  ghost predicate CoversAll<K>(t: seq<(K, nat)>, xs: seq<K>)
  {
    forall k :: k in xs ==> exists i :: 0 <= i < |t| && t[i].0 == k
  }

  ghost predicate InFirstOccurrenceOrder<K>(t: seq<(K, nat)>, xs: seq<K>)
  {
    && (forall i :: 0 <= i < |t| ==> t[i].0 in xs)
    && (forall i, j :: 0 <= i < j < |t| ==> FirstIndex(xs, t[i].0) < FirstIndex(xs, t[j].0))
  }

  lemma FirstIndexExtend<K>(ys: seq<K>, x: K, k: K)
    requires k in ys
    ensures FirstIndex(ys + [x], k) == FirstIndex(ys, k)
  {
    var a, b := FirstIndex(ys + [x], k), FirstIndex(ys, k);
    assert (ys + [x])[b] == k;
  }

  lemma FirstIndexLast<K>(ys: seq<K>, x: K)
    requires x !in ys
    ensures FirstIndex(ys + [x], x) == |ys|
  {
  }

  lemma CountAppend<K>(ys: seq<K>, x: K, k: K)
    ensures Count(ys + [x], k) == Count(ys, k) + (if x == k then 1 else 0)
  {
    assert (ys + [x])[..|ys|] == ys;
  }

  /** Keys in first-occurrence order are pairwise different. */
  lemma OrderedKeysDistinct<K>(t: seq<(K, nat)>, xs: seq<K>, p: nat)
    requires InFirstOccurrenceOrder(t, xs) && p < |t|
    ensures forall i :: 0 <= i < |t| && i != p ==> t[i].0 != t[p].0
  {
    forall i | 0 <= i < |t| && i != p ensures t[i].0 != t[p].0 {
      if i < p {
        assert FirstIndex(xs, t[i].0) < FirstIndex(xs, t[p].0);
      } else {
        assert FirstIndex(xs, t[p].0) < FirstIndex(xs, t[i].0);
      }
    }
  }

  /** Appending to the sequence keeps the first-occurrence order of the keys. */
  lemma OrderExtend<K>(t: seq<(K, nat)>, ys: seq<K>, x: K)
    requires InFirstOccurrenceOrder(t, ys)
    ensures InFirstOccurrenceOrder(t, ys + [x])
  {
    forall i | 0 <= i < |t| ensures FirstIndex(ys + [x], t[i].0) == FirstIndex(ys, t[i].0) {
      FirstIndexExtend(ys, x, t[i].0);
    }
  }

  lemma ExistingCounts<K>(t: seq<(K, nat)>, ys: seq<K>, x: K, p: nat)
    requires CountsAgree(t, ys) && p < |t| && t[p].0 == x
    requires forall i :: 0 <= i < |t| && i != p ==> t[i].0 != t[p].0
    ensures CountsAgree(t[p := (x, t[p].1 + 1)], ys + [x])
  {
    var t', xs := t[p := (x, t[p].1 + 1)], ys + [x];
    forall i | 0 <= i < |t'| ensures t'[i].0 in xs && t'[i].1 == Count(xs, t'[i].0) {
      CountAppend(ys, x, t'[i].0);
    }
  }

  lemma ExistingCovers<K>(t: seq<(K, nat)>, ys: seq<K>, x: K, p: nat, n: nat)
    requires CoversAll(t, ys) && p < |t| && t[p].0 == x
    ensures CoversAll(t[p := (x, n)], ys + [x])
  {
    var t' := t[p := (x, n)];
    forall k | k in ys + [x] ensures exists i :: 0 <= i < |t'| && t'[i].0 == k {
      if k in ys {
        var i :| 0 <= i < |t| && t[i].0 == k;
        assert t'[i].0 == k;
      } else {
        assert t'[p].0 == k;
      }
    }
  }

  lemma ExistingOrder<K>(t: seq<(K, nat)>, xs: seq<K>, x: K, p: nat, n: nat)
    requires InFirstOccurrenceOrder(t, xs) && p < |t| && t[p].0 == x
    ensures InFirstOccurrenceOrder(t[p := (x, n)], xs)
  {
    var t' := t[p := (x, n)];
    assert forall i :: 0 <= i < |t| ==> t'[i].0 == t[i].0;
  }

  lemma ExistingStep<K>(t: seq<(K, nat)>, ys: seq<K>, x: K, p: nat)
    requires IsTallyOf(t, ys) && p < |t| && t[p].0 == x
    ensures IsTallyOf(t[p := (x, t[p].1 + 1)], ys + [x])
  {
    OrderedKeysDistinct(t, ys, p);
    ExistingCounts(t, ys, x, p);
    ExistingCovers(t, ys, x, p, t[p].1 + 1);
    OrderExtend(t, ys, x);
    ExistingOrder(t, ys + [x], x, p, t[p].1 + 1);
  }

  /** Adding an element already counted increments its entry in place. */
  lemma TallyStepExisting<K>(t: seq<(K, nat)>, ys: seq<K>, x: K)
    requires IsTallyOf(t, ys) && x in ys
    ensures IsTallyOf(Bump(t, x), ys + [x])
  {
    var p :| 0 <= p < |t| && t[p].0 == x;
    OrderedKeysDistinct(t, ys, p);
    BumpExisting(t, x, p);
    ExistingStep(t, ys, x, p);
  }

  lemma NewCounts<K>(t: seq<(K, nat)>, ys: seq<K>, x: K)
    requires CountsAgree(t, ys) && x !in ys
    ensures CountsAgree(t + [(x, 1)], ys + [x])
  {
    var t', xs := t + [(x, 1)], ys + [x];
    CountPositive(ys, x);
    forall i | 0 <= i < |t'| ensures t'[i].0 in xs && t'[i].1 == Count(xs, t'[i].0) {
      CountAppend(ys, x, t'[i].0);
    }
  }

  lemma NewCovers<K>(t: seq<(K, nat)>, ys: seq<K>, x: K)
    requires CoversAll(t, ys)
    ensures CoversAll(t + [(x, 1)], ys + [x])
  {
    var t' := t + [(x, 1)];
    forall k | k in ys + [x] ensures exists i :: 0 <= i < |t'| && t'[i].0 == k {
      if k in ys {
        var i :| 0 <= i < |t| && t[i].0 == k;
        assert t'[i].0 == k;
      } else {
        assert t'[|t|].0 == k;
      }
    }
  }

  lemma NewOrder<K>(t: seq<(K, nat)>, ys: seq<K>, x: K)
    requires InFirstOccurrenceOrder(t, ys) && x !in ys
    ensures InFirstOccurrenceOrder(t + [(x, 1)], ys + [x])
  {
    var t', xs := t + [(x, 1)], ys + [x];
    OrderExtend(t, ys, x);
    FirstIndexLast(ys, x);
    forall i | 0 <= i < |t| ensures FirstIndex(xs, t'[i].0) < FirstIndex(xs, x) {
      FirstIndexExtend(ys, x, t[i].0);
    }
  }

  /** Adding an element not yet counted appends a new entry. */
  lemma TallyStepNew<K>(t: seq<(K, nat)>, ys: seq<K>, x: K)
    requires IsTallyOf(t, ys) && x !in ys
    ensures IsTallyOf(Bump(t, x), ys + [x])
  {
    assert forall i :: 0 <= i < |t| ==> t[i].0 != x;
    BumpNew(t, x);
    NewCounts(t, ys, x);
    NewCovers(t, ys, x);
    NewOrder(t, ys, x);
  }

  /** The counts dictionary counts every element once, and enumerates its keys in
      the order in which they first occur. */
  lemma {:induction false} TallySpec<K>(xs: seq<K>)
    ensures IsTallyOf(Tally(xs), xs)
  {
    if |xs| > 0 {
      var ys, x := xs[..|xs| - 1], xs[|xs| - 1];
      assert xs == ys + [x];
      TallySpec(ys);
      if x in ys {
        TallyStepExisting(Tally(ys), ys, x);
      } else {
        TallyStepNew(Tally(ys), ys, x);
      }
    }
  }

  /** A counts dictionary seen as scored entries, the way `Object.entries` yields it. */
  function AsScores<K>(t: seq<(K, nat)>): (r: seq<(K, real)>)
    ensures |r| == |t|
    ensures forall i :: 0 <= i < |t| ==> r[i] == (t[i].0, t[i].1 as real)
  {
    seq(|t|, i requires 0 <= i < |t| => (t[i].0, t[i].1 as real))
  }

  /** The most frequent element of `xs`, ties going to the element seen first;
      `fallback` when `xs` is empty. */
  function MostCommon<K(==)>(xs: seq<K>, fallback: K): K
  {
    FirstMax(AsScores(Tally(xs)), (fallback, 0.0)).0
  }

  /** An entry a counts dictionary rates no lower than any other counts an element
      at least as often as any other. */
  lemma TallyTopIsMax<K>(t: seq<(K, nat)>, xs: seq<K>, p: nat)
    requires IsTallyOf(t, xs) && p < |t|
    requires forall q :: 0 <= q < |t| ==> t[q].1 <= t[p].1
    ensures forall k :: Count(xs, k) <= Count(xs, t[p].0)
  {
    forall k ensures Count(xs, k) <= Count(xs, t[p].0) {
      CountPositive(xs, k);
      if k in xs {
        var q :| 0 <= q < |t| && t[q].0 == k;
        assert t[q].1 <= t[p].1;
      }
    }
  }

  /** The first entry of a counts dictionary with the top count precedes, in the
      sequence, every other element with that count. */
  lemma TallyTopIsFirst<K>(t: seq<(K, nat)>, xs: seq<K>, p: nat)
    requires IsTallyOf(t, xs) && p < |t|
    requires forall j :: 0 <= j < p ==> t[j].1 < t[p].1
    ensures forall k :: k in xs && k != t[p].0 && Count(xs, k) == Count(xs, t[p].0) ==>
              t[p].0 in xs && FirstIndex(xs, t[p].0) < FirstIndex(xs, k)
  {
    forall k | k in xs && k != t[p].0 && Count(xs, k) == Count(xs, t[p].0)
      ensures FirstIndex(xs, t[p].0) < FirstIndex(xs, k)
    {
      var q :| 0 <= q < |t| && t[q].0 == k;
      assert q != p;
    }
  }

  lemma TallyHasPositive<K>(xs: seq<K>) returns (i: nat)
    requires |xs| > 0
    ensures i < |Tally(xs)| && Tally(xs)[i].1 > 0
  {
    TallySpec(xs);
    assert xs[0] in xs;
    i :| 0 <= i < |Tally(xs)| && Tally(xs)[i].0 == xs[0];
    CountPositive(xs, xs[0]);
  }

  /** The entry the scan over a non-empty counts dictionary stops at. */
  lemma MostCommonPosition<K>(xs: seq<K>, fallback: K) returns (p: nat)
    requires |xs| > 0
    ensures p < |Tally(xs)| && MostCommon(xs, fallback) == Tally(xs)[p].0
    ensures forall q :: 0 <= q < |Tally(xs)| ==> Tally(xs)[q].1 <= Tally(xs)[p].1
    ensures forall j :: 0 <= j < p ==> Tally(xs)[j].1 < Tally(xs)[p].1
  {
    var t := Tally(xs);
    var e := AsScores(t);
    FirstMaxSpec(e, (fallback, 0.0));
    var r := FirstMax(e, (fallback, 0.0));
    var i0 := TallyHasPositive(xs);
    assert e[i0].1 > 0.0;
    p :| 0 <= p < |e| && r == e[p] && forall j :: 0 <= j < p ==> e[j].1 < e[p].1;
    assert forall q :: 0 <= q < |t| ==> e[q].1 <= e[p].1;
  }

  /** The most common element: every other element occurs at most as often, and one
      that occurs as often first occurs later. */
  lemma MostCommonSpec<K>(xs: seq<K>, fallback: K)
    ensures |xs| == 0 ==> MostCommon(xs, fallback) == fallback
    ensures |xs| > 0 ==> MostCommon(xs, fallback) in xs
    ensures forall k :: Count(xs, k) <= Count(xs, MostCommon(xs, fallback))
    ensures forall k :: k in xs && k != MostCommon(xs, fallback) && Count(xs, k) == Count(xs, MostCommon(xs, fallback)) ==>
              MostCommon(xs, fallback) in xs && FirstIndex(xs, MostCommon(xs, fallback)) < FirstIndex(xs, k)
  {
    if |xs| == 0 {
      assert AsScores(Tally(xs)) == [];
    } else {
      var p := MostCommonPosition(xs, fallback);
      TallySpec(xs);
      TallyTopIsMax(Tally(xs), xs, p);
      TallyTopIsFirst(Tally(xs), xs, p);
    }
  }

  /** The sum of the counts of a counts dictionary. */
  function SumCounts<K>(t: seq<(K, nat)>): nat
  {
    if |t| == 0 then 0 else t[0].1 + SumCounts(t[1..])
  }

  lemma {:induction false} SumCountsBump<K>(t: seq<(K, nat)>, k: K)
    ensures SumCounts(Bump(t, k)) == SumCounts(t) + 1
  {
    if |t| > 0 && t[0].0 != k {
      SumCountsBump(t[1..], k);
      assert ([t[0]] + Bump(t[1..], k))[1..] == Bump(t[1..], k);
    } else if |t| > 0 {
      assert ([(k, t[0].1 + 1)] + t[1..])[1..] == t[1..];
    }
  }

  /** Every element is counted exactly once. */
  lemma {:induction false} TallySum<K>(xs: seq<K>)
    ensures SumCounts(Tally(xs)) == |xs|
  {
    if |xs| > 0 {
      TallySum(xs[..|xs| - 1]);
      SumCountsBump(Tally(xs[..|xs| - 1]), xs[|xs| - 1]);
    }
  }

  // ---------------------------------------------------------------------------
  // Stable sort

  /** Inserts `x` in front of the first element whose key is not smaller. */
  function Insert<T>(x: T, s: seq<T>, key: T -> int): seq<T>
  {
    if |s| == 0 || key(x) <= key(s[0]) then [x] + s else [s[0]] + Insert(x, s[1..], key)
  }

  /** Sorting by ascending `key`; elements with equal keys keep their order. */
  function SortBy<T>(xs: seq<T>, key: T -> int): seq<T>
  {
    if |xs| == 0 then [] else Insert(xs[0], SortBy(xs[1..], key), key)
  }

  ghost predicate SortedBy<T>(s: seq<T>, key: T -> int)
  {
    forall i, j :: 0 <= i < j < |s| ==> key(s[i]) <= key(s[j])
  }

  /** A lower bound on the keys of `x` and of `s` bounds the keys of the result. */
  lemma {:induction false} InsertBound<T>(x: T, s: seq<T>, key: T -> int, b: int)
    requires b <= key(x) && forall i :: 0 <= i < |s| ==> b <= key(s[i])
    ensures forall j :: 0 <= j < |Insert(x, s, key)| ==> b <= key(Insert(x, s, key)[j])
  {
    if |s| > 0 && key(x) > key(s[0]) {
      var tail := s[1..];
      assert forall i :: 0 <= i < |tail| ==> tail[i] == s[i + 1];
      InsertBound(x, tail, key, b);
    }
  }

  lemma ConsSorted<T>(y: T, r: seq<T>, key: T -> int)
    requires SortedBy(r, key) && forall j :: 0 <= j < |r| ==> key(y) <= key(r[j])
    ensures SortedBy([y] + r, key)
  {
    var s := [y] + r;
    forall i, j | 0 <= i < j < |s| ensures key(s[i]) <= key(s[j]) {
      assert s[j] == r[j - 1];
      if i > 0 {
        assert s[i] == r[i - 1];
      }
    }
  }

  lemma ConsStrict<T>(y: T, r: seq<T>, key: T -> int)
    requires StrictlySortedBy(r, key) && forall j :: 0 <= j < |r| ==> key(y) < key(r[j])
    ensures StrictlySortedBy([y] + r, key)
  {
    var s := [y] + r;
    forall i, j | 0 <= i < j < |s| ensures key(s[i]) < key(s[j]) {
      assert s[j] == r[j - 1];
      if i > 0 {
        assert s[i] == r[i - 1];
      }
    }
  }

  lemma {:induction false} InsertElements<T>(x: T, s: seq<T>, key: T -> int)
    ensures multiset(Insert(x, s, key)) == multiset(s) + multiset{x}
    ensures |Insert(x, s, key)| == |s| + 1
    ensures Insert(x, s, key)[0] == (if |s| == 0 || key(x) <= key(s[0]) then x else s[0])
  {
    if |s| > 0 && key(x) > key(s[0]) {
      InsertElements(x, s[1..], key);
      assert s == [s[0]] + s[1..];
    }
  }

  lemma {:induction false} InsertSorted<T>(x: T, s: seq<T>, key: T -> int)
    requires SortedBy(s, key)
    ensures SortedBy(Insert(x, s, key), key)
  {
    if |s| > 0 && key(x) > key(s[0]) {
      var tail := s[1..];
      assert forall i :: 0 <= i < |tail| ==> tail[i] == s[i + 1];
      InsertSorted(x, tail, key);
      InsertBound(x, tail, key, key(s[0]));
      ConsSorted(s[0], Insert(x, tail, key), key);
    } else {
      ConsSorted(x, s, key);
    }
  }

  /** Inserting into an ordered list keeps it ordered, adds exactly `x`, and puts
      `x` first when its key does not exceed the first key. */
  lemma InsertSpec<T>(x: T, s: seq<T>, key: T -> int)
    requires SortedBy(s, key)
    ensures SortedBy(Insert(x, s, key), key)
    ensures multiset(Insert(x, s, key)) == multiset(s) + multiset{x}
    ensures |Insert(x, s, key)| == |s| + 1
    ensures Insert(x, s, key)[0] == (if |s| == 0 || key(x) <= key(s[0]) then x else s[0])
  {
    InsertElements(x, s, key);
    InsertSorted(x, s, key);
  }

  lemma {:induction false} SortBySorted<T>(xs: seq<T>, key: T -> int)
    ensures SortedBy(SortBy(xs, key), key)
  {
    if |xs| > 0 {
      SortBySorted(xs[1..], key);
      InsertSorted(xs[0], SortBy(xs[1..], key), key);
    }
  }

  lemma {:induction false} SortByElements<T>(xs: seq<T>, key: T -> int)
    ensures multiset(SortBy(xs, key)) == multiset(xs)
    ensures |SortBy(xs, key)| == |xs|
  {
    if |xs| > 0 {
      SortByElements(xs[1..], key);
      InsertElements(xs[0], SortBy(xs[1..], key), key);
      assert xs == [xs[0]] + xs[1..];
    }
  }

  /** The result is ordered by key and holds exactly the input's elements. */
  lemma SortBySpec<T>(xs: seq<T>, key: T -> int)
    ensures SortedBy(SortBy(xs, key), key)
    ensures multiset(SortBy(xs, key)) == multiset(xs)
    ensures |SortBy(xs, key)| == |xs|
  {
    SortBySorted(xs, key);
    SortByElements(xs, key);
  }

  /** The elements whose key is `k`, in their order in `s`. */
  function WithKey<T>(s: seq<T>, key: T -> int, k: int): seq<T>
  {
    if |s| == 0 then [] else (if key(s[0]) == k then [s[0]] else []) + WithKey(s[1..], key, k)
  }

  /** `Insert` only moves `x` past elements with a smaller key, so among the
      elements of any one key `x` comes first. */
  lemma {:induction false} InsertWithKey<T>(x: T, s: seq<T>, key: T -> int, k: int)
    ensures WithKey(Insert(x, s, key), key, k) == WithKey([x], key, k) + WithKey(s, key, k)
  {
    var hx := if key(x) == k then [x] else [];
    assert WithKey([x], key, k) == hx by {
      assert [x][1..] == [];
      assert hx + [] == hx;
    }
    if |s| == 0 || key(x) <= key(s[0]) {
      assert ([x] + s)[0] == x && ([x] + s)[1..] == s;
    } else {
      var tail := s[1..];
      var h0 := if key(s[0]) == k then [s[0]] else [];
      var ins := Insert(x, tail, key);
      InsertWithKey(x, tail, key, k);
      assert ([s[0]] + ins)[0] == s[0] && ([s[0]] + ins)[1..] == ins;
      assert h0 == [] || hx == [];
      assert h0 + (hx + WithKey(tail, key, k)) == hx + (h0 + WithKey(tail, key, k));
    }
  }

  /** Stability: for every key, the elements with that key come out of the sort
      in the order they went in. */
  lemma {:induction false} SortByStable<T>(xs: seq<T>, key: T -> int, k: int)
    ensures WithKey(SortBy(xs, key), key, k) == WithKey(xs, key, k)
  {
    if |xs| > 0 {
      SortByStable(xs[1..], key, k);
      InsertWithKey(xs[0], SortBy(xs[1..], key), key, k);
      var hx := if key(xs[0]) == k then [xs[0]] else [];
      assert WithKey([xs[0]], key, k) == hx by {
        assert [xs[0]][1..] == [];
        assert hx + [] == hx;
      }
    }
  }

  /** Where element `j` of `s` sits among the elements of its key. */
  lemma {:induction false} WithKeyPosition<T>(s: seq<T>, key: T -> int, j: nat) returns (q: nat)
    requires j < |s|
    ensures q < |WithKey(s, key, key(s[j]))| && WithKey(s, key, key(s[j]))[q] == s[j]
  {
    var k := key(s[j]);
    var h := if key(s[0]) == k then [s[0]] else [];
    if j == 0 {
      q := 0;
    } else {
      var q' := WithKeyPosition(s[1..], key, j - 1);
      assert s[1..][j - 1] == s[j];
      q := |h| + q';
    }
  }

  /** Two elements of one key keep their relative order among that key's elements. */
  lemma {:induction false} WithKeyPositions<T>(s: seq<T>, key: T -> int, i: nat, j: nat) returns (p: nat, q: nat)
    requires i < j < |s| && key(s[i]) == key(s[j])
    ensures p < q < |WithKey(s, key, key(s[i]))|
    ensures WithKey(s, key, key(s[i]))[p] == s[i] && WithKey(s, key, key(s[i]))[q] == s[j]
  {
    var k := key(s[i]);
    var h := if key(s[0]) == k then [s[0]] else [];
    assert s[1..][j - 1] == s[j];
    if i == 0 {
      var q' := WithKeyPosition(s[1..], key, j - 1);
      p, q := 0, 1 + q';
    } else {
      assert s[1..][i - 1] == s[i];
      var p', q' := WithKeyPositions(s[1..], key, i - 1, j - 1);
      p, q := |h| + p', |h| + q';
    }
  }

  /** Where element `p` of the elements of key `k` sits in `s`. */
  lemma {:induction false} WithKeyOrigin<T>(s: seq<T>, key: T -> int, k: int, p: nat) returns (i: nat)
    requires p < |WithKey(s, key, k)|
    ensures i < |s| && s[i] == WithKey(s, key, k)[p]
  {
    var h := if key(s[0]) == k then [s[0]] else [];
    if |h| == 1 && p == 0 {
      i := 0;
    } else {
      var i' := WithKeyOrigin(s[1..], key, k, p - |h|);
      i := i' + 1;
    }
  }

  /** Two elements of key `k` that appear in one order among that key's elements
      appear in that order in `s`. */
  lemma {:induction false} WithKeyOrigins<T>(s: seq<T>, key: T -> int, k: int, p: nat, q: nat) returns (i: nat, j: nat)
    requires p < q < |WithKey(s, key, k)|
    ensures i < j < |s| && s[i] == WithKey(s, key, k)[p] && s[j] == WithKey(s, key, k)[q]
  {
    var h := if key(s[0]) == k then [s[0]] else [];
    if |h| == 1 && p == 0 {
      var j' := WithKeyOrigin(s[1..], key, k, q - 1);
      i, j := 0, j' + 1;
    } else {
      var i', j' := WithKeyOrigins(s[1..], key, k, p - |h|, q - |h|);
      i, j := i' + 1, j' + 1;
    }
  }

  /** Stability by positions: two input elements with equal keys come out of the
      sort in their input order. */
  lemma SortByKeepsTies<T>(xs: seq<T>, key: T -> int, i: nat, j: nat) returns (p: nat, q: nat)
    requires i < j < |xs| && key(xs[i]) == key(xs[j])
    ensures p < q < |SortBy(xs, key)| && SortBy(xs, key)[p] == xs[i] && SortBy(xs, key)[q] == xs[j]
  {
    var k := key(xs[i]);
    var p0, q0 := WithKeyPositions(xs, key, i, j);
    SortByStable(xs, key, k);
    p, q := WithKeyOrigins(SortBy(xs, key), key, k, p0, q0);
  }

  /** The first element after sorting is the earliest element with the smallest key. */
  lemma {:induction false} SortByHead<T>(xs: seq<T>, key: T -> int) returns (k: nat)
    requires |xs| > 0
    ensures k < |xs| && SortBy(xs, key)[0] == xs[k]
    ensures forall j :: 0 <= j < |xs| ==> key(xs[k]) <= key(xs[j])
    ensures forall j :: 0 <= j < k ==> key(xs[j]) > key(xs[k])
  {
    var tail := xs[1..];
    var rest := SortBy(tail, key);
    SortByElements(tail, key);
    InsertElements(xs[0], rest, key);
    if |xs| == 1 {
      k := 0;
    } else {
      var k' := SortByHead(tail, key);
      assert forall j :: 0 < j < |xs| ==> xs[j] == tail[j - 1];
      if key(xs[0]) <= key(rest[0]) {
        k := 0;
      } else {
        k := k' + 1;
      }
    }
  }

  ghost predicate StrictlySortedBy<T>(s: seq<T>, key: T -> int)
  {
    forall i, j :: 0 <= i < j < |s| ==> key(s[i]) < key(s[j])
  }

  ghost predicate DistinctBy<T>(s: seq<T>, key: T -> int)
  {
    forall i, j :: 0 <= i < j < |s| ==> key(s[i]) != key(s[j])
  }

  /** Inserting an element whose key is new into a strictly ordered list keeps
      it strictly ordered. */
  lemma {:induction false} InsertStrict<T>(x: T, s: seq<T>, key: T -> int)
    requires StrictlySortedBy(s, key)
    requires forall i :: 0 <= i < |s| ==> key(s[i]) != key(x)
    ensures StrictlySortedBy(Insert(x, s, key), key)
  {
    if |s| > 0 && key(x) > key(s[0]) {
      var tail := s[1..];
      assert forall i :: 0 <= i < |tail| ==> tail[i] == s[i + 1];
      InsertStrict(x, tail, key);
      InsertBound(x, tail, key, key(s[0]) + 1);
      ConsStrict(s[0], Insert(x, tail, key), key);
    } else if |s| > 0 {
      ConsStrict(x, s, key);
    }
  }

  /** Sorting a list whose keys are pairwise different orders it strictly. */
  lemma {:induction false} SortByStrict<T>(xs: seq<T>, key: T -> int)
    requires DistinctBy(xs, key)
    ensures StrictlySortedBy(SortBy(xs, key), key)
  {
    if |xs| > 0 {
      var rest := SortBy(xs[1..], key);
      assert DistinctBy(xs[1..], key) by {
        forall i, j | 0 <= i < j < |xs[1..]| ensures key(xs[1..][i]) != key(xs[1..][j]) {
          assert xs[1..][i] == xs[i + 1] && xs[1..][j] == xs[j + 1];
        }
      }
      SortByStrict(xs[1..], key);
      SortBySpec(xs[1..], key);
      forall i | 0 <= i < |rest| ensures key(rest[i]) != key(xs[0]) {
        assert rest[i] in multiset(xs[1..]);
        var q :| 0 <= q < |xs[1..]| && xs[1..][q] == rest[i];
        assert xs[q + 1] == rest[i];
      }
      InsertStrict(xs[0], rest, key);
    }
  }
}
