/**
 * What src/components/MoodHistory.js derives from the mood history before
 * rendering it: the mood distribution with rounded percentages, sorted by count;
 * the strip of the last five entries; the full listing, newest first; and the
 * summary of today's entries with the mood felt most often. Today is the day key
 * of the current instant, which the caller supplies.
 */
module MoodHistory {
  import opened Wrappers
  import opened Ranking
  import opened Moods

  /** The rounded percentage of `count` in `total`, in exact arithmetic: the integer nearest to
      the percentage, halves rounded up. */
  function Percent(count: nat, total: nat): nat
    requires total > 0
  {
    (200 * count + total) / (2 * total)
  }

  /** The percentage is the rounded ratio (p - 1/2 <= 100 count / total < p + 1/2),
      and is between 0 and 100 when the count is part of the total. */
  lemma PercentSpec(count: nat, total: nat)
    requires total > 0
    ensures 2 * total * Percent(count, total) <= 200 * count + total < 2 * total * (Percent(count, total) + 1)
    ensures count <= total ==> Percent(count, total) <= 100
  {
    var p, d, n := Percent(count, total), 2 * total, 200 * count + total;
    QuotientBounds(n, d);
    if count <= total {
      assert n < d * 101;
      FactorLess(d, p, 101);
    }
  }

  /** The quotient q of n by d > 0 satisfies d q <= n < d (q + 1). */
  lemma QuotientBounds(n: nat, d: nat)
    requires d > 0
    ensures d * (n / d) <= n < d * (n / d + 1)
  {
    var q := n / d;
    assert n == d * q + n % d;
    assert d * (q + 1) == d * q + d;
  }

  lemma FactorLess(d: nat, p: nat, q: nat)
    requires d > 0 && d * p < d * q
    ensures p < q
  {
    assert d * q - d * p == d * (q - p);
  }

  /** One row of the distribution. */
  datatype MoodShare = MoodShare(mood: Mood, count: nat, percentage: nat)

  /** The count dictionary's entries in first-occurrence order, with percentages. */
  function Distribution(history: seq<MoodEntry>): (r: seq<MoodShare>)
    requires |history| > 0
    ensures |r| == |Tally(MoodsOf(history))|
    ensures forall i :: 0 <= i < |r| ==>
              var e := Tally(MoodsOf(history))[i];
              r[i] == MoodShare(e.0, e.1, Percent(e.1, |history|))
  {
    var t := Tally(MoodsOf(history));
    seq(|t|, i requires 0 <= i < |t| => MoodShare(t[i].0, t[i].1, Percent(t[i].1, |history|)))
  }

  /** The sort key for "by count, descending". */
  function ByCountDescending(s: MoodShare): int
  {
    -(s.count as int)
  }

  /** The distribution as displayed: sorted by count, highest first, ties in
      first-occurrence order. */
  function SortedDistribution(history: seq<MoodEntry>): seq<MoodShare>
    requires |history| > 0
  {
    SortBy(Distribution(history), ByCountDescending)
  }

  /** Rows with equal counts are displayed in first-occurrence order: rows i < j
      of the count dictionary with the same count appear at positions p < q. */
  lemma DistributionTies(history: seq<MoodEntry>, i: nat, j: nat) returns (p: nat, q: nat)
    requires |history| > 0
    requires i < j < |Distribution(history)| && Distribution(history)[i].count == Distribution(history)[j].count
    ensures p < q < |SortedDistribution(history)|
    ensures SortedDistribution(history)[p] == Distribution(history)[i]
    ensures SortedDistribution(history)[q] == Distribution(history)[j]
  {
    p, q := SortByKeepsTies(Distribution(history), ByCountDescending, i, j);
  }

  /** Each mood of the history has exactly one row, whose count is the number of
      its entries and whose percentage is that count's rounded share; the counts
      add up to the number of entries; the displayed rows are these rows sorted
      by count, highest first, and rows of equal count keep their order. */
  lemma DistributionSpec(history: seq<MoodEntry>)
    requires |history| > 0
    ensures var d := Distribution(history);
            && (forall i :: 0 <= i < |d| ==> d[i].count == Count(MoodsOf(history), d[i].mood) && d[i].mood in MoodsOf(history))
            && (forall m :: m in MoodsOf(history) ==> exists i :: 0 <= i < |d| && d[i].mood == m)
            && (forall i, j :: 0 <= i < j < |d| ==> d[i].mood != d[j].mood)
            && (forall i :: 0 <= i < |d| ==>
                  && d[i].percentage <= 100
                  && 2 * |history| * d[i].percentage <= 200 * d[i].count + |history| < 2 * |history| * (d[i].percentage + 1))
            && SumCounts(Tally(MoodsOf(history))) == |history|
    ensures var s := SortedDistribution(history);
            && multiset(s) == multiset(Distribution(history))
            && forall i, j :: 0 <= i < j < |s| ==> s[i].count >= s[j].count
    ensures forall k :: WithKey(SortedDistribution(history), ByCountDescending, k) == WithKey(Distribution(history), ByCountDescending, k)
  {
    forall k ensures WithKey(SortedDistribution(history), ByCountDescending, k) == WithKey(Distribution(history), ByCountDescending, k) {
      SortByStable(Distribution(history), ByCountDescending, k);
    }
    var xs := MoodsOf(history);
    var t := Tally(xs);
    var d := Distribution(history);
    TallySpec(xs);
    TallySum(xs);
    forall i | 0 <= i < |d|
      ensures d[i].count == Count(xs, d[i].mood) && d[i].mood in xs && d[i].count <= |history|
    {
      CountBound(xs, d[i].mood);
    }
    forall i | 0 <= i < |d|
      ensures d[i].percentage <= 100
      ensures 2 * |history| * d[i].percentage <= 200 * d[i].count + |history| < 2 * |history| * (d[i].percentage + 1)
    {
      PercentSpec(d[i].count, |history|);
    }
    forall m | m in xs ensures exists i :: 0 <= i < |d| && d[i].mood == m {
      var i :| 0 <= i < |t| && t[i].0 == m;
      assert d[i].mood == m;
    }
    forall i, j | 0 <= i < j < |d| ensures d[i].mood != d[j].mood {
      OrderedKeysDistinct(t, xs, j);
    }
    SortBySpec(d, ByCountDescending);
  }

  lemma {:induction false} CountBound<K>(xs: seq<K>, k: K)
    ensures Count(xs, k) <= |xs|
  {
    if |xs| > 0 {
      CountBound(xs[..|xs| - 1], k);
    }
  }

  /** The last five entries (all of them when there are fewer), oldest first. */
  function RecentStrip(history: seq<MoodEntry>): (r: seq<MoodEntry>)
    ensures |r| == if |history| < 5 then |history| else 5
    ensures history == history[..|history| - |r|] + r
  {
    var n := if |history| < 5 then |history| else 5;
    history[|history| - n..]
  }

  /** The history in reverse order, newest first. */
  function Reversed(history: seq<MoodEntry>): (r: seq<MoodEntry>)
    ensures |r| == |history|
    ensures forall i :: 0 <= i < |history| ==> r[i] == history[|history| - 1 - i]
  {
    if |history| == 0 then []
    else [history[|history| - 1]] + Reversed(history[..|history| - 1])
  }

  /** Reversing twice gives the history back, so the listing loses nothing. */
  lemma ReversedTwice(history: seq<MoodEntry>)
    ensures Reversed(Reversed(history)) == history
  {
  }

  /** The sort key for the today counts: count, descending. */
  function ByEntryCountDescending(e: (Mood, nat)): int
  {
    -(e.1 as int)
  }

  /** The mood at the head of today's counts sorted by count, highest first. */
  function TodayTop(entries: seq<MoodEntry>): Mood
    requires |entries| > 0
  {
    var t := Tally(MoodsOf(entries));
    TallySpec(MoodsOf(entries));
    assert entries[0].mood in MoodsOf(entries);
    SortBySpec(t, ByEntryCountDescending);
    SortBy(t, ByEntryCountDescending)[0].0
  }

  /** Because the sort is stable, the head of the sorted counts is the first strict
      maximum of the counts: today's top mood is the most common mood of today's
      entries, ties going to the one that appeared first. */
  lemma TodayTopIsMostCommon(entries: seq<MoodEntry>)
    requires |entries| > 0
    ensures TodayTop(entries) == MostCommon(MoodsOf(entries), Neutral)
    ensures forall m :: Count(MoodsOf(entries), m) <= Count(MoodsOf(entries), TodayTop(entries))
    ensures TodayTop(entries) in MoodsOf(entries)
  {
    var xs := MoodsOf(entries);
    var t := Tally(xs);
    TallySpec(xs);
    assert entries[0].mood in xs;
    var k := SortByHead(t, ByEntryCountDescending);
    var p := MostCommonPosition(xs, Neutral);
    assert t[p].1 <= t[k].1;
    assert t[k].1 <= t[p].1;
    assert k == p;
    MostCommonSpec(xs, Neutral);
  }

  datatype TodaySummary = TodaySummary(entries: nat, topMood: Mood)

  /** Everything the history panel shows. */
  datatype HistoryView = HistoryView(
    distribution: seq<MoodShare>,
    recent: seq<MoodEntry>,
    listing: seq<MoodEntry>,
    today: Option<TodaySummary>)

  /** The panel for a history, or nothing for an empty one. */
  function View(history: seq<MoodEntry>, today: int): Option<HistoryView>
  {
    if |history| == 0 then None
    else
      var todays := EntriesOn(history, today);
      Some(HistoryView(
        SortedDistribution(history),
        RecentStrip(history),
        Reversed(history),
        if |todays| > 0 then Some(TodaySummary(|todays|, TodayTop(todays))) else None))
  }

  /** The panel is shown exactly for a non-empty history, and the today summary
      exactly when some entry is from today; its top mood is a most common mood of
      today's entries. */
  lemma ViewSpec(history: seq<MoodEntry>, today: int)
    ensures View(history, today).None? <==> |history| == 0
    ensures View(history, today).Some? ==>
              (View(history, today).value.today.Some? <==> exists e :: e in history && DayOf(e.timestamp) == today)
    ensures View(history, today).Some? && View(history, today).value.today.Some? ==>
              var todays := EntriesOn(history, today);
              var top := View(history, today).value.today.value.topMood;
              top in MoodsOf(todays) && forall m :: Count(MoodsOf(todays), m) <= Count(MoodsOf(todays), top)
  {
    var todays := EntriesOn(history, today);
    if |history| > 0 {
      if exists e :: e in history && DayOf(e.timestamp) == today {
        var e :| e in history && DayOf(e.timestamp) == today;
        EntriesOnSpec(history, today, e);
      }
      if |todays| > 0 {
        TodayTopIsMostCommon(todays);
        EntriesOnSpec(history, today, todays[0]);
      }
    }
  }
}
