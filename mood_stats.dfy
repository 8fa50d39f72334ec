/**
 * What src/components/MoodStats.js derives from the mood history for its chart
 * and insight card: per-day mood counts sorted by day, the window of the last
 * seven days, the overall counts, the dominant mood and its message. Calendar
 * days are the day keys of the entries' instants.
 */
module MoodStats {
  import opened Wrappers
  import opened Ranking
  import opened Moods

  /** The counts of one calendar day. */
  datatype DayBucket = DayBucket(day: int, counts: MoodCounts)

  /** Adding one entry to the per-day dictionary: its day's bucket is counted up,
      or a new bucket is appended for a day not seen before. */
  function AddToDay(buckets: seq<DayBucket>, day: int, m: Mood): seq<DayBucket>
  {
    if |buckets| == 0 then [DayBucket(day, Increment(NoMoods, m))]
    else if buckets[0].day == day then [buckets[0].(counts := Increment(buckets[0].counts, m))] + buckets[1..]
    else [buckets[0]] + AddToDay(buckets[1..], day, m)
  }

  /** Sum of the counts in all buckets. */
  function BucketTotal(buckets: seq<DayBucket>): nat
  {
    if |buckets| == 0 then 0 else Total(buckets[0].counts) + BucketTotal(buckets[1..])
  }

  /** The bucket days, in bucket order. */
  function Days(buckets: seq<DayBucket>): (r: seq<int>)
    ensures |r| == |buckets|
  {
    if |buckets| == 0 then [] else [buckets[0].day] + Days(buckets[1..])
  }

  /** Position `i` of the days is the day of bucket `i`. */
  lemma {:induction false} DaysAt(buckets: seq<DayBucket>, i: nat)
    requires i < |buckets|
    ensures Days(buckets)[i] == buckets[i].day
  {
    if i > 0 {
      DaysAt(buckets[1..], i - 1);
    }
  }

  /** No value occurs twice. */
  predicate Distinct(s: seq<int>)
  {
    forall i, j :: 0 <= i < j < |s| ==> s[i] != s[j]
  }

  /** No day has two buckets. */
  predicate UniqueDays(buckets: seq<DayBucket>)
  {
    Distinct(Days(buckets))
  }

  /** The total of a bucket list with one more bucket in front. */
  lemma ConsTotal(b: DayBucket, s: seq<DayBucket>)
    ensures BucketTotal([b] + s) == Total(b.counts) + BucketTotal(s)
  {
    assert ([b] + s)[1..] == s;
  }

  /** The days of a bucket list with one more bucket in front. */
  lemma ConsDays(b: DayBucket, s: seq<DayBucket>)
    ensures Days([b] + s) == [b.day] + Days(s)
  {
    assert ([b] + s)[1..] == s;
  }

  /** Counting an entry of a day that has a bucket leaves the days as they are. */
  lemma {:induction false} AddToKnownDay(buckets: seq<DayBucket>, day: int, m: Mood)
    requires day in Days(buckets)
    ensures Days(AddToDay(buckets, day, m)) == Days(buckets)
  {
    var head, tail := buckets[0], buckets[1..];
    assert buckets == [head] + tail;
    ConsDays(head, tail);
    if head.day == day {
      ConsDays(head.(counts := Increment(head.counts, m)), tail);
    } else {
      AddToKnownDay(tail, day, m);
      ConsDays(head, AddToDay(tail, day, m));
    }
  }

  /** Proof step of the day-list lemmas below, kept apart so that the solver meets
      the regrouping of a concatenation in a small context. */
  lemma AppendAssoc(a: seq<int>, b: seq<int>, c: seq<int>)
    ensures a + (b + c) == (a + b) + c
  {
  }

  /** Proof step of `AddToDayDays`: the days of a single bucket. */
  lemma SingleDay(b: DayBucket)
    ensures Days([b]) == [b.day] == Days([]) + [b.day]
  {
    ConsDays(b, []);
    assert [b] + [] == [b];
  }

  /** The inductive step of `AddToNewDay`: a bucket of another day stays in front. */
  lemma NewDayStep(buckets: seq<DayBucket>, day: int, m: Mood)
    requires |buckets| > 0 && buckets[0].day != day
    requires Days(AddToDay(buckets[1..], day, m)) == Days(buckets[1..]) + [day]
    ensures Days(AddToDay(buckets, day, m)) == Days(buckets) + [day]
  {
    var head, tail := buckets[0], buckets[1..];
    ConsDays(head, AddToDay(tail, day, m));
    AppendAssoc([head.day], Days(tail), [day]);
  }

  /** Counting an entry of a new day appends that day at the end. */
  lemma {:induction false} AddToNewDay(buckets: seq<DayBucket>, day: int, m: Mood)
    requires day !in Days(buckets)
    ensures Days(AddToDay(buckets, day, m)) == Days(buckets) + [day]
  {
    if |buckets| == 0 {
      SingleDay(DayBucket(day, Increment(NoMoods, m)));
    } else {
      AddToNewDay(buckets[1..], day, m);
      NewDayStep(buckets, day, m);
    }
  }

  /** Counting an entry of a day that has a bucket leaves the days as they are; an
      entry of a new day appends that day at the end. */
  lemma AddToDayDays(buckets: seq<DayBucket>, day: int, m: Mood)
    ensures Days(AddToDay(buckets, day, m)) == if day in Days(buckets) then Days(buckets) else Days(buckets) + [day]
  {
    if day in Days(buckets) {
      AddToKnownDay(buckets, day, m);
    } else {
      AddToNewDay(buckets, day, m);
    }
  }

  /** A known day keeps the number of buckets; a new day adds one. */
  lemma AddToDayLength(buckets: seq<DayBucket>, day: int, m: Mood)
    ensures |AddToDay(buckets, day, m)| == if day in Days(buckets) then |buckets| else |buckets| + 1
  {
    AddToDayDays(buckets, day, m);
  }

  /** Adding an entry adds one to the counts. */
  lemma {:induction false} AddToDayTotal(buckets: seq<DayBucket>, day: int, m: Mood)
    ensures BucketTotal(AddToDay(buckets, day, m)) == BucketTotal(buckets) + 1
  {
    if |buckets| == 0 {
      ConsTotal(DayBucket(day, Increment(NoMoods, m)), []);
    } else {
      var head, tail := buckets[0], buckets[1..];
      if head.day == day {
        ConsTotal(head.(counts := Increment(head.counts, m)), tail);
      } else {
        AddToDayTotal(tail, day, m);
        ConsTotal(head, AddToDay(tail, day, m));
      }
    }
  }

  /** Adding an entry never gives a day a second bucket. */
  lemma AddToDayUnique(buckets: seq<DayBucket>, day: int, m: Mood)
    requires UniqueDays(buckets)
    ensures UniqueDays(AddToDay(buckets, day, m))
  {
    AddToDayDays(buckets, day, m);
  }

  /** The sort key: the bucket's day, oldest first. */
  function ByDay(b: DayBucket): int
  {
    b.day
  }

  /** Unique days means that any two positions hold different days. */
  lemma UniqueDaysAt(buckets: seq<DayBucket>)
    requires UniqueDays(buckets)
    ensures DistinctBy(buckets, ByDay)
  {
    var days := Days(buckets);
    forall i, j | 0 <= i < j < |buckets| ensures ByDay(buckets[i]) != ByDay(buckets[j]) {
      DaysAt(buckets, i);
      DaysAt(buckets, j);
      assert days[i] != days[j];
    }
  }

  /** The days of the entries. */
  function EntryDays(history: seq<MoodEntry>): set<int>
  {
    set e | e in history :: DayOf(e.timestamp)
  }

  lemma EntryDaysSnoc(history: seq<MoodEntry>, e: MoodEntry)
    ensures EntryDays(history + [e]) == EntryDays(history) + {DayOf(e.timestamp)}
  {
    var h := history + [e];
    forall d | d in EntryDays(h) ensures d in EntryDays(history) + {DayOf(e.timestamp)} {
      var x :| x in h && DayOf(x.timestamp) == d;
      if x != e {
        assert x in history;
      }
    }
    forall d | d in EntryDays(history) + {DayOf(e.timestamp)} ensures d in EntryDays(h) {
      if d in EntryDays(history) {
        var x :| x in history && DayOf(x.timestamp) == d;
        assert x in h;
      } else {
        assert e in h;
      }
    }
  }

  lemma EntryDaysLast(history: seq<MoodEntry>)
    requires |history| > 0
    ensures EntryDays(history) == EntryDays(history[..|history| - 1]) + {DayOf(history[|history| - 1].timestamp)}
  {
    var prefix, last := history[..|history| - 1], history[|history| - 1];
    assert history == prefix + [last];
    EntryDaysSnoc(prefix, last);
  }

  /** The `reduce` that groups the history by calendar day. */
  function GroupByDay(history: seq<MoodEntry>): seq<DayBucket>
  {
    if |history| == 0 then []
    else
      var last := history[|history| - 1];
      AddToDay(GroupByDay(history[..|history| - 1]), DayOf(last.timestamp), last.mood)
  }

  /** Each entry is counted in exactly one bucket. */
  lemma {:induction false} GroupByDayTotal(history: seq<MoodEntry>)
    ensures BucketTotal(GroupByDay(history)) == |history|
  {
    if |history| > 0 {
      var prefix, last := history[..|history| - 1], history[|history| - 1];
      GroupByDayTotal(prefix);
      AddToDayTotal(GroupByDay(prefix), DayOf(last.timestamp), last.mood);
    }
  }

  /** There is a bucket for exactly the days that have entries. */
  lemma {:induction false} GroupByDayDays(history: seq<MoodEntry>, d: int)
    ensures d in Days(GroupByDay(history)) <==> d in EntryDays(history)
  {
    if |history| > 0 {
      var prefix, last := history[..|history| - 1], history[|history| - 1];
      GroupByDayDays(prefix, d);
      EntryDaysLast(history);
      AddToDayDays(GroupByDay(prefix), DayOf(last.timestamp), last.mood);
    }
  }

  /** No day has two buckets. */
  lemma {:induction false} GroupByDayUnique(history: seq<MoodEntry>)
    ensures UniqueDays(GroupByDay(history))
  {
    if |history| > 0 {
      var prefix, last := history[..|history| - 1], history[|history| - 1];
      GroupByDayUnique(prefix);
      AddToDayUnique(GroupByDay(prefix), DayOf(last.timestamp), last.mood);
    }
  }

  /** The counts of the first bucket of day `d`, or zero counts when there is none. */
  function CountsOn(buckets: seq<DayBucket>, d: int): MoodCounts
  {
    if |buckets| == 0 then NoMoods
    else if buckets[0].day == d then buckets[0].counts
    else CountsOn(buckets[1..], d)
  }

  /** `CountsOn` of a bucket list with one more bucket in front. */
  lemma ConsCounts(b: DayBucket, s: seq<DayBucket>, d: int)
    ensures CountsOn([b] + s, d) == if b.day == d then b.counts else CountsOn(s, d)
  {
    assert ([b] + s)[0] == b && ([b] + s)[1..] == s;
  }

  /** The change `AddToDay` makes to the counts of day `d`. */
  function CountsAfter(c: MoodCounts, day: int, m: Mood, d: int): MoodCounts
  {
    if d == day then Increment(c, m) else c
  }

  /** `AddToDayCounts` for the empty list: the new bucket is the only one. */
  lemma AddToNoBuckets(day: int, m: Mood, d: int)
    ensures CountsOn(AddToDay([], day, m), d) == CountsAfter(CountsOn([], d), day, m, d)
  {
    ConsCounts(DayBucket(day, Increment(NoMoods, m)), [], d);
    assert [DayBucket(day, Increment(NoMoods, m))] + [] == [DayBucket(day, Increment(NoMoods, m))];
  }

  /** `AddToDayCounts` when the first bucket is the entry's day. */
  lemma AddToFirstBucket(buckets: seq<DayBucket>, day: int, m: Mood, d: int)
    requires |buckets| > 0 && buckets[0].day == day
    ensures CountsOn(AddToDay(buckets, day, m), d) == CountsAfter(CountsOn(buckets, d), day, m, d)
  {
    ConsCounts(buckets[0].(counts := Increment(buckets[0].counts, m)), buckets[1..], d);
  }

  /** The inductive step of `AddToDayCounts`: a bucket of another day stays in front. */
  lemma AddToLaterBucket(buckets: seq<DayBucket>, day: int, m: Mood, d: int)
    requires |buckets| > 0 && buckets[0].day != day
    requires CountsOn(AddToDay(buckets[1..], day, m), d) == CountsAfter(CountsOn(buckets[1..], d), day, m, d)
    ensures CountsOn(AddToDay(buckets, day, m), d) == CountsAfter(CountsOn(buckets, d), day, m, d)
  {
    ConsCounts(buckets[0], AddToDay(buckets[1..], day, m), d);
  }

  /** Counting an entry of day `day` raises that day's count of its mood by one and
      leaves every other day's counts alone. */
  lemma {:induction false} AddToDayCounts(buckets: seq<DayBucket>, day: int, m: Mood, d: int)
    ensures CountsOn(AddToDay(buckets, day, m), d) == CountsAfter(CountsOn(buckets, d), day, m, d)
  {
    if |buckets| == 0 {
      AddToNoBuckets(day, m, d);
    } else if buckets[0].day == day {
      AddToFirstBucket(buckets, day, m, d);
    } else {
      AddToDayCounts(buckets[1..], day, m, d);
      AddToLaterBucket(buckets, day, m, d);
    }
  }

  /** One more entry at the end is one more count of its mood. */
  lemma CountMoodsSnoc(entries: seq<MoodEntry>, e: MoodEntry)
    ensures CountMoods(entries + [e]) == Increment(CountMoods(entries), e.mood)
  {
    assert (entries + [e])[..|entries|] == entries;
  }

  /** The grouped counts of day `d` are the mood counts of that day's entries. */
  lemma {:induction false} GroupByDayCounts(history: seq<MoodEntry>, d: int)
    ensures CountsOn(GroupByDay(history), d) == CountMoods(EntriesOn(history, d))
  {
    if |history| > 0 {
      GroupByDayCounts(history[..|history| - 1], d);
      GroupStep(history, d);
    }
  }

  /** The inductive step of `GroupByDayCounts`: the last entry. */
  lemma GroupStep(history: seq<MoodEntry>, d: int)
    requires |history| > 0
    requires CountsOn(GroupByDay(history[..|history| - 1]), d) == CountMoods(EntriesOn(history[..|history| - 1], d))
    ensures CountsOn(GroupByDay(history), d) == CountMoods(EntriesOn(history, d))
  {
    var prefix, last := history[..|history| - 1], history[|history| - 1];
    AddToDayCounts(GroupByDay(prefix), DayOf(last.timestamp), last.mood, d);
    EntriesOnLast(history, d);
    if DayOf(last.timestamp) == d {
      CountMoodsSnoc(EntriesOn(prefix, d), last);
    }
  }

  /** `CountsOn` finds the first bucket of its day. */
  lemma {:induction false} CountsOnFirst(buckets: seq<DayBucket>, i: nat)
    requires i < |buckets|
    requires forall j :: 0 <= j < i ==> buckets[j].day != buckets[i].day
    ensures CountsOn(buckets, buckets[i].day) == buckets[i].counts
  {
    if i > 0 {
      var tail := buckets[1..];
      assert tail[i - 1] == buckets[i];
      forall j | 0 <= j < i - 1 ensures tail[j].day != tail[i - 1].day {
        assert tail[j] == buckets[j + 1];
      }
      CountsOnFirst(tail, i - 1);
    }
  }

  /** Each bucket of the grouping holds the mood counts of its own day's entries. */
  lemma GroupByDayBucket(history: seq<MoodEntry>, i: nat)
    requires i < |GroupByDay(history)|
    ensures GroupByDay(history)[i].counts == CountMoods(EntriesOn(history, GroupByDay(history)[i].day))
  {
    var g := GroupByDay(history);
    GroupByDayUnique(history);
    forall j | 0 <= j < i ensures g[j].day != g[i].day {
      DaysAt(g, j);
      DaysAt(g, i);
    }
    CountsOnFirst(g, i);
    GroupByDayCounts(history, g[i].day);
  }

  /** The buckets sorted by day. */
  function ChartData(history: seq<MoodEntry>): seq<DayBucket>
  {
    SortBy(GroupByDay(history), ByDay)
  }

  /** More than seven days: the last seven; otherwise all. */
  function DisplayWindow(chart: seq<DayBucket>): (r: seq<DayBucket>)
    ensures |chart| > 7 ==> |r| == 7 && chart == chart[..|chart| - 7] + r
    ensures |chart| <= 7 ==> r == chart
  {
    if |chart| > 7 then chart[|chart| - 7..] else chart
  }

  /** The chart's days strictly increase. */
  lemma ChartSorted(history: seq<MoodEntry>)
    ensures StrictlySortedBy(ChartData(history), ByDay)
  {
    var g := GroupByDay(history);
    GroupByDayUnique(history);
    UniqueDaysAt(g);
    SortByStrict(g, ByDay);
  }

  /** The chart holds the day buckets, one per day with entries, in strictly
      increasing day order. */
  lemma ChartSpec(history: seq<MoodEntry>)
    ensures multiset(ChartData(history)) == multiset(GroupByDay(history))
    ensures StrictlySortedBy(ChartData(history), ByDay)
    ensures forall i :: 0 <= i < |ChartData(history)| ==> ChartData(history)[i].day in EntryDays(history)
    ensures forall i :: 0 <= i < |ChartData(history)| ==>
              ChartData(history)[i].counts == CountMoods(EntriesOn(history, ChartData(history)[i].day))
    ensures forall d :: d in EntryDays(history) ==> exists i :: 0 <= i < |ChartData(history)| && ChartData(history)[i].day == d
  {
    SortByElements(GroupByDay(history), ByDay);
    ChartSorted(history);
    forall i | 0 <= i < |ChartData(history)|
      ensures ChartData(history)[i].day in EntryDays(history)
      ensures ChartData(history)[i].counts == CountMoods(EntriesOn(history, ChartData(history)[i].day))
    {
      ChartDayHasEntries(history, i);
    }
    forall d | d in EntryDays(history) ensures exists i :: 0 <= i < |ChartData(history)| && ChartData(history)[i].day == d {
      var i := ChartHasDay(history, d);
    }
  }

  /** Every charted day has entries, and its bucket counts them by mood. */
  lemma ChartDayHasEntries(history: seq<MoodEntry>, i: nat)
    requires i < |ChartData(history)|
    ensures ChartData(history)[i].day in EntryDays(history)
    ensures ChartData(history)[i].counts == CountMoods(EntriesOn(history, ChartData(history)[i].day))
  {
    var g, c := GroupByDay(history), ChartData(history);
    SortByElements(g, ByDay);
    assert c[i] in multiset(g);
    var q :| 0 <= q < |g| && g[q] == c[i];
    DaysAt(g, q);
    GroupByDayDays(history, c[i].day);
    GroupByDayBucket(history, q);
  }

  /** Every day with entries is charted. */
  lemma ChartHasDay(history: seq<MoodEntry>, d: int) returns (i: nat)
    requires d in EntryDays(history)
    ensures i < |ChartData(history)| && ChartData(history)[i].day == d
  {
    var g, c := GroupByDay(history), ChartData(history);
    SortByElements(g, ByDay);
    GroupByDayDays(history, d);
    var q :| 0 <= q < |g| && Days(g)[q] == d;
    DaysAt(g, q);
    assert g[q] in multiset(c);
    i :| 0 <= i < |c| && c[i] == g[q];
  }

  /** A suffix of a strictly ordered list is strictly ordered. */
  lemma StrictSuffix(s: seq<DayBucket>, k: nat)
    requires k <= |s| && StrictlySortedBy(s, ByDay)
    ensures StrictlySortedBy(s[k..], ByDay)
  {
    assert forall i :: 0 <= i < |s| - k ==> s[k..][i] == s[k + i];
  }

  /** The displayed days are the latest seven of the chart, still in increasing
      day order. */
  lemma DisplaySpec(history: seq<MoodEntry>)
    ensures var c, w := ChartData(history), DisplayWindow(ChartData(history));
            && |w| == (if |c| > 7 then 7 else |c|)
            && (forall i :: 0 <= i < |w| ==> w[i] == c[|c| - |w| + i])
            && StrictlySortedBy(w, ByDay)
  {
    ChartSorted(history);
    WindowSpec(ChartData(history));
  }

  lemma WindowSpec(c: seq<DayBucket>)
    requires StrictlySortedBy(c, ByDay)
    ensures var w := DisplayWindow(c);
            && |w| == (if |c| > 7 then 7 else |c|)
            && (forall i :: 0 <= i < |w| ==> w[i] == c[|c| - |w| + i])
            && StrictlySortedBy(w, ByDay)
  {
    var w := DisplayWindow(c);
    StrictSuffix(c, |c| - |w|);
    assert w == c[|c| - |w|..];
  }

  /** The `forEach` that counts every entry under its mood. */
  method TotalMoods(history: seq<MoodEntry>) returns (totals: MoodCounts)
    ensures totals == CountMoods(history)
  {
    totals := NoMoods;
    for i := 0 to |history|
      invariant totals == CountMoods(history[..i])
    {
      assert history[..i + 1][..i] == history[..i];
      totals := Increment(totals, history[i].mood);
    }
    assert history[..|history|] == history;
  }

  /** Everything the insight card shows. */
  datatype StatsView = StatsView(days: seq<DayBucket>, totals: MoodCounts, dominant: Mood)

  /** The card for a history, or nothing for fewer than three entries. */
  function View(history: seq<MoodEntry>): Option<StatsView>
  {
    if |history| < 3 then None
    else
      var totals := CountMoods(history);
      Some(StatsView(DisplayWindow(ChartData(history)), totals, Dominant(totals)))
  }

  /** The card computed the way the component does it. */
  method ComputeView(history: seq<MoodEntry>) returns (view: Option<StatsView>)
    ensures view == View(history)
  {
    if |history| < 3 {
      return None;
    }
    var days := DisplayWindow(ChartData(history));
    var totals := TotalMoods(history);
    var dominant, _ := PickDominant(totals);
    view := Some(StatsView(days, totals, dominant));
  }

  /** The card is shown from three entries on; its totals count every entry once,
      under its mood; the dominant mood has the highest total (first of happy, sad,
      neutral on a tie); the shown days are the last seven of the chart. */
  lemma ViewSpec(history: seq<MoodEntry>)
    ensures View(history).None? <==> |history| < 3
    ensures View(history).Some? ==>
              var v := View(history).value;
              && Total(v.totals) == |history|
              && (forall m :: CountOf(v.totals, m) == Count(MoodsOf(history), m))
              && (forall m :: CountOf(v.totals, m) <= CountOf(v.totals, v.dominant))
              && (forall m :: CountOf(v.totals, m) == CountOf(v.totals, v.dominant) ==> Rank(v.dominant) <= Rank(m))
              && |v.days| == (if |ChartData(history)| > 7 then 7 else |ChartData(history)|)
  {
    if |history| >= 3 {
      var totals := CountMoods(history);
      CountMoodsSpec(history);
      DominantSpec(totals);
    }
  }
}

/**
 * The insight card's message for the dominant mood (src/components/MoodStats.js).
 * Kept apart from the counting so that the long message texts stay out of the
 * proofs about buckets.
 */
module MoodMessages {
  import opened Moods

  const HappyMessage := "You've been mostly happy! Keep up the positive energy and remember to share your joy with others."
  const SadMessage := "You've been feeling down lately. Remember that it's okay to feel this way, and consider trying some of our mood-boosting activities."
  const NeutralMessage := "Your mood has been mostly neutral. This is a great opportunity to try new activities that could bring more joy to your day."
  const GeneralMessage := "Keep tracking your mood to see patterns and get personalized insights."

  /** The insight message for a mood label, with a general one for other labels. */
  function GetMoodMessage(mood: string): string
  {
    if mood == "happy" then HappyMessage
    else if mood == "sad" then SadMessage
    else if mood == "neutral" then NeutralMessage
    else GeneralMessage
  }

  /** The three moods have three different messages, each different from the
      general one that every other label gets. */
  lemma MoodMessageSpec(a: Mood, b: Mood, other: string)
    ensures a != b ==> GetMoodMessage(MoodName(a)) != GetMoodMessage(MoodName(b))
    ensures GetMoodMessage(MoodName(a)) != GeneralMessage
    ensures (forall m :: other != MoodName(m)) ==> GetMoodMessage(other) == GeneralMessage
  {
    assert |HappyMessage| == 97 && |SadMessage| == 132 && |NeutralMessage| == 123 && |GeneralMessage| == 70;
    if forall m :: other != MoodName(m) {
      assert other != MoodName(Happy) && other != MoodName(Sad) && other != MoodName(Neutral);
    }
  }
}
