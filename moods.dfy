/**
 * The data model shared by the detector, the game controller, the storage helpers
 * and the views: the three mood categories, per-mood counters, and the two kinds of
 * history record the game appends.
 */
module Moods {
  import opened Wrappers
  import opened Ranking

  /** The simplified mood categories; the order of the constructors is the key order
      of the `{ happy, sad, neutral }` counter objects. */
  datatype Mood = Happy | Sad | Neutral

  /** The mood's label as stored and displayed. */
  function MoodName(m: Mood): string
  {
    match m
    case Happy => "happy"
    case Sad => "sad"
    case Neutral => "neutral"
  }

  /** The label of a mood names that mood and no other. */
  lemma MoodNameInjective(a: Mood, b: Mood)
    ensures MoodName(a) == MoodName(b) <==> a == b
  {
    if a != b {
      assert MoodName(a)[0] != MoodName(b)[0];
    }
  }

  /** Position of a mood in the key order happy, sad, neutral. */
  function Rank(m: Mood): nat
  {
    match m
    case Happy => 0
    case Sad => 1
    case Neutral => 2
  }

  /** A `{ happy, sad, neutral }` counter object. */
  datatype MoodCounts = MoodCounts(happy: nat, sad: nat, neutral: nat)

  const NoMoods := MoodCounts(0, 0, 0)

  function CountOf(c: MoodCounts, m: Mood): nat
  {
    match m
    case Happy => c.happy
    case Sad => c.sad
    case Neutral => c.neutral
  }

  function Total(c: MoodCounts): nat
  {
    c.happy + c.sad + c.neutral
  }

  /** One more entry of mood `m`. */
  function Increment(c: MoodCounts, m: Mood): (r: MoodCounts)
    ensures CountOf(r, m) == CountOf(c, m) + 1
    ensures forall o :: o != m ==> CountOf(r, o) == CountOf(c, o)
    ensures Total(r) == Total(c) + 1
  {
    match m
    case Happy => c.(happy := c.happy + 1)
    case Sad => c.(sad := c.sad + 1)
    case Neutral => c.(neutral := c.neutral + 1)
  }

  /** The counter's entries in property order: happy, sad, neutral. */
  function CountEntries(c: MoodCounts): seq<(Mood, real)>
  {
    [(Happy, c.happy as real), (Sad, c.sad as real), (Neutral, c.neutral as real)]
  }

  /** The dominant-mood scan: start from ('neutral', 0) and take a mood only when its
      count is strictly higher than the best so far. */
  function DominantEntry(c: MoodCounts): (Mood, real)
  {
    FirstMax(CountEntries(c), (Neutral, 0.0))
  }

  function Dominant(c: MoodCounts): Mood
  {
    DominantEntry(c).0
  }

  /** The highest count, which is what the scan's running score ends at. */
  function HighestCount(c: MoodCounts): nat
  {
    if c.happy >= c.sad && c.happy >= c.neutral then c.happy
    else if c.sad >= c.neutral then c.sad
    else c.neutral
  }

  /** The dominant mood has the highest count; among moods with that count it is the
      first in the order happy, sad, neutral; with no counts at all it is neutral. */
  lemma DominantSpec(c: MoodCounts)
    ensures DominantEntry(c).1 == HighestCount(c) as real
    ensures forall m :: CountOf(c, m) <= HighestCount(c)
    ensures Total(c) > 0 ==> CountOf(c, Dominant(c)) == HighestCount(c) > 0
    ensures Total(c) == 0 ==> Dominant(c) == Neutral
    ensures forall m :: CountOf(c, m) == HighestCount(c) > 0 ==> Rank(Dominant(c)) <= Rank(m)
  {
    DominantEntryUnrolled(c);
  }

  /** The scan over the three entries, step by step. */
  lemma DominantEntryUnrolled(c: MoodCounts)
    ensures var b1 := if c.happy > 0 then (Happy, c.happy as real) else (Neutral, 0.0);
            var b2 := if c.sad as real > b1.1 then (Sad, c.sad as real) else b1;
            DominantEntry(c) == if c.neutral as real > b2.1 then (Neutral, c.neutral as real) else b2
  {
    var e := CountEntries(c);
    var b1 := if e[0].1 > 0.0 then e[0] else (Neutral, 0.0);
    var b2 := if e[1].1 > b1.1 then e[1] else b1;
    assert e[1..][1..] == [e[2]] && e[2..][1..] == [];
    var b3 := if e[2].1 > b2.1 then e[2] else b2;
    assert DominantEntry(c) == FirstMax(e[1..], b1) == FirstMax([e[2]], b2) == FirstMax([], b3);
  }

  /** The loop over the counter's entries that finds the dominant mood. */
  method PickDominant(c: MoodCounts) returns (mood: Mood, highest: nat)
    ensures mood == Dominant(c) && highest == HighestCount(c)
  {
    var best := PickFirstMax(CountEntries(c), (Neutral, 0.0));
    DominantSpec(c);
    mood, highest := best.0, best.1.Floor;
  }

  /** One detected mood as the game records it; timestamps are abstract instants. */
  datatype MoodEntry = MoodEntry(
    mood: Mood,
    timestamp: int,
    confidence: real,
    rawExpression: string,
    activityId: Option<string>)

  /** Seconds in a day. */
  const SecondsPerDay := 86400

  /** The calendar day an instant falls on. Instants are whole seconds counted in
      local time, so the day is the quotient by the length of a day; this stands
      for comparing `toLocaleDateString()` renderings. */
  function DayOf(timestamp: int): int
  {
    timestamp / SecondsPerDay
  }

  /** One completed activity as the game records it. */
  datatype CompletedActivity = CompletedActivity(id: string, name: string, mood: Mood, timestamp: int)

  function MoodsOf(history: seq<MoodEntry>): (r: seq<Mood>)
    ensures |r| == |history|
    ensures forall i :: 0 <= i < |history| ==> r[i] == history[i].mood
  {
    seq(|history|, i requires 0 <= i < |history| => history[i].mood)
  }

  /** The counts of a history, folded entry by entry from zero counts. */
  function CountMoods(history: seq<MoodEntry>): MoodCounts
  {
    if |history| == 0 then NoMoods
    else Increment(CountMoods(history[..|history| - 1]), history[|history| - 1].mood)
  }

  lemma MoodsOfSnoc(history: seq<MoodEntry>)
    requires |history| > 0
    ensures MoodsOf(history) == MoodsOf(history[..|history| - 1]) + [history[|history| - 1].mood]
  {
  }

  /** Every entry is counted once, under its own mood. */
  lemma {:induction false} CountMoodsSpec(history: seq<MoodEntry>)
    ensures Total(CountMoods(history)) == |history|
    ensures forall m :: CountOf(CountMoods(history), m) == Count(MoodsOf(history), m)
  {
    if |history| > 0 {
      var prefix, last := history[..|history| - 1], history[|history| - 1].mood;
      CountMoodsSpec(prefix);
      MoodsOfSnoc(history);
      forall m ensures CountOf(CountMoods(history), m) == Count(MoodsOf(history), m) {
        CountAppend(MoodsOf(prefix), last, m);
      }
    }
  }

  /** The entries of day `d`, in history order. */
  function EntriesOn(history: seq<MoodEntry>, d: int): seq<MoodEntry>
  {
    if |history| == 0 then []
    else
      var prefix, last := history[..|history| - 1], history[|history| - 1];
      EntriesOn(prefix, d) + (if DayOf(last.timestamp) == d then [last] else [])
  }

  /** `EntriesOn` keeps each entry of day `d` as often as the history has it, and
      no entry of another day. */
  lemma {:induction false} EntriesOnSpec(history: seq<MoodEntry>, d: int, e: MoodEntry)
    ensures multiset(EntriesOn(history, d))[e] == if DayOf(e.timestamp) == d then multiset(history)[e] else 0
  {
    if |history| > 0 {
      var prefix, last := history[..|history| - 1], history[|history| - 1];
      EntriesOnSpec(prefix, d, e);
      assert history == prefix + [last];
      assert multiset(history) == multiset(prefix) + multiset{last};
    }
  }

  /** The last entry joins the entries of day `d` exactly when it is of that day. */
  lemma EntriesOnLast(history: seq<MoodEntry>, d: int)
    requires |history| > 0
    ensures var prefix, last := history[..|history| - 1], history[|history| - 1];
            EntriesOn(history, d) == if DayOf(last.timestamp) == d then EntriesOn(prefix, d) + [last] else EntriesOn(prefix, d)
  {
    var earlier := EntriesOn(history[..|history| - 1], d);
    assert earlier + [] == earlier;
  }

  /** The filter works piece by piece: the entries of day `d` in two histories
      one after the other are those of the first followed by those of the second,
      so `EntriesOn` keeps the history's order. */
  lemma {:induction false} EntriesOnAppend(a: seq<MoodEntry>, b: seq<MoodEntry>, d: int)
    ensures EntriesOn(a + b, d) == EntriesOn(a, d) + EntriesOn(b, d)
  {
    if |b| == 0 {
      assert a + b == a;
      assert EntriesOn(a, d) + [] == EntriesOn(a, d);
    } else {
      var front, last := b[..|b| - 1], b[|b| - 1];
      assert (a + b)[..|a + b| - 1] == a + front;
      assert (a + b)[|a + b| - 1] == last;
      EntriesOnAppend(a, front, d);
      var tail := if DayOf(last.timestamp) == d then [last] else [];
      assert EntriesOn(a, d) + EntriesOn(front, d) + tail == EntriesOn(a, d) + (EntriesOn(front, d) + tail);
    }
  }

  /** A single entry is kept exactly when it is of day `d`. */
  lemma EntriesOnSingle(e: MoodEntry, d: int)
    ensures EntriesOn([e], d) == if DayOf(e.timestamp) == d then [e] else []
  {
    assert [e][..0] == [];
  }
}
