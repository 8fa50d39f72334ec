/**
 * The persistence helpers of src/utils/localStorageUtils.js over an abstract
 * browser store: a map from keys to the records saved under them. A record is
 * what serialising and parsing the saved object gives back, so it is kept as a value;
 * the two optional fields stand for properties that may be absent.
 */
module Storage {
  import opened Wrappers
  import opened Ranking
  import opened Moods

  /** The key all of the app's data is saved under. */
  const StorageKey := "mood-booster-data"

  /** The saved object: either list may be missing. */
  datatype StoredData = StoredData(
    moodHistory: Option<seq<MoodEntry>>,
    completedActivities: Option<seq<CompletedActivity>>)

  /** The `{}` that a save starts from when nothing is stored yet. */
  const EmptyData := StoredData(None, None)

  /** What `getMoodStatistics` reports. */
  datatype MoodStatistics = MoodStatistics(
    totalEntries: nat,
    moodCounts: MoodCounts,
    dominantMood: Mood,
    mostRecentMood: Mood,
    lastUpdated: Option<int>)

  /** The statistics of an empty history. */
  const NoStatistics := MoodStatistics(0, NoMoods, Neutral, Neutral, None)

  /** (mood, timestamp) of each entry, the timestamp as the sort key. */
  function Stamps(history: seq<MoodEntry>): (r: seq<(MoodEntry, real)>)
    ensures |r| == |history|
    ensures forall i :: 0 <= i < |history| ==> r[i] == (history[i], history[i].timestamp as real)
  {
    seq(|history|, i requires 0 <= i < |history| => (history[i], history[i].timestamp as real))
  }

  /** The head of the history sorted newest first. The sort is stable, so among
      entries with the latest timestamp it is the earliest one. */
  function MostRecent(history: seq<MoodEntry>): MoodEntry
    requires |history| > 0
  {
    FirstMax(Stamps(history[1..]), (history[0], history[0].timestamp as real)).0
  }

  /** The most recent entry has the latest timestamp, and every entry before it in
      the history is strictly older. */
  lemma MostRecentSpec(history: seq<MoodEntry>)
    requires |history| > 0
    ensures exists k :: 0 <= k < |history| && history[k] == MostRecent(history) &&
              (forall j :: 0 <= j < |history| ==> history[j].timestamp <= history[k].timestamp) &&
              (forall j :: 0 <= j < k ==> history[j].timestamp < history[k].timestamp)
  {
    var all := Stamps(history);
    assert all[1..] == Stamps(history[1..]);
    var k := FirstMaxOfAll(all);
    assert history[k] == MostRecent(history);
  }

  /** The statistics of a history, as `getMoodStatistics` computes them. */
  function MoodStatisticsOf(history: seq<MoodEntry>): MoodStatistics
  {
    if |history| == 0 then NoStatistics
    else
      var counts := CountMoods(history);
      var recent := MostRecent(history);
      MoodStatistics(|history|, counts, Dominant(counts), recent.mood, Some(recent.timestamp))
  }

  /** An empty history gives zeros, neutral and no date. */
  lemma MoodStatisticsEmpty(history: seq<MoodEntry>)
    requires |history| == 0
    ensures MoodStatisticsOf(history) == NoStatistics
  {
  }

  /** The counts add up to the number of entries and count each mood's entries,
      and the dominant mood has the highest count (the first of happy, sad, neutral
      on a tie; neutral when there are no entries). */
  lemma MoodStatisticsCounts(history: seq<MoodEntry>)
    ensures MoodStatisticsOf(history).totalEntries == |history|
    ensures Total(MoodStatisticsOf(history).moodCounts) == |history|
    ensures forall m :: CountOf(MoodStatisticsOf(history).moodCounts, m) == Count(MoodsOf(history), m)
    ensures |history| > 0 ==> MoodStatisticsOf(history).dominantMood == Dominant(MoodStatisticsOf(history).moodCounts)
  {
    CountMoodsSpec(history);
  }

  /** With entries, the dominant mood has the highest count, and among moods with
      that count it is the first in the order happy, sad, neutral. */
  lemma MoodStatisticsDominant(history: seq<MoodEntry>)
    requires |history| > 0
    ensures var c, d := MoodStatisticsOf(history).moodCounts, MoodStatisticsOf(history).dominantMood;
            && (forall m :: CountOf(c, m) <= CountOf(c, d))
            && (forall m :: CountOf(c, m) == CountOf(c, d) ==> Rank(d) <= Rank(m))
  {
    var c := CountMoods(history);
    CountMoodsSpec(history);
    DominantSpec(c);
  }

  /** The most recent mood and date are those of an entry no other entry is newer
      than. */
  lemma MoodStatisticsRecent(history: seq<MoodEntry>)
    requires |history| > 0
    ensures var s := MoodStatisticsOf(history);
            exists k :: 0 <= k < |history| && s.mostRecentMood == history[k].mood &&
              s.lastUpdated == Some(history[k].timestamp) &&
              forall j :: 0 <= j < |history| ==> history[j].timestamp <= history[k].timestamp
  {
    MostRecentSpec(history);
  }

  /** The browser's store, holding one record per key. */
  class LocalStorage {
    var items: map<string, StoredData>

    constructor(items: map<string, StoredData>)
      ensures this.items == items
    {
      this.items := items;
    }

    /** `saveToLocalStorage`: stores the record under the app's key. */
    method Save(data: StoredData) returns (ok: bool)
      modifies this
      ensures items == old(items)[StorageKey := data]
      ensures Load() == Some(data)
      ensures ok
    {
      items := items[StorageKey := data];
      ok := true;
    }

    /** `loadFromLocalStorage`: the stored record, or `null` when there is none. */
    function Load(): (r: Option<StoredData>)
      reads this
      ensures r.None? <==> StorageKey !in items
      ensures r.Some? ==> r.value == items[StorageKey]
    {
      if StorageKey in items then Some(items[StorageKey]) else None
    }

    /** `clearLocalStorage`: removes the app's record and nothing else. */
    method Clear() returns (ok: bool)
      modifies this
      ensures items == old(items) - {StorageKey}
      ensures Load().None? && GetMoodHistory() == [] && GetCompletedActivities() == [] && !HasExistingData()
      ensures ok
    {
      items := items - {StorageKey};
      ok := true;
    }

    /** `saveMoodHistory`: replaces the history in the stored record (or in a fresh
        one), keeping its completed activities. */
    method SaveMoodHistory(history: seq<MoodEntry>) returns (ok: bool)
      modifies this
      ensures items == old(items)[StorageKey := old(Load()).GetOr(EmptyData).(moodHistory := Some(history))]
      ensures GetMoodHistory() == history && GetCompletedActivities() == old(GetCompletedActivities())
      ensures ok
    {
      var existing := Load().GetOr(EmptyData);
      existing := existing.(moodHistory := Some(history));
      var _ := Save(existing);
      ok := true;
    }

    /** `saveCompletedActivities`: the mirror image of `SaveMoodHistory`. */
    method SaveCompletedActivities(completed: seq<CompletedActivity>) returns (ok: bool)
      modifies this
      ensures items == old(items)[StorageKey := old(Load()).GetOr(EmptyData).(completedActivities := Some(completed))]
      ensures GetCompletedActivities() == completed && GetMoodHistory() == old(GetMoodHistory())
      ensures ok
    {
      var existing := Load().GetOr(EmptyData);
      existing := existing.(completedActivities := Some(completed));
      var _ := Save(existing);
      ok := true;
    }

    /** `getMoodHistory`: the stored history, or the empty list. */
    function GetMoodHistory(): (r: seq<MoodEntry>)
      reads this
      ensures Load().None? || Load().value.moodHistory.None? ==> r == []
      ensures Load().Some? && Load().value.moodHistory.Some? ==> r == Load().value.moodHistory.value
    {
      if Load().Some? then Load().value.moodHistory.GetOr([]) else []
    }

    /** `getCompletedActivities`: the stored list, or the empty list. */
    function GetCompletedActivities(): (r: seq<CompletedActivity>)
      reads this
      ensures Load().None? || Load().value.completedActivities.None? ==> r == []
      ensures Load().Some? && Load().value.completedActivities.Some? ==> r == Load().value.completedActivities.value
    {
      if Load().Some? then Load().value.completedActivities.GetOr([]) else []
    }

    /** `hasExistingData`: a record is stored and one of its lists is non-empty. */
    function HasExistingData(): (r: bool)
      reads this
      ensures r <==> |GetMoodHistory()| > 0 || |GetCompletedActivities()| > 0
    {
      var data := Load();
      data.Some? &&
        ((data.value.moodHistory.Some? && |data.value.moodHistory.value| > 0) ||
         (data.value.completedActivities.Some? && |data.value.completedActivities.value| > 0))
    }

    /** `getMoodStatistics` on the stored history. */
    method GetMoodStatistics() returns (stats: MoodStatistics)
      ensures stats == MoodStatisticsOf(GetMoodHistory())
    {
      var history := GetMoodHistory();
      if |history| == 0 {
        return NoStatistics;
      }
      var counts := CountMoods(history);
      var dominant, _ := PickDominant(counts);
      var recent := PickFirstMax(Stamps(history[1..]), (history[0], history[0].timestamp as real));
      stats := MoodStatistics(|history|, counts, dominant, recent.0.mood, Some(recent.0.timestamp));
    }
  }
}
