/**
 * The game controller of src/components/MoodBoosterGame.js: the screen the game
 * is on, the detected mood, the suggested activity, the error shown, and the two
 * lists the game keeps (mood history and completed activities). The handlers are
 * methods; the activity selector is a pipeline of functions. The camera, the
 * clock and `Math.random` are inputs of the handlers; the browser store is a
 * `Storage.LocalStorage`.
 */
module MoodBoosterGame {
  import opened Wrappers
  import opened Moods
  import opened Activities
  import opened FaceDetection
  import opened Storage

  /** The screens of the game. */
  datatype Phase = Loading | Error | Start | Detecting | Suggestion

  const ModelLoadFailedMessage := "Failed to load facial detection models. Please refresh the page or try a different browser."
  const DetectionFallbackMessage := "Something went wrong with mood detection. Please try again."

  /** How many samples the game asks the aggregator for. */
  const GameSamples := 5

  // ---------------------------------------------------------------------------
  // Activity selection

  /** The last three entries, or all of them when there are fewer. */
  function LastThree(history: seq<MoodEntry>): (r: seq<MoodEntry>)
    ensures |r| == if |history| < 3 then |history| else 3
    ensures forall j :: 0 <= j < |r| ==> r[j] == history[|history| - |r| + j]
  {
    if |history| < 3 then history else history[|history| - 3..]
  }

  /** The activity ids recorded on the entries of mood `m`, in order, skipping
      entries without one. */
  function IdsOfMood(entries: seq<MoodEntry>, m: Mood): (r: seq<string>)
    ensures |r| <= |entries|
    ensures forall id :: id in r <==> exists j :: 0 <= j < |entries| && entries[j].mood == m && entries[j].activityId == Some(id)
  {
    if |entries| == 0 then []
    else
      var e := entries[0];
      var rest := IdsOfMood(entries[1..], m);
      assert forall j :: 0 < j < |entries| ==> entries[j] == entries[1..][j - 1];
      if e.mood == m && e.activityId.Some? then [e.activityId.value] + rest else rest
  }

  /** The ids suggested for mood `m` among the last three detections. */
  function RecentActivityIds(history: seq<MoodEntry>, m: Mood): seq<string>
  {
    if |history| > 0 then IdsOfMood(LastThree(history), m) else []
  }

  /** The recent ids are at most three, and are exactly the ids recorded on the
      entries of that mood among the last three entries. */
  lemma RecentActivityIdsSpec(history: seq<MoodEntry>, m: Mood, id: string)
    ensures |RecentActivityIds(history, m)| <= 3
    ensures id in RecentActivityIds(history, m) <==>
              exists k :: |history| - 3 <= k < |history| && 0 <= k && history[k].mood == m && history[k].activityId == Some(id)
  {
    if |history| > 0 {
      var last := LastThree(history);
      var offset := |history| - |last|;
      assert offset == if |history| < 3 then 0 else |history| - 3;
      var r := RecentActivityIds(history, m);
      assert r == IdsOfMood(last, m);
      if id in r {
        var j :| 0 <= j < |last| && last[j].mood == m && last[j].activityId == Some(id);
        assert history[offset + j] == last[j];
      }
      if exists k :: |history| - 3 <= k < |history| && 0 <= k && history[k].mood == m && history[k].activityId == Some(id) {
        var k :| |history| - 3 <= k < |history| && 0 <= k && history[k].mood == m && history[k].activityId == Some(id);
        assert last[k - offset] == history[k];
      }
    }
  }

  /** The activities whose id is not among `recent`, in catalog order. */
  function Available(acts: seq<Activity>, recent: seq<string>): (r: seq<Activity>)
    ensures |r| <= |acts|
    ensures forall a :: a in r <==> a in acts && a.id !in recent
    ensures (forall a :: a in acts ==> a.id in recent) ==> r == []
  {
    if |acts| == 0 then []
    else
      var rest := Available(acts[1..], recent);
      assert acts == [acts[0]] + acts[1..];
      if acts[0].id !in recent then [acts[0]] + rest else rest
  }

  /** `Available` keeps every non-recent activity as often as the catalog lists it,
      and drops every recent one. */
  lemma {:induction false} AvailableCounts(acts: seq<Activity>, recent: seq<string>, a: Activity)
    ensures multiset(Available(acts, recent))[a] == if a.id in recent then 0 else multiset(acts)[a]
  {
    if |acts| > 0 {
      AvailableCounts(acts[1..], recent, a);
      assert acts == [acts[0]] + acts[1..];
      assert multiset(acts) == multiset{acts[0]} + multiset(acts[1..]);
    }
  }

  /** The filter works piece by piece: on two catalogs one after the other it gives
      the result for the first followed by the result for the second, so `Available`
      keeps the catalog order. */
  lemma {:induction false} AvailableAppend(a: seq<Activity>, b: seq<Activity>, recent: seq<string>)
    ensures Available(a + b, recent) == Available(a, recent) + Available(b, recent)
  {
    if |a| == 0 {
      assert a + b == b;
    } else {
      assert (a + b)[0] == a[0];
      assert (a + b)[1..] == a[1..] + b;
      AvailableAppend(a[1..], b, recent);
      var head := if a[0].id !in recent then [a[0]] else [];
      assert head + (Available(a[1..], recent) + Available(b, recent)) == head + Available(a[1..], recent) + Available(b, recent);
    }
  }

  /** What the selector draws from: the non-recent activities of the mood, or all
      of them when every one is recent. */
  function ActivityPool(history: seq<MoodEntry>, m: Mood): (r: seq<Activity>)
    ensures |r| > 0
  {
    var available := Available(ActivitiesFor(m), RecentActivityIds(history, m));
    if |available| > 0 then available else ActivitiesFor(m)
  }

  /** The index a random draw `rand` in [0, 1) picks among `n` items: the floor
      of `rand * n`. */
  function ChosenIndex(rand: real, n: nat): (r: nat)
    requires 0.0 <= rand < 1.0 && n > 0
    ensures r < n
    ensures r as real <= rand * n as real < r as real + 1.0
  {
    assert rand * n as real < n as real;
    (rand * n as real).Floor
  }

  /** The activity suggested for mood `m` after a detection, given the history
      before it and the random draw. */
  function ChooseActivity(history: seq<MoodEntry>, m: Mood, rand: real): Activity
    requires 0.0 <= rand < 1.0
  {
    var pool := ActivityPool(history, m);
    pool[ChosenIndex(rand, |pool|)]
  }

  /** Whatever the draw, the suggestion is an activity of the mood; it was not
      suggested for this mood in the last three detections unless all of the
      mood's activities were; in that case the pool is the mood's whole list. */
  lemma ChooseActivitySpec(history: seq<MoodEntry>, m: Mood, rand: real)
    requires 0.0 <= rand < 1.0
    ensures ChooseActivity(history, m, rand) in ActivitiesFor(m)
    ensures (exists a :: a in ActivitiesFor(m) && a.id !in RecentActivityIds(history, m)) ==>
              ChooseActivity(history, m, rand).id !in RecentActivityIds(history, m)
    ensures (forall a :: a in ActivitiesFor(m) ==> a.id in RecentActivityIds(history, m)) ==>
              ActivityPool(history, m) == ActivitiesFor(m)
  {
    var recent := RecentActivityIds(history, m);
    var available := Available(ActivitiesFor(m), recent);
    var pool := ActivityPool(history, m);
    var a := pool[ChosenIndex(rand, |pool|)];
    assert a in pool;
    if exists b :: b in ActivitiesFor(m) && b.id !in recent {
      var b :| b in ActivitiesFor(m) && b.id !in recent;
      assert b in available;
    }
  }

  // The fallback never applies: at most three ids are recent and the catalog
  // has eight distinct ids per mood.

  /** The ids of a list of activities. */
  function Ids(acts: seq<Activity>): (r: seq<string>)
    ensures |r| == |acts|
    ensures forall i :: 0 <= i < |acts| ==> r[i] == acts[i].id
  {
    seq(|acts|, i requires 0 <= i < |acts| => acts[i].id)
  }

  /** No value occurs twice. */
  predicate NoDuplicates(s: seq<string>)
  {
    |s| == 0 || (s[0] !in s[1..] && NoDuplicates(s[1..]))
  }

  /** The ids of `acts` that are among `recent`, in order. */
  function Excluded(acts: seq<Activity>, recent: seq<string>): (r: seq<string>)
    ensures |Available(acts, recent)| + |r| == |acts|
    ensures forall x :: x in r ==> x in recent && x in Ids(acts)
    ensures NoDuplicates(Ids(acts)) ==> NoDuplicates(r)
  {
    if |acts| == 0 then []
    else
      var rest := Excluded(acts[1..], recent);
      assert Ids(acts) == [acts[0].id] + Ids(acts[1..]);
      if acts[0].id in recent then [acts[0].id] + rest else rest
  }

  /** `s` with every occurrence of `x` removed. */
  function RemoveAll(s: seq<string>, x: string): (r: seq<string>)
    ensures x in s ==> |r| < |s|
    ensures |r| <= |s|
    ensures forall y :: y in r <==> y in s && y != x
  {
    if |s| == 0 then []
    else
      var rest := RemoveAll(s[1..], x);
      assert s == [s[0]] + s[1..];
      if s[0] == x then rest else [s[0]] + rest
  }

  /** A list without duplicates that lies inside `t` is no longer than `t`. */
  lemma {:induction false} NoDuplicatesBound(s: seq<string>, t: seq<string>)
    requires NoDuplicates(s)
    requires forall x :: x in s ==> x in t
    ensures |s| <= |t|
  {
    if |s| > 0 {
      var t' := RemoveAll(t, s[0]);
      forall x | x in s[1..] ensures x in t' {
        assert x in s;
      }
      NoDuplicatesBound(s[1..], t');
    }
  }

  /** A list whose positions hold different values has no duplicates. */
  lemma {:induction false} DistinctNoDuplicates(s: seq<string>)
    requires forall i, j :: 0 <= i < j < |s| ==> s[i] != s[j]
    ensures NoDuplicates(s)
  {
    if |s| > 0 {
      forall j | 0 <= j < |s[1..]| ensures s[1..][j] != s[0] {
        assert s[1..][j] == s[j + 1];
      }
      assert forall i, j :: 0 <= i < j < |s[1..]| ==> s[1..][i] != s[1..][j] by {
        forall i, j | 0 <= i < j < |s[1..]| ensures s[1..][i] != s[1..][j] {
          assert s[1..][i] == s[i + 1] && s[1..][j] == s[j + 1];
        }
      }
      DistinctNoDuplicates(s[1..]);
    }
  }

  /** At least five of a mood's eight activities are always available, so the
      pool is never the fallback and the suggestion is never a recent one. */
  lemma AvailableNeverEmpty(history: seq<MoodEntry>, m: Mood)
    ensures |Available(ActivitiesFor(m), RecentActivityIds(history, m))| >= 5
    ensures ActivityPool(history, m) == Available(ActivitiesFor(m), RecentActivityIds(history, m))
  {
    var acts := ActivitiesFor(m);
    var recent := RecentActivityIds(history, m);
    forall i, j | 0 <= i < j < |Ids(acts)| ensures Ids(acts)[i] != Ids(acts)[j] {
      IdsDistinct(m, i, m, j);
    }
    DistinctNoDuplicates(Ids(acts));
    RecentActivityIdsSpec(history, m, "");
    NoDuplicatesBound(Excluded(acts, recent), recent);
  }

  // ---------------------------------------------------------------------------
  // Records the game appends

  /** The history after a detection of mood `m` with confidence `confidence` at
      instant `now`: one entry more, recording the suggested activity. */
  function RecordDetection(history: seq<MoodEntry>, m: Mood, confidence: real, now: int, chosen: Activity): (r: seq<MoodEntry>)
    ensures |r| == |history| + 1 && r[..|history|] == history
    ensures r[|history|].mood == m && r[|history|].timestamp == now
    ensures r[|history|].rawExpression == MoodName(m)
    ensures r[|history|].confidence == if confidence == 0.0 then 0.5 else confidence
    ensures r[|history|].activityId == Some(chosen.id)
  {
    // a zero confidence is replaced by 0.5; the aggregate result carries no raw
    // expression, so the entry falls back to the mood's label
    var confidence' := if confidence == 0.0 then 0.5 else confidence;
    history + [MoodEntry(m, now, confidence', MoodName(m), Some(chosen.id))]
  }

  /** The completed-activity list with one more record, of the current mood. */
  function RecordCompletion(completed: seq<CompletedActivity>, activity: Activity, m: Mood, now: int): (r: seq<CompletedActivity>)
    ensures |r| == |completed| + 1 && r[..|completed|] == completed
    ensures r[|completed|].id == activity.id && r[|completed|].name == activity.name
    ensures r[|completed|].mood == m && r[|completed|].timestamp == now
  {
    completed + [CompletedActivity(activity.id, activity.name, m, now)]
  }

  /** What the save effect writes: both lists, when either is non-empty. */
  function Snapshot(history: seq<MoodEntry>, completed: seq<CompletedActivity>): (r: Option<StoredData>)
    ensures r.Some? <==> |history| > 0 || |completed| > 0
    ensures r.Some? ==> r.value.moodHistory == Some(history) && r.value.completedActivities == Some(completed)
  {
    if |history| > 0 || |completed| > 0 then Some(StoredData(Some(history), Some(completed))) else None
  }

  // ---------------------------------------------------------------------------
  // The controller

  class Game {
    var phase: Phase
    var mood: Mood
    var activity: Option<Activity>
    var error: Option<string>
    var modelsLoaded: bool
    var moodHistory: seq<MoodEntry>
    var completedActivities: seq<CompletedActivity>

    /** The state when the component mounts. */
    constructor()
      ensures phase == Loading && mood == Neutral && activity.None? && error.None?
      ensures !modelsLoaded && moodHistory == [] && completedActivities == []
    {
      phase := Loading;
      mood := Neutral;
      activity := None;
      error := None;
      modelsLoaded := false;
      moodHistory := [];
      completedActivities := [];
    }

    /** The end of model loading: the start screen, or the error screen with its
        message. */
    method ModelsLoaded(loaded: bool)
      modifies this
      ensures modelsLoaded == loaded
      ensures phase == if loaded then Start else Error
      ensures error == if loaded then old(error) else Some(ModelLoadFailedMessage)
      ensures mood == old(mood) && activity == old(activity)
      ensures moodHistory == old(moodHistory) && completedActivities == old(completedActivities)
    {
      modelsLoaded := loaded;
      phase := if loaded then Start else Error;
      if !loaded {
        error := Some(ModelLoadFailedMessage);
      }
    }

    /** Loading the saved data: each list is taken from the stored record when
        the record has it. */
    method LoadSavedData(store: LocalStorage)
      modifies this
      ensures var saved := store.Load();
              && moodHistory == (if saved.Some? && saved.value.moodHistory.Some? then saved.value.moodHistory.value else old(moodHistory))
              && completedActivities == (if saved.Some? && saved.value.completedActivities.Some? then saved.value.completedActivities.value else old(completedActivities))
      ensures phase == old(phase) && mood == old(mood) && activity == old(activity)
      ensures error == old(error) && modelsLoaded == old(modelsLoaded)
    {
      var saved := store.Load();
      if saved.Some? {
        if saved.value.moodHistory.Some? {
          moodHistory := saved.value.moodHistory.value;
        }
        if saved.value.completedActivities.Some? {
          completedActivities := saved.value.completedActivities.value;
        }
      }
    }

    /** The save effect: both lists are written when either is non-empty, and the
        store is left alone otherwise. */
    method SaveIfChanged(store: LocalStorage)
      modifies store
      ensures Snapshot(moodHistory, completedActivities).Some? ==>
                store.items == old(store.items)[StorageKey := Snapshot(moodHistory, completedActivities).value]
      ensures Snapshot(moodHistory, completedActivities).None? ==> store.items == old(store.items)
      ensures |moodHistory| > 0 || |completedActivities| > 0 ==>
                store.GetMoodHistory() == moodHistory && store.GetCompletedActivities() == completedActivities
    {
      var data := Snapshot(moodHistory, completedActivities);
      if data.Some? {
        var _ := store.Save(data.value);
      }
    }

    /** `startDetection`: the camera screen, with the error cleared. */
    method StartDetection()
      modifies this
      ensures phase == Detecting && error.None?
      ensures mood == old(mood) && activity == old(activity) && modelsLoaded == old(modelsLoaded)
      ensures moodHistory == old(moodHistory) && completedActivities == old(completedActivities)
    {
      phase := Detecting;
      error := None;
    }

    /** `handleVideoReady`: runs the five-sample detection on the camera and
        handles its result. */
    method HandleVideoReady(video: Option<seq<Sample>>, now: int, rand: real)
      requires video.Some? ==> GameSamples <= |video.value|
      requires 0.0 <= rand < 1.0
      modifies this
      ensures DetectAdvanced(video, GameSamples).None? ==>
                && phase == Start && error == Some(DetectionFallbackMessage)
                && mood == old(mood) && activity == old(activity) && moodHistory == old(moodHistory)
      ensures var r := DetectAdvanced(video, GameSamples);
              r.Some? && r.value.DetectionFailed? ==>
                && phase == Start && error == Some(r.value.message)
                && mood == old(mood) && activity == old(activity) && moodHistory == old(moodHistory)
      ensures var r := DetectAdvanced(video, GameSamples);
              r.Some? && r.value.MoodFound? ==>
                && phase == Suggestion && error == old(error) && mood == r.value.mood
                && activity == Some(ChooseActivity(old(moodHistory), r.value.mood, rand))
                && moodHistory == RecordDetection(old(moodHistory), r.value.mood, r.value.confidence, now,
                                                  ChooseActivity(old(moodHistory), r.value.mood, rand))
      ensures completedActivities == old(completedActivities) && modelsLoaded == old(modelsLoaded)
    {
      var result := DetectFacialExpressionAdvanced(video, GameSamples);
      HandleResult(result, now, rand);
    }

    /** The handling of a detection result. A failure shows its message on the
        start screen; a mood records one history entry, suggests an activity
        chosen from the history as it was before, and shows the suggestion
        screen; no result at all shows the fallback message on the start screen. */
    method HandleResult(result: Option<AggregateResult>, now: int, rand: real)
      requires 0.0 <= rand < 1.0
      modifies this
      ensures result.None? ==>
                && phase == Start && error == Some(DetectionFallbackMessage)
                && mood == old(mood) && activity == old(activity) && moodHistory == old(moodHistory)
      ensures result.Some? && result.value.DetectionFailed? ==>
                && phase == Start && error == Some(result.value.message)
                && mood == old(mood) && activity == old(activity) && moodHistory == old(moodHistory)
      ensures result.Some? && result.value.MoodFound? ==>
                && phase == Suggestion && error == old(error) && mood == result.value.mood
                && activity == Some(ChooseActivity(old(moodHistory), result.value.mood, rand))
                && moodHistory == RecordDetection(old(moodHistory), result.value.mood, result.value.confidence, now,
                                                  ChooseActivity(old(moodHistory), result.value.mood, rand))
      ensures completedActivities == old(completedActivities) && modelsLoaded == old(modelsLoaded)
    {
      if result.Some? && result.value.DetectionFailed? {
        error := Some(result.value.message);
        phase := Start;
      } else if result.Some? {
        var chosen := ChooseActivity(moodHistory, result.value.mood, rand);
        Suggest(result.value.mood, result.value.confidence, now, chosen);
      } else {
        error := Some(DetectionFallbackMessage);
        phase := Start;
      }
    }

    /** The suggestion screen for a detected mood: the mood, the suggested
        activity, and the history with the detection recorded. */
    method Suggest(m: Mood, confidence: real, now: int, chosen: Activity)
      modifies this
      ensures phase == Suggestion && mood == m && activity == Some(chosen)
      ensures moodHistory == RecordDetection(old(moodHistory), m, confidence, now, chosen)
      ensures error == old(error) && completedActivities == old(completedActivities) && modelsLoaded == old(modelsLoaded)
    {
      mood := m;
      moodHistory := RecordDetection(moodHistory, m, confidence, now, chosen);
      activity := Some(chosen);
      phase := Suggestion;
    }

    /** `handleError`: the start screen with the camera's message. */
    method HandleError(message: string)
      modifies this
      ensures phase == Start && error == Some(message)
      ensures mood == old(mood) && activity == old(activity) && modelsLoaded == old(modelsLoaded)
      ensures moodHistory == old(moodHistory) && completedActivities == old(completedActivities)
    {
      error := Some(message);
      phase := Start;
    }

    /** `handleActivityComplete`: one record more, of the current mood. */
    method HandleActivityComplete(completed: Activity, now: int)
      modifies this
      ensures completedActivities == RecordCompletion(old(completedActivities), completed, mood, now)
      ensures phase == old(phase) && mood == old(mood) && activity == old(activity)
      ensures error == old(error) && modelsLoaded == old(modelsLoaded) && moodHistory == old(moodHistory)
    {
      completedActivities := RecordCompletion(completedActivities, completed, mood, now);
    }

    /** `resetGame`: the start screen, with the error cleared. */
    method ResetGame()
      modifies this
      ensures phase == Start && error.None?
      ensures mood == old(mood) && activity == old(activity) && modelsLoaded == old(modelsLoaded)
      ensures moodHistory == old(moodHistory) && completedActivities == old(completedActivities)
    {
      phase := Start;
      error := None;
    }
  }

  /** A successful detection's entry is the detected mood with a confidence in
      (0, 1], its label as raw expression and the suggested activity's id. */
  lemma DetectionEntrySpec(video: Option<seq<Sample>>, history: seq<MoodEntry>, now: int, rand: real)
    requires video.Some? ==> GameSamples <= |video.value|
    requires 0.0 <= rand < 1.0
    requires DetectAdvanced(video, GameSamples).Some? && DetectAdvanced(video, GameSamples).value.MoodFound?
    ensures var r := DetectAdvanced(video, GameSamples).value;
            var chosen := ChooseActivity(history, r.mood, rand);
            var e := RecordDetection(history, r.mood, r.confidence, now, chosen)[|history|];
            && 0.0 < e.confidence <= 1.0
            && e.confidence == r.confidence
            && chosen in ActivitiesFor(r.mood)
            && chosen.id !in RecentActivityIds(history, r.mood)
  {
    var r := DetectAdvanced(video, GameSamples).value;
    AdvancedMoodFound(video.value, GameSamples);
    AvailableNeverEmpty(history, r.mood);
    ChooseActivitySpec(history, r.mood, rand);
    var acts := ActivitiesFor(r.mood);
    var available := Available(acts, RecentActivityIds(history, r.mood));
    assert available[0] in available;
  }
}
