# Mood Booster: a verified model of its decision logic

Mood Booster is a browser game. It reads the player's facial expression from the
camera, turns it into one of three moods (happy, sad, neutral) and suggests a
short activity for that mood. It also keeps a history of detected moods and a
list of completed activities in the browser's storage, and shows statistics
about them. This project models the logic under the user interface in Dafny and
proves what that logic guarantees:

- `FaceDetection` covers the lighting gate and the single-sample classifier.
  It also covers the multi-sample aggregator, which votes over several camera
  samples and, when every sample fails, over their error kinds.
- `Ranking` holds the three selection idioms the code repeats:
  - the first strict maximum over a dictionary's entries (ties go to the earliest entry);
  - a dictionary of counts whose keys come out in first-occurrence order;
  - the stable sort by a numeric key.
- `Moods` holds the mood counters and the dominant-mood choice, in the order
  happy, sad, neutral, shared by four files. It also holds the history records.
- `Activities` holds the catalog: eight activities per mood.
- `ActivityDetail` covers the parsing of duration strings, the `m:ss` clock and
  the countdown timer of the activity view (`ActivityTimer`, a class).
- `Storage` covers the persistence helpers over an abstract key-to-record store
  (`LocalStorage`, a class) and the statistics computed from the stored history.
- `MoodHistory` and `MoodStats` cover what the two statistics panels compute
  before rendering.
- `MoodBoosterGame` covers the game controller (`Game`, a class). Its handlers
  move between the screens loading, error, start, detecting and suggestion,
  append to the two lists and pick a suggestion. The suggestion avoids the
  activities offered recently for the same mood.

The model follows the code in these places:

- The recent-activity filter first takes the last three history entries and
  then keeps those of the detected mood. It does not keep the last three
  entries of that mood.
- The recent ids are computed from the history as it was before the new entry
  was added.
- The new entry records the suggested activity's id. The code sets the id on
  the entry object after handing that object to the state update, so the stored
  entry carries the id.
- The aggregate result has no raw expression. The recorded entry's raw
  expression therefore always falls back to the mood's label.

Scores and brightness are exact reals or integers. Timestamps and days are
integers. The camera, the clock and the random draw are inputs of the handlers.

## Model

| member | source | states |
|---|---|---|
| FaceDetection.CheckLighting | src/utils/faceDetectionUtils.js:33-54 | A missing video element passes the check. An empty frame makes the canvas throw, which is not a verdict. Otherwise the check passes exactly when the exact luminance sum (RGB weights 299/587/114; the alpha byte is skipped) exceeds 40 per pixel. The real average formed after the loop (`AverageAbove`) gives the same verdict. |
| FaceDetection.AverageAbove | src/utils/faceDetectionUtils.js:51-53 | The average compared with 40 gives true exactly when there are pixels and the integer-weighted sum exceeds 40000 per pixel. |
| FaceDetection.BrightnessExact | src/utils/faceDetectionUtils.js:45-53 | The average (0.299R + 0.587G + 0.114B summed, divided by the pixel count) is above 40 exactly when the integer-weighted sum exceeds 40000 per pixel. |
| FaceDetection.AlphaIgnored | src/utils/faceDetectionUtils.js:47-50 | Two frames that differ only in their alpha bytes have the same luminance and the same verdict. |
| FaceDetection.UniformThreshold | src/utils/faceDetectionUtils.js:46-53 | A frame whose colour bytes all equal v passes exactly when v > 40. |
| FaceDetection.MoodOf | src/utils/faceDetectionUtils.js:112-118 | The mapping is total: happy and surprised give happy; sad, angry, fearful and disgusted give sad; every other label gives neutral. |
| FaceDetection.MoodOfName | src/utils/faceDetectionUtils.js:113-118 | Each mood's own label maps back to that mood. |
| FaceDetection.DetectFacialExpression | src/utils/faceDetectionUtils.js:61-133 | The classifier method, with its loop, returns what the specification function `Detect` gives for the same sample. A missing video element gives no result. |
| FaceDetection.DarkFrameIgnoresDetector | src/utils/faceDetectionUtils.js:65-72 | A non-empty dark frame gives the lighting error and its message, whatever the detector would report. |
| FaceDetection.EmptyFrameIsTechnical | src/utils/faceDetectionUtils.js:64-131 | An empty frame makes the canvas throw, and the classifier reports the technical error with its message, whatever the detector would report. |
| FaceDetection.FirstFaceOnly | src/utils/faceDetectionUtils.js:80-88 | Only the first detected face matters: faces after it do not change the result. |
| FaceDetection.DetectedSpec | src/utils/faceDetectionUtils.js:88-125 | A success implies the frame was bright enough and at least one face was seen. The reported expression has the highest score of the first face, and every earlier label scores strictly less. The confidence is that score and is at least 0.4. The raw expression is the chosen label, and the mood is that label's mood. |
| FaceDetection.LowConfidenceIff | src/utils/faceDetectionUtils.js:91-108 | On a bright frame with a face, the result is a failure exactly when every score of the first face is below 0.4. That failure is the low-confidence error with its message. |
| FaceDetection.MoodColorSpec | src/utils/faceDetectionUtils.js:275-282 | The three moods get three different colours. Every other label gets the neutral colour. |
| FaceDetection.AddScores | src/utils/faceDetectionUtils.js:161-166 | Merging a sample's scores adds each label's score to its running sum and keeps every label seen before. |
| FaceDetection.MergeScores | src/utils/faceDetectionUtils.js:162-166 | The merging loop computes `AddScores`. |
| FaceDetection.Scale | src/utils/faceDetectionUtils.js:183-188 | Each sum is divided by the number of samples. The labels and their order are unchanged. |
| FaceDetection.DivideScores | src/utils/faceDetectionUtils.js:184-188 | The dividing loop computes `Scale`. |
| FaceDetection.GatherCounts | src/utils/faceDetectionUtils.js:158-159 | Each mood's count is the number of samples that succeeded with that mood. |
| FaceDetection.GatherErrors | src/utils/faceDetectionUtils.js:167-169 | The error list holds one code per failed sample. Each kind occurs once per sample that failed with it. Missing results are counted nowhere. |
| FaceDetection.GatherSums | src/utils/faceDetectionUtils.js:161-166 | Each label's sum is the total of that label's scores over the successful samples. |
| FaceDetection.GatherBound | src/utils/faceDetectionUtils.js:150-170 | Successes plus errors never exceed the number of samples. |
| FaceDetection.DetectFacialExpressionAdvanced | src/utils/faceDetectionUtils.js:141-234 | The aggregator method computes the specification function `DetectAdvanced`. |
| FaceDetection.AdvancedSucceedsIff | src/utils/faceDetectionUtils.js:190-197 | With a video element there is always a result. It is a mood exactly when at least one sample succeeded. |
| FaceDetection.AdvancedMoodFound | src/utils/faceDetectionUtils.js:172-196 | The mood has the most successful samples; a tie goes to the first of happy, sad, neutral. The confidence is that count divided by the sample count, and lies in (0, 1]. Each expression average is the label's total over the successful samples divided by the number of samples, not by the number of successes. |
| FaceDetection.AdvancedFailure | src/utils/faceDetectionUtils.js:197-225 | With no success, the error is the most frequent kind among the failures; a tie goes to the kind seen first. With no failures at all it is the technical error. The message is the one for lighting, for no face, or the general retry message. |
| Activities.ActivitiesFor | src/data/activities.js:5-182 | Every mood has a list of exactly eight activities. |
| Activities.CatalogShape | src/data/activities.js:5-182 | The catalog's keys are exactly happy, sad and neutral, and each holds eight entries. |
| Activities.IdForm | src/data/activities.js:8-175 | The i-th id of a mood is the mood's label followed by the digit i + 1. |
| Activities.IdsDistinct | src/data/activities.js:8-175 | Two catalog entries, of the same mood or not, share an id exactly when they are the same entry. |
| ActivityDetail.ParseDurationSpec | src/components/ActivityDetail.js:12-15 | Without a digit the duration is 5. Otherwise it is the value of the first maximal run of digits. |
| ActivityDetail.RangeDurations | src/components/ActivityDetail.js:12-15 | "15-30 min" gives 15, "5-15 min" gives 5, "10 min" gives 10, and a string without digits gives 5. |
| ActivityDetail.CatalogDurationsHaveDigits | src/data/activities.js:12-179 | Every catalog duration contains a digit, so the default of 5 is never used for catalog activities. |
| ActivityDetail.NatToStringRoundTrip | src/components/ActivityDetail.js:42 | The decimal rendering of a number reads back as that number and has no leading zero. |
| ActivityDetail.FormatTimeShape | src/components/ActivityDetail.js:39-43 | The clock is the minutes (seconds div 60), a colon, and the two digits of seconds mod 60, zero-padded. |
| ActivityDetail.FormatTimeRoundTrip | src/components/ActivityDetail.js:39-43 | Reading the clock back gives minutes * 60 + seconds = the original count, so no two counts render alike. |
| ActivityDetail.CountdownSpec | src/components/ActivityDetail.js:24-33 | Starting from n >= 1, k ticks leave max(n - k, 0). The time never goes negative. Completion happens on exactly the n-th tick. |
| ActivityDetail.ActivityTimer.constructor | src/components/ActivityDetail.js:4-8 | Not completed, no timer, 0 seconds left. |
| ActivityDetail.ActivityTimer.StartTimer | src/components/ActivityDetail.js:18-36 | The time left becomes the parsed minutes times 60. The interval is held and ticking. |
| ActivityDetail.ActivityTimer.Tick | src/components/ActivityDetail.js:25-32 | The time left follows the tick rule. At 1 or less it becomes 0, the interval is cleared and the activity completes. |
| ActivityDetail.ActivityTimer.CancelTimer | src/components/ActivityDetail.js:46-51 | A held interval is cleared and forgotten. Without one, nothing changes. |
| ActivityDetail.ActivityTimer.CompleteActivity | src/components/ActivityDetail.js:54-60 | Cancels the timer and marks the activity completed. With a callback, it reports the activity exactly once. |
| Storage.LocalStorage.Save | src/utils/localStorageUtils.js:11-19 | Stores the record under the app's key, changes no other key, and reports success. Loading afterwards gives the same record. |
| Storage.LocalStorage.Clear | src/utils/localStorageUtils.js:38-46 | Removes only the app's key. Afterwards nothing loads, both getters give [], and there is no existing data. |
| Storage.LocalStorage.SaveMoodHistory | src/utils/localStorageUtils.js:52-62 | Replaces only the history field of the stored record, or of an empty record, and keeps the completed activities. |
| Storage.LocalStorage.SaveCompletedActivities | src/utils/localStorageUtils.js:68-78 | Replaces only the completed-activities field and keeps the history. |
| Storage.LocalStorage.HasExistingData | src/utils/localStorageUtils.js:102-107 | True exactly when the stored history or the stored completed list is non-empty. |
| Storage.LocalStorage.Load | src/utils/localStorageUtils.js:21-33 | The record stored under the app's key, or nothing when that key is absent. `Save` and `Clear` state what it gives afterwards. |
| Storage.LocalStorage.GetMoodHistory | src/utils/localStorageUtils.js:80-87 | The stored history; the empty list when no record is stored or the record has no history. |
| Storage.LocalStorage.GetCompletedActivities | src/utils/localStorageUtils.js:89-96 | The stored completed list; the empty list when no record is stored or the record has no such list. |
| Storage.LocalStorage.GetMoodStatistics | src/utils/localStorageUtils.js:113-155 | The method counts with the `CountMoods` fold, picks the dominant mood and the newest entry with two maximum loops, and gives the statistics function of the stored history. |
| Storage.MostRecentSpec | src/utils/localStorageUtils.js:143-146 | The most recent entry has the largest timestamp, and every entry before it in the history is strictly older. This is what the stable newest-first sort puts first. |
| Storage.MoodStatisticsEmpty | src/utils/localStorageUtils.js:116-124 | An empty history gives 0 entries, zero counts, neutral twice and no date. |
| Storage.MoodStatisticsCounts | src/utils/localStorageUtils.js:126-130 | The counts add up to the number of entries, and each counts its mood's entries. |
| Storage.MoodStatisticsDominant | src/utils/localStorageUtils.js:132-141 | The dominant mood has the highest count; a tie goes to the first of happy, sad, neutral. |
| Storage.MoodStatisticsRecent | src/utils/localStorageUtils.js:143-153 | The most recent mood and the date come from one entry that no other entry is newer than. |
| Moods.DominantSpec | src/components/MoodStats.js:40-48 | The dominant mood's count is the highest; a tie goes to the first of happy, sad, neutral. With no entries it is neutral. |
| Moods.PickDominant | src/components/MoodStats.js:40-48 | The loop computes `Dominant` and the highest count. |
| Moods.CountMoodsSpec | src/utils/localStorageUtils.js:127-130 | The fold's counts add up to the history's length, and each mood's count is its number of entries. |
| Moods.EntriesOnSpec | src/components/MoodHistory.js:47-52 | The entries of a day hold each entry of that day as many times as the history does, and no entry of another day. |
| Moods.EntriesOnAppend | src/components/MoodHistory.js:47-52 | Filtering two histories one after the other gives the first's entries of the day followed by the second's, so the history's order is kept. |
| Ranking.FirstMaxSpec | src/utils/faceDetectionUtils.js:92-100 | The result scores at least as much as the start and as every entry. It is the start when no entry beats it. Otherwise it is an entry that every earlier entry scores strictly below. |
| Ranking.PickFirstMax | src/utils/faceDetectionUtils.js:95-100 | The loop computes `FirstMax`. |
| Ranking.CountOccurrences | src/utils/faceDetectionUtils.js:199-202 | The counting loop computes `Tally`. |
| Ranking.TallySpec | src/utils/faceDetectionUtils.js:199-202 | Each key's count is its number of occurrences. Every element has an entry. Keys are distinct and in first-occurrence order. |
| Ranking.MostCommonSpec | src/utils/faceDetectionUtils.js:199-212 | The fallback when there is nothing to count. Otherwise an element of maximal count; a tie goes to the element seen first. |
| Ranking.SortBySpec | src/components/MoodHistory.js:45 | The sort's result is ordered by key and is a permutation of its input. |
| Ranking.SortByStable | src/components/MoodHistory.js:45 | The sort is stable: for every key, the elements with that key come out in their input order. |
| Ranking.SortByKeepsTies | src/components/MoodHistory.js:45 | Two input elements with equal keys appear in the output at positions in their input order. |
| Ranking.SortByHead | src/components/MoodHistory.js:113-118 | The first element of the stable sort is the earliest element with the smallest key. |
| Ranking.SortByStrict | src/components/MoodStats.js:21-23 | A list whose keys are pairwise different comes out strictly ordered. |
| Ranking.TallySum | src/components/MoodHistory.js:31-34 | The counts add up to the number of elements. |
| MoodHistory.PercentSpec | src/components/MoodHistory.js:41 | The percentage is the nearest integer to 100 * count / total, halves rounded up, and lies in [0, 100]. |
| MoodHistory.DistributionSpec | src/components/MoodHistory.js:30-45 | Each mood of the history has exactly one row, whose count is its number of entries. Percentages are rounded and in [0, 100]. Counts add up to the length. The displayed rows are a permutation sorted by count, highest first, and rows of equal count keep their first-occurrence order. |
| MoodHistory.DistributionTies | src/components/MoodHistory.js:31-45 | Two rows with equal counts are displayed in the order their moods first occur in the history. |
| MoodHistory.RecentStrip | src/components/MoodHistory.js:72 | The last min(5, n) entries, in history order. |
| MoodHistory.Reversed | src/components/MoodHistory.js:128 | Position i of the listing is entry n - 1 - i. |
| MoodHistory.ReversedTwice | src/components/MoodHistory.js:128 | Reversing the listing gives back the history. |
| MoodHistory.TodayTopIsMostCommon | src/components/MoodHistory.js:113-118 | Today's top mood is today's most common mood; a tie goes to the mood seen first today. It occurs today. |
| MoodHistory.ViewSpec | src/components/MoodHistory.js:7-9 | The panel is absent exactly for an empty history. The today summary is shown exactly when some entry is from today, and its mood has maximal count. |
| MoodStats.AddToDayDays | src/components/MoodStats.js:11-18 | Counting an entry of a day that has a bucket keeps the list of days; an entry of a new day appends that day at the end. |
| MoodStats.AddToDayLength | src/components/MoodStats.js:11-18 | A known day keeps the number of buckets; a new day adds one bucket. |
| MoodStats.AddToDayTotal | src/components/MoodStats.js:11-18 | Counting one entry raises the sum of all bucket counts by one. |
| MoodStats.AddToDayUnique | src/components/MoodStats.js:11-18 | Counting an entry never gives a day a second bucket. |
| MoodStats.GroupByDayTotal | src/components/MoodStats.js:11-18 | The buckets' totals add up to the number of entries. |
| MoodStats.GroupByDayDays | src/components/MoodStats.js:11-18 | There is a bucket for exactly the days that have entries. |
| MoodStats.GroupByDayUnique | src/components/MoodStats.js:11-18 | No day has two buckets. |
| MoodStats.AddToDayCounts | src/components/MoodStats.js:11-18 | Counting an entry of day `day` and mood m raises day `day`'s count of m by one and leaves every other day's counts as they were. |
| MoodStats.GroupByDayCounts | src/components/MoodStats.js:11-18 | The counts filed under each day are the mood counts of that day's entries (zero counts for a day without entries). |
| MoodStats.GroupByDayBucket | src/components/MoodStats.js:11-18 | Every bucket's counts are the mood counts of the entries of its day. |
| MoodStats.ChartSpec | src/components/MoodStats.js:20-23 | The chart is a permutation of the buckets, in strictly increasing day order, with exactly one bucket per day with entries. Each bucket counts, mood by mood, exactly the entries of its day. |
| MoodStats.DisplayWindow | src/components/MoodStats.js:26 | With more than seven buckets, the last seven; otherwise all of them. |
| MoodStats.DisplaySpec | src/components/MoodStats.js:25-26 | The displayed days are the chart's last min(7, n) days, still in increasing order. |
| MoodStats.TotalMoods | src/components/MoodStats.js:35-38 | The counting loop gives the history's mood counts. |
| MoodMessages.MoodMessageSpec | src/components/MoodStats.js:59-70 | Each mood has its own message, different from the general one. Every other label gets the general message. |
| MoodStats.ComputeView | src/components/MoodStats.js:5-48 | The component's computation gives the specification function `View`. |
| MoodStats.ViewSpec | src/components/MoodStats.js:6-48 | The card is absent exactly below three entries. Its totals count every entry under its mood. The dominant mood has the highest total; a tie goes to the first of happy, sad, neutral. It shows min(7, number of days) days. |
| MoodBoosterGame.LastThree | src/components/MoodBoosterGame.js:115 | The last min(3, n) entries, in order. |
| MoodBoosterGame.IdsOfMood | src/components/MoodBoosterGame.js:116-118 | Exactly the activity ids recorded on entries of the mood, skipping entries without one. |
| MoodBoosterGame.RecentActivityIdsSpec | src/components/MoodBoosterGame.js:113-119 | At most three ids. Exactly the ids on entries of the mood among the last three entries. |
| MoodBoosterGame.Available | src/components/MoodBoosterGame.js:122-125 | Exactly the mood's activities whose id is not recent; empty when every id is recent. |
| MoodBoosterGame.AvailableCounts | src/components/MoodBoosterGame.js:122-125 | Each activity whose id is not recent is kept as often as the catalog lists it; a recent one is dropped. |
| MoodBoosterGame.AvailableAppend | src/components/MoodBoosterGame.js:122-125 | Filtering two lists one after the other gives the first's kept activities followed by the second's, so the catalog order is kept. |
| MoodBoosterGame.ActivityPool | src/components/MoodBoosterGame.js:127 | The pool is never empty. |
| MoodBoosterGame.ChosenIndex | src/components/MoodBoosterGame.js:131 | The floor of rand * n: an index below n for every draw in [0, 1). |
| MoodBoosterGame.ChooseActivitySpec | src/components/MoodBoosterGame.js:121-139 | For every draw, the suggestion is one of the mood's activities. It is not a recent one when some activity is not recent. When all are recent, the pool is the mood's whole list. |
| MoodBoosterGame.AvailableNeverEmpty | src/components/MoodBoosterGame.js:113-127 | With eight distinct ids per mood and at most three recent ids, at least five activities are available. So the fallback to the whole list never applies. |
| MoodBoosterGame.RecordDetection | src/components/MoodBoosterGame.js:92-104 | Exactly one entry is appended and earlier entries are unchanged. The new entry has the detected mood, the current instant, the confidence (0.5 replacing a zero), the mood's label as raw expression and the suggested activity's id. |
| MoodBoosterGame.RecordCompletion | src/components/MoodBoosterGame.js:161-171 | Exactly one record is appended, with the activity's id and name, the current mood and the instant. Earlier records are unchanged. |
| MoodBoosterGame.Snapshot | src/components/MoodBoosterGame.js:54-66 | Something is written exactly when either list is non-empty, and then both lists are written. |
| MoodBoosterGame.DetectionEntrySpec | src/components/MoodBoosterGame.js:86-104 | After a successful detection, the new entry's confidence lies in (0, 1], so the 0.5 fallback never applies. The suggestion belongs to the detected mood and was not among its recent ids. |
| MoodBoosterGame.Game.constructor | src/components/MoodBoosterGame.js:11-17 | Loading screen, neutral mood, no activity, no error, models not loaded, empty lists. |
| MoodBoosterGame.Game.ModelsLoaded | src/components/MoodBoosterGame.js:20-28 | Goes to the start screen when the models load. Otherwise goes to the error screen with the loading message. |
| MoodBoosterGame.Game.LoadSavedData | src/components/MoodBoosterGame.js:33-50 | Each list is taken from the stored record when the record has it, and left as it is otherwise. |
| MoodBoosterGame.Game.SaveIfChanged | src/components/MoodBoosterGame.js:54-66 | Writes both lists under the app's key when either is non-empty, so they load back unchanged. Otherwise the store is untouched. |
| MoodBoosterGame.Game.StartDetection | src/components/MoodBoosterGame.js:69-72 | Goes to the detecting screen and clears the error. |
| MoodBoosterGame.Game.HandleVideoReady | src/components/MoodBoosterGame.js:75-153 | Runs the five-sample aggregator on the camera. A failed result goes to the start screen with its message, and no result goes to it with the fallback message. A mood goes to the suggestion screen with the chosen activity and one appended entry; the choice uses the old history. Nothing else changes. |
| MoodBoosterGame.Game.HandleResult | src/components/MoodBoosterGame.js:82-146 | The same three-way handling, for a given result. |
| MoodBoosterGame.Game.Suggest | src/components/MoodBoosterGame.js:86-141 | The suggestion screen: the detected mood, the chosen activity, and the history with the detection entry appended. The error, the completed list and the loading flag are unchanged. |
| MoodBoosterGame.Game.HandleError | src/components/MoodBoosterGame.js:155-158 | Goes to the start screen with the given message. |
| MoodBoosterGame.Game.HandleActivityComplete | src/components/MoodBoosterGame.js:161-171 | Appends one completion record of the current mood. Nothing else changes. |
| MoodBoosterGame.Game.ResetGame | src/components/MoodBoosterGame.js:174-177 | Goes to the start screen and clears the error. |

## Left out

- The face-detection network and its model loading are not modelled. Each sample's detector output is an input: a list of faces, each with ordered (label, score) pairs, or a detector failure that stands for the error the network throws. Drawing the detection results is also left out.
- Grabbing pixels from the canvas and the browser-support check are DOM and WebGL access. The frame is an input RGBA byte sequence whose length is a multiple of 4. A frame with no pixels stands for a video of width or height 0: `getImageData` then throws, and the classifier's `catch` turns that into the technical error (`CanvasThrew`, `EmptyFrameIsTechnical`).
- Timers and delays are left out: the 300 ms between samples, the 500 ms before detection and the 1 s interval. Each sample is one loop step and each tick is one `Tick` call. The interval id is a positive number chosen by the caller.
- Calling `StartTimer` a second time replaces the held interval id; the old interval's ticks are not modelled.
- The random draw is an input real in [0, 1).
- The default `samples = 3` of the aggregator is not modelled as a default argument: `DetectAdvanced` always takes the sample count, and the game's only call passes 5 (`GameSamples`).
- Dates are not modelled as date values. Timestamps are integer seconds; the ISO strings and the locale date and time formatting are left out. A calendar day is the timestamp divided by 86400, and grouping by day compares these keys. The chart's `shortDate` labels only decorate the buckets and are left out.
- The browser store holds records already parsed from JSON; `JSON.stringify` and `JSON.parse` are not modelled. Storage quota errors and parse errors behind the `try`/`catch` blocks are left out, so every save succeeds.
- React's rendering, its asynchronous state updates and its effects are left out. The save effect is the `SaveIfChanged` method, and the camera view calls `HandleVideoReady` or `HandleError`.
- The outer `catch` of the video handler and of the aggregator is left out. It can only be reached through a throw from the detector or the DOM, and the classifier catches both first: a throwing detector is modelled as `DetectorFailed`, and the canvas throw on an empty frame as `CanvasThrew`.
- Floating-point rounding is not modelled. Scores, averages and confidences are exact reals, and percentages are computed in exact integer arithmetic.
- Mood labels outside happy, sad and neutral cannot occur in the model. The aggregator only produces those three, but a stored history edited by hand could hold others.
- The catalog's descriptions and icons, and all other icons and markup, are left out.
- Storage.MostRecentSpec: the newest-first sort is modelled by the element it puts first, not by the whole sorted copy, which is used for nothing else.
