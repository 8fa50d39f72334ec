/**
 * The decision logic of src/utils/faceDetectionUtils.js: the lighting gate, the
 * single-sample classifier, the multi-sample aggregator and the mood colours.
 *
 * The camera and the face-expression network are inputs: a frame is the canvas's
 * RGBA byte buffer, and the network's answer for that frame is a `Detection`, the
 * faces it found, each with its (expression, score) pairs in the order the network
 * lists them, or the exception it raised.
 */
module FaceDetection {
  import opened Wrappers
  import opened Ranking
  import opened Moods

  type byte = x: int | 0 <= x < 256

  /** The RGBA bytes of one frame, four per pixel, as the canvas delivers them. */
  type Frame = s: seq<byte> | |s| % 4 == 0

  // ---------------------------------------------------------------------------
  // Lighting gate

  /** Average brightness must exceed this, on the 0..255 scale. */
  const MinBrightness := 40

  function PixelCount(data: Frame): nat
  {
    |data| / 4
  }

  /** 1000 times the luminance 0.299 R + 0.587 G + 0.114 B of one pixel (the weights
      scaled to integers, so the sum is exact). */
  function PixelLuma(red: byte, green: byte, blue: byte): nat
  {
    299 * red as int + 587 * green as int + 114 * blue as int
  }

  /** Sum of `PixelLuma` over all pixels; the alpha byte is skipped. */
  function LumaSum(data: Frame): nat
  {
    if |data| == 0 then 0
    else LumaSum(data[..|data| - 4]) + PixelLuma(data[|data| - 4], data[|data| - 3], data[|data| - 2])
  }

  /** The average luminance is strictly above the threshold. (A frame without
      pixels never gets this far: the canvas refuses to read a zero-size image.) */
  predicate BrightEnough(data: Frame)
  {
    PixelCount(data) > 0 && LumaSum(data) > 1000 * MinBrightness * PixelCount(data)
  }

  /** How `checkLighting` ends: it returns a verdict, or the canvas throws because
      the video has no pixels (`getImageData` on a zero-size area). */
  datatype LightingCheck = Returned(ok: bool) | CanvasThrew

  /** `checkLighting`: true for a missing video element; an exception for a video
      without pixels; otherwise whether the frame's average brightness is above 40. */
  method CheckLighting(video: Option<Frame>) returns (r: LightingCheck)
    ensures video.None? ==> r == Returned(true)
    ensures video.Some? && |video.value| == 0 ==> r == CanvasThrew
    ensures video.Some? && |video.value| > 0 ==> r == Returned(BrightEnough(video.value))
  {
    if video.None? {
      return Returned(true);
    }
    var data := video.value;
    if |data| == 0 {
      return CanvasThrew;
    }
    ghost var pixels := |data| / 4;
    assert |data| == 4 * pixels;
    var sum := 0;
    var i := 0;
    ghost var p := 0;
    while i < |data|
      invariant 0 <= p <= pixels && i == 4 * p
      invariant sum == LumaSum(data[..i])
    {
      LumaSumStep(data, p);
      sum := sum + PixelLuma(data[i], data[i + 1], data[i + 2]);
      i, p := i + 4, p + 1;
    }
    assert data[..|data|] == data;
    var ok := AverageAbove(sum, |data| / 4);
    r := Returned(ok);
  }

  /** The average of the scaled sum over `pixels` pixels, compared with the
      threshold: above 40 exactly when the integer sum exceeds 40000 per pixel
      (with no pixels the average would be 0/0, which is above nothing). */
  method AverageAbove(sum: nat, pixels: nat) returns (ok: bool)
    ensures ok == (pixels > 0 && sum > 1000 * MinBrightness * pixels)
  {
    if pixels == 0 {
      ok := false;
    } else {
      var brightness := (sum as real / 1000.0) / (pixels as real);
      BrightnessExact(sum, pixels, brightness);
      ok := brightness > MinBrightness as real;
    }
  }

  /** Pixel `p` adds its luminance to the sum over the pixels before it. */
  lemma LumaSumStep(data: Frame, p: nat)
    requires 4 * p + 4 <= |data|
    ensures LumaSum(data[..4 * p + 4]) == LumaSum(data[..4 * p]) + PixelLuma(data[4 * p], data[4 * p + 1], data[4 * p + 2])
  {
    assert data[..4 * p + 4][..4 * p] == data[..4 * p];
  }

  /** Comparing the real average with 40 is the same as comparing the scaled integer
      sum with 40000 per pixel. */
  lemma BrightnessExact(sum: nat, pixels: nat, brightness: real)
    requires pixels > 0 && brightness == (sum as real / 1000.0) / (pixels as real)
    ensures brightness > MinBrightness as real <==> sum > 1000 * MinBrightness * pixels
  {
    assert brightness * (pixels as real) * 1000.0 == sum as real;
    if brightness > 40.0 {
      assert brightness * (pixels as real) > 40.0 * (pixels as real);
    } else {
      assert brightness * (pixels as real) <= 40.0 * (pixels as real);
    }
  }

  /** The last pixel of a non-empty frame, as (red, green, blue). */
  function LastColour(data: Frame): (byte, byte, byte)
    requires |data| > 0
  {
    (data[|data| - 4], data[|data| - 3], data[|data| - 2])
  }

  /** Two frames with the same pixels up to alpha. */
  predicate SameColours(a: Frame, b: Frame)
  {
    |a| == |b| && (|a| > 0 ==> LastColour(a) == LastColour(b) && SameColours(a[..|a| - 4], b[..|b| - 4]))
  }

  /** Only the colour bytes count: frames that differ in alpha alone are judged alike. */
  lemma {:induction false} AlphaIgnored(a: Frame, b: Frame)
    requires SameColours(a, b)
    ensures LumaSum(a) == LumaSum(b) && (BrightEnough(a) <==> BrightEnough(b))
  {
    if |a| > 0 {
      AlphaIgnored(a[..|a| - 4], b[..|b| - 4]);
    }
  }

  /** Frames whose colour bytes all equal `v`. */
  predicate UniformGrey(data: Frame, v: byte)
  {
    |data| > 0 ==> LastColour(data) == (v, v, v) && UniformGrey(data[..|data| - 4], v)
  }

  /** A frame whose colour bytes all equal `v` has luminance exactly `v` per pixel. */
  lemma {:induction false} UniformLuma(data: Frame, v: byte)
    requires UniformGrey(data, v)
    ensures LumaSum(data) == 1000 * v as int * PixelCount(data)
  {
    if |data| > 0 {
      var prefix := data[..|data| - 4];
      UniformLuma(prefix, v);
      assert PixelCount(data) == PixelCount(prefix) + 1;
      ScaledStep(v as int, PixelCount(prefix));
    }
  }

  /** Arithmetic step of `UniformLuma`: one more pixel of value `w`. */
  lemma ScaledStep(w: int, n: int)
    ensures 1000 * w * (n + 1) == 1000 * w * n + 1000 * w
  {
  }

  /** Uniform grey passes exactly when its value is above 40: black (0) fails,
      white (255) passes, and 40 itself is the last value that fails. */
  lemma UniformThreshold(data: Frame, v: byte)
    requires |data| > 0 && UniformGrey(data, v)
    ensures BrightEnough(data) <==> v > MinBrightness
  {
    UniformLuma(data, v);
    var n := PixelCount(data);
    assert n > 0;
    if v > MinBrightness {
      MulMonotone(MinBrightness + 1, v, n);
    } else {
      MulMonotone(v, MinBrightness, n);
    }
  }

  /** Arithmetic step of `UniformThreshold`: the scaled sum grows with the grey value. */
  lemma MulMonotone(a: int, b: int, n: nat)
    requires a <= b
    ensures 1000 * a * n <= 1000 * b * n
  {
    assert (b - a) * n >= 0;
    assert 1000 * b * n - 1000 * a * n == 1000 * ((b - a) * n);
  }

  // ---------------------------------------------------------------------------
  // Single-sample classifier

  /** One face's (expression label, score) pairs, in the order the network lists them. */
  type Expressions = seq<(string, real)>

  /** What the face-expression network returns for one frame. */
  datatype Detection = Faces(faces: seq<Expressions>) | DetectorFailed

  /** One sample: the frame the camera showed and what the network made of it. */
  datatype Sample = Sample(frame: Frame, detection: Detection)

  /** The `error` codes 'lighting', 'noface', 'confidence' and 'technical'. */
  datatype ErrorKind = Lighting | NoFace | LowConfidence | Technical

  function ErrorName(e: ErrorKind): string
  {
    match e
    case Lighting => "lighting"
    case NoFace => "noface"
    case LowConfidence => "confidence"
    case Technical => "technical"
  }

  datatype SampleResult =
    | Detected(mood: Mood, rawExpression: string, confidence: real, allExpressions: Expressions)
    | Failed(error: ErrorKind, message: string)

  const TooDarkMessage := "It's too dark. Please find better lighting for accurate detection."
  const NoFaceMessage := "No face detected. Please make sure your face is visible in the camera."
  const LowConfidenceMessage := "Couldn't clearly detect your expression. Please try with better lighting or a clearer expression."
  const TechnicalMessage := "An error occurred during mood detection."

  /** A winning score below this is rejected. */
  const MinConfidence: real := 0.4

  const HappyExpressions: set<string> := {"happy", "surprised"}
  const SadExpressions: set<string> := {"sad", "angry", "fearful", "disgusted"}

  /** The mapping from a detailed expression to a mood category; every label that is
      in neither list, `neutral` included, is neutral. */
  function MoodOf(expression: string): (m: Mood)
    ensures m == Happy <==> expression in HappyExpressions
    ensures m == Sad <==> expression in SadExpressions
  {
    if expression in HappyExpressions then Happy
    else if expression in SadExpressions then Sad
    else Neutral
  }

  /** Each mood's own label maps back to that mood. */
  lemma MoodOfName(m: Mood)
    ensures MoodOf(MoodName(m)) == m
  {
    assert "sad" != "happy" && "sad" != "surprised" by {
      assert |"sad"| != |"happy"| && |"sad"| != |"surprised"|;
    }
    assert "neutral" !in HappyExpressions by {
      assert |"neutral"| != |"happy"| && |"neutral"| != |"surprised"|;
    }
    assert "neutral" !in SadExpressions by {
      assert |"neutral"| != |"sad"| && |"neutral"| != |"angry"| && |"neutral"| != |"disgusted"|;
      assert "neutral"[0] != "fearful"[0];
    }
  }

  /** The strongest expression of a face: first strict maximum from ('neutral', 0). */
  function Strongest(expressions: Expressions): (string, real)
  {
    FirstMax(expressions, ("neutral", 0.0))
  }

  /** `detectFacialExpression`, with the video element and the network's answer as
      input: `None` stands for the `null` returned when there is no video element. */
  function Detect(video: Option<Sample>): Option<SampleResult>
  {
    if video.None? then None
    else if |video.value.frame| == 0 then Some(Failed(Technical, TechnicalMessage))
    else if !BrightEnough(video.value.frame) then Some(Failed(Lighting, TooDarkMessage))
    else match video.value.detection
      case DetectorFailed => Some(Failed(Technical, TechnicalMessage))
      case Faces(faces) =>
        if |faces| == 0 then Some(Failed(NoFace, NoFaceMessage))
        else
          var best := Strongest(faces[0]);
          if best.1 < MinConfidence then Some(Failed(LowConfidence, LowConfidenceMessage))
          else Some(Detected(MoodOf(best.0), best.0, best.1, faces[0]))
  }

  /** The classifier as the source runs it, step by step. */
  method DetectFacialExpression(video: Option<Sample>) returns (r: Option<SampleResult>)
    ensures r == Detect(video)
  {
    if video.None? {
      return None;
    }
    var sample := video.value;
    var lighting := CheckLighting(Some(sample.frame));
    if lighting.CanvasThrew? {
      return Some(Failed(Technical, TechnicalMessage));
    }
    if !lighting.ok {
      return Some(Failed(Lighting, TooDarkMessage));
    }
    match sample.detection {
      case DetectorFailed =>
        return Some(Failed(Technical, TechnicalMessage));
      case Faces(faces) =>
        if |faces| == 0 {
          return Some(Failed(NoFace, NoFaceMessage));
        }
        var expressions := faces[0];
        var best := PickFirstMax(expressions, ("neutral", 0.0));
        if best.1 < MinConfidence {
          return Some(Failed(LowConfidence, LowConfidenceMessage));
        }
        return Some(Detected(MoodOf(best.0), best.0, best.1, expressions));
    }
  }

  /** A dark frame is rejected before the network's answer is looked at. */
  lemma DarkFrameIgnoresDetector(frame: Frame, d1: Detection, d2: Detection)
    requires |frame| > 0 && !BrightEnough(frame)
    ensures Detect(Some(Sample(frame, d1))) == Detect(Some(Sample(frame, d2))) == Some(Failed(Lighting, TooDarkMessage))
  {
  }

  /** A video without pixels makes the canvas throw; the classifier's `catch`
      reports a technical error, whatever the network would say. */
  lemma EmptyFrameIsTechnical(frame: Frame, d: Detection)
    requires |frame| == 0
    ensures Detect(Some(Sample(frame, d))) == Some(Failed(Technical, TechnicalMessage))
    ensures !BrightEnough(frame)
  {
  }

  /** Only the first face counts: faces after it never change the result. */
  lemma FirstFaceOnly(frame: Frame, face: Expressions, others1: seq<Expressions>, others2: seq<Expressions>)
    ensures Detect(Some(Sample(frame, Faces([face] + others1)))) == Detect(Some(Sample(frame, Faces([face] + others2))))
  {
  }

  /** On success the result carries the first face's scores, the confidence is a
      score of that face no other score exceeds, at least 0.4, the raw expression is
      the earliest label with that score, and the mood is that label's mood. */
  lemma DetectedSpec(video: Option<Sample>)
    requires Detect(video).Some? && Detect(video).value.Detected?
    ensures video.Some? && BrightEnough(video.value.frame)
    ensures video.value.detection.Faces? && |video.value.detection.faces| > 0
    ensures var face := video.value.detection.faces[0];
            var d := Detect(video).value;
            && d.allExpressions == face
            && d.confidence >= MinConfidence
            && (forall j :: 0 <= j < |face| ==> face[j].1 <= d.confidence)
            && (exists k :: 0 <= k < |face| && face[k] == (d.rawExpression, d.confidence) &&
                  forall j :: 0 <= j < k ==> face[j].1 < d.confidence)
            && d.mood == MoodOf(d.rawExpression)
  {
    var face := video.value.detection.faces[0];
    FirstMaxSpec(face, ("neutral", 0.0));
  }

  /** With light and a face, the sample is rejected for low confidence exactly when
      every score of the first face is below 0.4. */
  lemma LowConfidenceIff(frame: Frame, face: Expressions, others: seq<Expressions>)
    requires BrightEnough(frame)
    ensures Detect(Some(Sample(frame, Faces([face] + others)))).value.Failed? <==>
              forall j :: 0 <= j < |face| ==> face[j].1 < MinConfidence
    ensures Detect(Some(Sample(frame, Faces([face] + others)))).value.Failed? ==>
              Detect(Some(Sample(frame, Faces([face] + others)))).value == Failed(LowConfidence, LowConfidenceMessage)
  {
    FirstMaxSpec(face, ("neutral", 0.0));
    var best := Strongest(face);
    if forall j :: 0 <= j < |face| ==> face[j].1 < MinConfidence {
      if best != ("neutral", 0.0) {
        var k :| 0 <= k < |face| && best == face[k] && forall j :: 0 <= j < k ==> face[j].1 < face[k].1;
      }
    }
  }

  // ---------------------------------------------------------------------------
  // Mood colours

  /** The display colour for a mood label; labels other than the three moods get
      the neutral grey. */
  function GetMoodColor(mood: string): string
  {
    if mood == "happy" then "#fbbf24"
    else if mood == "sad" then "#60a5fa"
    else if mood == "neutral" then "#9ca3af"
    else "#9ca3af"
  }

  /** The three moods have three different colours, and every other label is shown
      like neutral. */
  lemma MoodColorSpec(a: Mood, b: Mood, other: string)
    ensures a != b ==> GetMoodColor(MoodName(a)) != GetMoodColor(MoodName(b))
    ensures (forall m :: other != MoodName(m)) ==> GetMoodColor(other) == GetMoodColor(MoodName(Neutral))
  {
    assert "#fbbf24"[1] != "#60a5fa"[1] && "#fbbf24"[1] != "#9ca3af"[1] && "#60a5fa"[1] != "#9ca3af"[1];
    if forall m :: other != MoodName(m) {
      assert other != MoodName(Happy) && other != MoodName(Sad);
    }
  }

  // ---------------------------------------------------------------------------
  // Multi-sample aggregator

  /** The score recorded for `key`: the first entry with that key, or 0. */
  function ScoreOf(acc: Expressions, key: string): real
  {
    if |acc| == 0 then 0.0
    else if acc[0].0 == key then acc[0].1
    else ScoreOf(acc[1..], key)
  }

  /** The set of labels an expression dictionary has entries for. */
  function Labels(acc: Expressions): set<string>
  {
    set i | 0 <= i < |acc| :: acc[i].0
  }

  lemma LabelsCons(x: (string, real), s: Expressions)
    ensures Labels([x] + s) == {x.0} + Labels(s)
  {
    var r := [x] + s;
    forall l | l in Labels(r) ensures l in {x.0} + Labels(s) {
      var i :| 0 <= i < |r| && r[i].0 == l;
      if i > 0 {
        assert s[i - 1].0 == l;
      }
    }
    forall l | l in Labels(s) ensures l in Labels(r) {
      var i :| 0 <= i < |s| && s[i].0 == l;
      assert r[i + 1].0 == l;
    }
    assert r[0] == x;
  }

  lemma LabelsSnoc(s: Expressions, x: (string, real))
    ensures Labels(s + [x]) == Labels(s) + {x.0}
  {
    var r := s + [x];
    forall l | l in Labels(r) ensures l in Labels(s) + {x.0} {
      var i :| 0 <= i < |r| && r[i].0 == l;
      if i < |s| {
        assert s[i].0 == l;
      }
    }
    forall l | l in Labels(s) ensures l in Labels(r) {
      var i :| 0 <= i < |s| && s[i].0 == l;
      assert r[i].0 == l;
    }
    assert r[|s|] == x;
  }

  /** Adding `score` to the dictionary entry for `key`, creating it at the end
      when it is missing. */
  function AddScore(acc: Expressions, key: string, score: real): (r: Expressions)
    ensures Labels(r) == Labels(acc) + {key}
    ensures forall k :: ScoreOf(r, k) == ScoreOf(acc, k) + (if k == key then score else 0.0)
  {
    if |acc| == 0 then
      LabelsCons((key, score), []);
      assert [(key, score)] + [] == [(key, score)];
      [(key, score)]
    else
      LabelsCons(acc[0], acc[1..]);
      assert acc == [acc[0]] + acc[1..];
      if acc[0].0 == key then
        var r := [(key, acc[0].1 + score)] + acc[1..];
        LabelsCons(r[0], acc[1..]);
        r
      else
        var tail := AddScore(acc[1..], key, score);
        LabelsCons(acc[0], tail);
        [acc[0]] + tail
  }

  /** Sum of the scores a face lists under `key`. */
  function LabelTotal(expressions: Expressions, key: string): real
  {
    if |expressions| == 0 then 0.0
    else LabelTotal(expressions[..|expressions| - 1], key)
         + (if expressions[|expressions| - 1].0 == key then expressions[|expressions| - 1].1 else 0.0)
  }

  /** Adding every (label, score) pair of one face to the running sums: the labels
      are those of both, and each label's sum grows by that label's total. */
  function AddScores(acc: Expressions, expressions: Expressions): (r: Expressions)
    ensures Labels(r) == Labels(acc) + Labels(expressions)
    ensures forall k :: ScoreOf(r, k) == ScoreOf(acc, k) + LabelTotal(expressions, k)
  {
    if |expressions| == 0 then acc
    else
      var n := |expressions|;
      LabelsSnoc(expressions[..n - 1], expressions[n - 1]);
      assert expressions[..n - 1] + [expressions[n - 1]] == expressions;
      AddScore(AddScores(acc, expressions[..n - 1]), expressions[n - 1].0, expressions[n - 1].1)
  }

  /** The `forEach` that adds one sample's scores into the running sums. */
  method MergeScores(acc: Expressions, expressions: Expressions) returns (r: Expressions)
    ensures r == AddScores(acc, expressions)
  {
    r := acc;
    for j := 0 to |expressions|
      invariant r == AddScores(acc, expressions[..j])
    {
      assert expressions[..j + 1][..j] == expressions[..j];
      r := AddScore(r, expressions[j].0, expressions[j].1);
    }
    assert expressions[..|expressions|] == expressions;
  }

  /** Every running sum divided by the number of samples. */
  function Scale(acc: Expressions, n: nat): (r: Expressions)
    requires n > 0
    ensures |r| == |acc| && Labels(r) == Labels(acc)
    ensures forall k :: ScoreOf(r, k) == ScoreOf(acc, k) / n as real
  {
    if |acc| == 0 then []
    else
      var tail := Scale(acc[1..], n);
      LabelsCons(acc[0], acc[1..]);
      assert acc == [acc[0]] + acc[1..];
      LabelsCons((acc[0].0, acc[0].1 / n as real), tail);
      [(acc[0].0, acc[0].1 / n as real)] + tail
  }

  /** The `forEach` over the keys that divides every sum by the number of samples. */
  method DivideScores(acc: Expressions, n: nat) returns (r: Expressions)
    requires n > 0
    ensures r == Scale(acc, n)
  {
    r := acc;
    for j := 0 to |acc|
      invariant |r| == |acc|
      invariant forall i :: 0 <= i < j ==> r[i] == (acc[i].0, acc[i].1 / n as real)
      invariant forall i :: j <= i < |acc| ==> r[i] == acc[i]
    {
      r := r[j := (r[j].0, r[j].1 / n as real)];
    }
    ScaleAt(acc, n);
  }

  lemma {:induction false} ScaleAt(acc: Expressions, n: nat)
    requires n > 0
    ensures forall i :: 0 <= i < |acc| ==> Scale(acc, n)[i] == (acc[i].0, acc[i].1 / n as real)
  {
    if |acc| > 0 {
      ScaleAt(acc[1..], n);
    }
  }

  /** What the aggregation loop has collected so far. */
  datatype Tallies = Tallies(counts: MoodCounts, sums: Expressions, errors: seq<ErrorKind>)

  const NoTallies := Tallies(NoMoods, [], [])

  /** One loop step: a success adds to its mood's count and to the expression sums,
      a failure appends its error code, a `null` result changes nothing. */
  function Absorb(t: Tallies, r: Option<SampleResult>): Tallies
  {
    match r
    case Some(Detected(m, _, _, all)) => Tallies(Increment(t.counts, m), AddScores(t.sums, all), t.errors)
    case Some(Failed(kind, _)) => t.(errors := t.errors + [kind])
    case None => t
  }

  function Gather(results: seq<Option<SampleResult>>): Tallies
  {
    if |results| == 0 then NoTallies
    else Absorb(Gather(results[..|results| - 1]), results[|results| - 1])
  }

  /** The samples that succeeded with mood `m`. */
  ghost function MoodSamples(results: seq<Option<SampleResult>>, m: Mood): set<nat>
  {
    set i: nat | i < |results| && results[i].Some? && results[i].value.Detected? && results[i].value.mood == m
  }

  /** The samples that failed with error `kind`. */
  ghost function ErrorSamples(results: seq<Option<SampleResult>>, kind: ErrorKind): set<nat>
  {
    set i: nat | i < |results| && results[i].Some? && results[i].value.Failed? && results[i].value.error == kind
  }

  /** The samples that failed. */
  ghost function FailedSamples(results: seq<Option<SampleResult>>): set<nat>
  {
    set i: nat | i < |results| && results[i].Some? && results[i].value.Failed?
  }

  /** Sum, over the successful samples, of the scores they list under `key`. */
  ghost function DetectedTotal(results: seq<Option<SampleResult>>, key: string): real
  {
    if |results| == 0 then 0.0
    else
      var last := results[|results| - 1];
      DetectedTotal(results[..|results| - 1], key)
      + (if last.Some? && last.value.Detected? then LabelTotal(last.value.allExpressions, key) else 0.0)
  }

  /** Each mood's count is the number of samples that succeeded with that mood. */
  lemma {:induction false} GatherCounts(results: seq<Option<SampleResult>>)
    ensures forall m :: CountOf(Gather(results).counts, m) == |MoodSamples(results, m)|
  {
    if |results| > 0 {
      var n := |results| - 1;
      var prefix, last := results[..n], results[n];
      GatherCounts(prefix);
      forall m ensures CountOf(Gather(results).counts, m) == |MoodSamples(results, m)| {
        var extra: set<nat> := if last.Some? && last.value.Detected? && last.value.mood == m then {n} else {};
        assert MoodSamples(results, m) == MoodSamples(prefix, m) + extra;
        assert n !in MoodSamples(prefix, m);
      }
    }
  }

  lemma ErrorSamplesSnoc(results: seq<Option<SampleResult>>, k: ErrorKind)
    requires |results| > 0
    ensures var n, last := |results| - 1, results[|results| - 1];
            ErrorSamples(results, k) ==
              ErrorSamples(results[..n], k) + (if last.Some? && last.value.Failed? && last.value.error == k then {n} else {})
  {
    var n := |results| - 1;
    forall i: nat | i < n ensures results[..n][i] == results[i] {
    }
  }

  lemma FailedSamplesSnoc(results: seq<Option<SampleResult>>)
    requires |results| > 0
    ensures var n, last := |results| - 1, results[|results| - 1];
            FailedSamples(results) == FailedSamples(results[..n]) + (if last.Some? && last.value.Failed? then {n} else {})
  {
    var n := |results| - 1;
    forall i: nat | i < n ensures results[..n][i] == results[i] {
    }
  }

  lemma {:induction false} GatherErrorCount(results: seq<Option<SampleResult>>, k: ErrorKind)
    ensures Count(Gather(results).errors, k) == |ErrorSamples(results, k)|
  {
    if |results| > 0 {
      var n := |results| - 1;
      var prefix, last := results[..n], results[n];
      GatherErrorCount(prefix, k);
      ErrorSamplesSnoc(results, k);
      assert n !in ErrorSamples(prefix, k);
      if last.Some? && last.value.Failed? {
        CountAppend(Gather(prefix).errors, last.value.error, k);
      }
    }
  }

  lemma {:induction false} GatherErrorTotal(results: seq<Option<SampleResult>>)
    ensures |Gather(results).errors| == |FailedSamples(results)|
  {
    if |results| > 0 {
      var n := |results| - 1;
      GatherErrorTotal(results[..n]);
      FailedSamplesSnoc(results);
      assert n !in FailedSamples(results[..n]);
    }
  }

  /** The error list holds one code per failed sample, each code as often as
      samples failed that way. */
  lemma GatherErrors(results: seq<Option<SampleResult>>)
    ensures |Gather(results).errors| == |FailedSamples(results)|
    ensures forall k :: Count(Gather(results).errors, k) == |ErrorSamples(results, k)|
  {
    GatherErrorTotal(results);
    forall k ensures Count(Gather(results).errors, k) == |ErrorSamples(results, k)| {
      GatherErrorCount(results, k);
    }
  }

  /** Each expression sum is the total of that expression's scores over the
      successful samples. */
  lemma {:induction false} GatherSums(results: seq<Option<SampleResult>>)
    ensures forall l :: ScoreOf(Gather(results).sums, l) == DetectedTotal(results, l)
  {
    if |results| > 0 {
      GatherSums(results[..|results| - 1]);
    }
  }

  /** Every sample adds to at most one counter. */
  lemma {:induction false} GatherBound(results: seq<Option<SampleResult>>)
    ensures Total(Gather(results).counts) + |Gather(results).errors| <= |results|
  {
    if |results| > 0 {
      GatherBound(results[..|results| - 1]);
    }
  }

  /** The per-sample results the aggregation loop sees: sample i of the camera, for
      each of the first `n` samples. */
  function Outcomes(camera: seq<Sample>, n: nat): (r: seq<Option<SampleResult>>)
    requires n <= |camera|
    ensures |r| == n && forall i :: 0 <= i < n ==> r[i] == Detect(Some(camera[i]))
  {
    seq(n, i requires 0 <= i < n => Detect(Some(camera[i])))
  }

  /** The aggregator's answer. */
  datatype AggregateResult =
    | MoodFound(mood: Mood, confidence: real, allExpressions: Expressions)
    | DetectionFailed(error: ErrorKind, message: string)

  const DarkAreaMessage := "The lighting is too dark. Please move to a brighter area."
  const RetryMessage := "Couldn't detect facial expressions clearly. Please try again."

  /** The message that goes with the most common error. */
  function FailureMessage(kind: ErrorKind): string
  {
    match kind
    case Lighting => DarkAreaMessage
    case NoFace => NoFaceMessage
    case _ => RetryMessage
  }

  /** After the loop: the dominant mood with confidence count/samples and the sums
      averaged over all samples; or, without any success, the most common error. */
  function Conclude(t: Tallies, n: nat): AggregateResult
    requires Total(t.counts) <= n
  {
    var highest := HighestCount(t.counts);
    if highest > 0 then MoodFound(Dominant(t.counts), highest as real / n as real, Scale(t.sums, n))
    else
      var kind := MostCommon(t.errors, Technical);
      DetectionFailed(kind, FailureMessage(kind))
  }

  /** How many times the loop runs for a requested sample count. */
  function SampleCount(samples: int): nat
  {
    if samples > 0 then samples else 0
  }

  /** `detectFacialExpressionAdvanced(videoElement, samples)`: `video` holds the
      samples the camera will deliver, `None` standing for a missing element. */
  function DetectAdvanced(video: Option<seq<Sample>>, samples: int): Option<AggregateResult>
    requires video.Some? ==> samples <= |video.value|
  {
    if video.None? then None
    else
      var n := SampleCount(samples);
      var results := Outcomes(video.value, n);
      GatherBound(results);
      Some(Conclude(Gather(results), n))
  }

  /** The aggregation loop, with the classifier run once per sample. */
  method DetectFacialExpressionAdvanced(video: Option<seq<Sample>>, samples: int) returns (r: Option<AggregateResult>)
    requires video.Some? ==> samples <= |video.value|
    ensures r == DetectAdvanced(video, samples)
  {
    if video.None? {
      return None;
    }
    var camera := video.value;
    ghost var n := SampleCount(samples);
    ghost var results := Outcomes(camera, n);
    var counts, sums, errors := NoMoods, [], [];
    var i := 0;
    while i < samples
      invariant 0 <= i <= n
      invariant Gather(results[..i]) == Tallies(counts, sums, errors)
    {
      assert results[..i + 1][..i] == results[..i];
      var result := DetectFacialExpression(Some(camera[i]));
      if result.Some? && result.value.Detected? {
        counts := Increment(counts, result.value.mood);
        sums := MergeScores(sums, result.value.allExpressions);
      } else if result.Some? && result.value.Failed? {
        errors := errors + [result.value.error];
      }
      i := i + 1;
    }
    assert results[..i] == results;
    GatherBound(results);
    var mood, highest := PickDominant(counts);
    if |sums| > 0 {
      sums := DivideScores(sums, samples);
    }
    if highest > 0 {
      r := Some(MoodFound(mood, highest as real / samples as real, sums));
    } else {
      var tally := CountOccurrences(errors);
      var worst := PickFirstMax(AsScores(tally), (Technical, 0.0));
      r := Some(DetectionFailed(worst.0, FailureMessage(worst.0)));
    }
  }

  /** Some mood was counted exactly when some sample succeeded. */
  lemma {:induction false} GatherAny(results: seq<Option<SampleResult>>)
    ensures Total(Gather(results).counts) > 0 <==>
              exists i :: 0 <= i < |results| && results[i].Some? && results[i].value.Detected?
  {
    if |results| > 0 {
      var prefix := results[..|results| - 1];
      GatherAny(prefix);
      assert forall i :: 0 <= i < |prefix| ==> prefix[i] == results[i];
    }
  }

  /** The aggregate succeeds exactly when at least one sample succeeded. */
  lemma AdvancedSucceedsIff(camera: seq<Sample>, samples: int)
    requires samples <= |camera|
    ensures DetectAdvanced(Some(camera), samples).Some?
    ensures DetectAdvanced(Some(camera), samples).value.MoodFound? <==>
              exists i :: 0 <= i < SampleCount(samples) && Detect(Some(camera[i])).Some? && Detect(Some(camera[i])).value.Detected?
  {
    var results := Outcomes(camera, SampleCount(samples));
    var c := Gather(results).counts;
    GatherAny(results);
    DominantSpec(c);
    assert HighestCount(c) > 0 <==> Total(c) > 0;
  }

  /** The fraction count/n of a count that does not exceed n > 0. */
  lemma FractionBounds(count: nat, n: nat)
    requires 0 < count <= n
    ensures 0.0 < count as real / n as real <= 1.0
  {
    assert count as real <= n as real;
    assert (count as real / n as real) * n as real == count as real;
  }

  /** A found mood is one with the highest count (the first of happy, sad, neutral
      on a tie), its confidence is its count over the sample count, in (0, 1], and
      each averaged score is the running sum over the sample count. */
  lemma ConcludeFound(t: Tallies, n: nat)
    requires Total(t.counts) <= n && Conclude(t, n).MoodFound?
    ensures n > 0
    ensures var r := Conclude(t, n);
            && (forall m :: CountOf(t.counts, m) <= CountOf(t.counts, r.mood))
            && (forall m :: CountOf(t.counts, m) == CountOf(t.counts, r.mood) ==> Rank(r.mood) <= Rank(m))
            && r.confidence == CountOf(t.counts, r.mood) as real / n as real
            && 0.0 < r.confidence <= 1.0
            && forall l :: ScoreOf(r.allExpressions, l) == ScoreOf(t.sums, l) / n as real
  {
    DominantSpec(t.counts);
    assert HighestCount(t.counts) <= Total(t.counts);
    FractionBounds(HighestCount(t.counts), n);
  }

  /** Without a success, the error is the most common code (the first to occur on a
      tie, 'technical' when there is none) and the message is the one for it. */
  lemma ConcludeFailed(t: Tallies, n: nat)
    requires Total(t.counts) <= n && Conclude(t, n).DetectionFailed?
    ensures Total(t.counts) == 0
    ensures var r := Conclude(t, n);
            && (|t.errors| == 0 ==> r.error == Technical)
            && (|t.errors| > 0 ==> r.error in t.errors)
            && (forall k :: Count(t.errors, k) <= Count(t.errors, r.error))
            && (forall k :: k in t.errors && k != r.error && Count(t.errors, k) == Count(t.errors, r.error) ==>
                  r.error in t.errors && FirstIndex(t.errors, r.error) < FirstIndex(t.errors, k))
            && r.message == FailureMessage(r.error)
  {
    DominantSpec(t.counts);
    MostCommonSpec(t.errors, Technical);
  }

  /** A found mood is one that the most samples succeeded with (the first of happy,
      sad, neutral on a tie); its confidence is the fraction of samples that found
      it, in (0, 1]; each expression score is that expression's total over the
      successful samples divided by the number of samples. */
  lemma AdvancedMoodFound(camera: seq<Sample>, samples: int)
    requires samples <= |camera|
    requires DetectAdvanced(Some(camera), samples).value.MoodFound?
    ensures samples > 0
    ensures var results, r := Outcomes(camera, samples), DetectAdvanced(Some(camera), samples).value;
            && (forall m :: |MoodSamples(results, m)| <= |MoodSamples(results, r.mood)|)
            && (forall m :: |MoodSamples(results, m)| == |MoodSamples(results, r.mood)| ==> Rank(r.mood) <= Rank(m))
            && r.confidence == |MoodSamples(results, r.mood)| as real / samples as real
            && 0.0 < r.confidence <= 1.0
            && forall l :: ScoreOf(r.allExpressions, l) == DetectedTotal(results, l) / samples as real
  {
    var n := SampleCount(samples);
    var results := Outcomes(camera, n);
    var t := Gather(results);
    GatherBound(results);
    assert DetectAdvanced(Some(camera), samples).value == Conclude(t, n);
    ConcludeFound(t, n);
    GatherCounts(results);
    GatherSums(results);
  }

  /** Without any success the error is the code most samples failed with; on a tie
      the code that failed first; with no failure at all (no samples) it is
      'technical'. The message is the one for that code. */
  lemma AdvancedFailure(camera: seq<Sample>, samples: int)
    requires samples <= |camera|
    requires DetectAdvanced(Some(camera), samples).value.DetectionFailed?
    ensures var results, r := Outcomes(camera, SampleCount(samples)), DetectAdvanced(Some(camera), samples).value;
            var errors := Gather(results).errors;
            && (forall i :: 0 <= i < |results| ==> !(results[i].Some? && results[i].value.Detected?))
            && (|FailedSamples(results)| == 0 ==> r.error == Technical)
            && (|FailedSamples(results)| > 0 ==> r.error in errors)
            && (forall k :: |ErrorSamples(results, k)| <= |ErrorSamples(results, r.error)|)
            && (forall k :: k in errors && k != r.error && |ErrorSamples(results, k)| == |ErrorSamples(results, r.error)| ==>
                  r.error in errors && FirstIndex(errors, r.error) < FirstIndex(errors, k))
            && r.message == FailureMessage(r.error)
  {
    var results := Outcomes(camera, SampleCount(samples));
    var t := Gather(results);
    GatherBound(results);
    assert DetectAdvanced(Some(camera), samples).value == Conclude(t, SampleCount(samples));
    var r := Conclude(t, SampleCount(samples));
    assert forall i :: 0 <= i < |results| ==> !(results[i].Some? && results[i].value.Detected?) by {
      AdvancedSucceedsIff(camera, samples);
    }
    ConcludeFailed(t, SampleCount(samples));
    GatherErrors(results);
    assert forall k :: |ErrorSamples(results, k)| == Count(t.errors, k);
  }
}
