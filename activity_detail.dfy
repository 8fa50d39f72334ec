/**
 * The logic of src/components/ActivityDetail.js: reading the minutes out of an
 * activity's duration text, the m:ss clock display, and the countdown timer whose
 * state the start button, the one-second interval, the cancel button and the
 * complete button change.
 */
module ActivityDetail {
  import opened Wrappers
  import opened Activities

  // ---------------------------------------------------------------------------
  // Decimal digits

  predicate IsDigit(c: char)
  {
    '0' <= c <= '9'
  }

  predicate AllDigits(s: string)
  {
    forall i :: 0 <= i < |s| ==> IsDigit(s[i])
  }

  function DigitValue(c: char): nat
    requires IsDigit(c)
  {
    c as int - '0' as int
  }

  function Digit(d: nat): (c: char)
    requires d < 10
    ensures IsDigit(c) && DigitValue(c) == d
  {
    ('0' as int + d) as char
  }

  /** The number a run of decimal digits denotes (its base-10 value). */
  function DigitsValue(s: string): nat
    requires AllDigits(s)
  {
    if |s| == 0 then 0
    else DigitsValue(s[..|s| - 1]) * 10 + DigitValue(s[|s| - 1])
  }

  /** The decimal rendering of a number (what a template literal gives). */
  function NatToString(n: nat): (s: string)
    ensures |s| > 0 && AllDigits(s)
  {
    if n < 10 then [Digit(n)] else NatToString(n / 10) + [Digit(n % 10)]
  }

  /** Rendering a number and reading it back gives the number back, and the
      rendering has no leading zero. */
  lemma {:induction false} NatToStringRoundTrip(n: nat)
    ensures DigitsValue(NatToString(n)) == n
    ensures |NatToString(n)| > 1 ==> NatToString(n)[0] != '0'
  {
    if n >= 10 {
      NatToStringRoundTrip(n / 10);
      var s := NatToString(n);
      assert s[..|s| - 1] == NatToString(n / 10);
    }
  }

  // ---------------------------------------------------------------------------
  // parseDuration

  /** Index of the first digit of `s`, or |s| when there is none. */
  function FirstDigit(s: string): (i: nat)
    ensures i <= |s|
    ensures forall j :: 0 <= j < i ==> !IsDigit(s[j])
    ensures i < |s| ==> IsDigit(s[i])
  {
    if |s| == 0 || IsDigit(s[0]) then 0 else 1 + FirstDigit(s[1..])
  }

  /** Length of the longest prefix of `s` made of digits. */
  function DigitRunLength(s: string): (n: nat)
    ensures n <= |s| && AllDigits(s[..n])
    ensures n < |s| ==> !IsDigit(s[n])
  {
    if |s| == 0 || !IsDigit(s[0]) then 0
    else
      var n := 1 + DigitRunLength(s[1..]);
      assert forall i :: 1 <= i < n ==> s[..n][i] == s[1..][..n - 1][i - 1];
      n
  }

  /** The default number of minutes when the text has no digits. */
  const DefaultMinutes := 5

  /** The minutes of a duration text: the value of its first digit run, or 5. */
  function ParseDuration(duration: string): nat
  {
    var i := FirstDigit(duration);
    if i == |duration| then DefaultMinutes
    else
      var n := DigitRunLength(duration[i..]);
      assert duration[i..][..n] == duration[i..i + n];
      DigitsValue(duration[i..i + n])
  }

  /** Without a digit the result is the default; otherwise it is the value of a
      maximal digit run that no digit precedes. */
  lemma ParseDurationSpec(duration: string)
    ensures (forall j :: 0 <= j < |duration| ==> !IsDigit(duration[j])) ==> ParseDuration(duration) == DefaultMinutes
    ensures (exists j :: 0 <= j < |duration| && IsDigit(duration[j])) ==>
              exists i, k :: 0 <= i < k <= |duration| &&
                (forall j :: 0 <= j < i ==> !IsDigit(duration[j])) &&
                AllDigits(duration[i..k]) && (k == |duration| || !IsDigit(duration[k])) &&
                ParseDuration(duration) == DigitsValue(duration[i..k])
  {
    var i := FirstDigit(duration);
    if i < |duration| {
      var n := DigitRunLength(duration[i..]);
      assert duration[i..][..n] == duration[i..i + n];
      assert n > 0;
      if i + n < |duration| {
        assert duration[i + n] == duration[i..][n];
      }
    }
  }

  /** A range such as "15-30 min" counts as its lower end. */
  lemma RangeDurations()
    ensures ParseDuration("15-30 min") == 15
    ensures ParseDuration("5-15 min") == 5
    ensures ParseDuration("10 min") == 10
    ensures ParseDuration("later") == DefaultMinutes
  {
    ParsesFifteenToThirty();
    ParsesFiveToFifteen();
    ParsesTen();
    ParsesNoDigits();
  }

  // Worked examples behind `RangeDurations`, one fixed string each; the general
  // statement is `ParseDurationSpec`.

  lemma ParsesFifteenToThirty()
    ensures ParseDuration("15-30 min") == 15
  {
    assert DigitRunLength("15-30 min") == 2 by {
      assert "15-30 min"[1..] == "5-30 min";
      assert "5-30 min"[1..] == "-30 min";
    }
    assert "15-30 min"[0..2] == "15";
    assert "15"[..1] == "1" && "1"[..0] == "";
    assert DigitsValue("15") == DigitsValue("1") * 10 + 5;
  }

  lemma ParsesFiveToFifteen()
    ensures ParseDuration("5-15 min") == 5
  {
    assert DigitRunLength("5-15 min") == 1 by {
      assert "5-15 min"[1..] == "-15 min";
    }
    assert "5-15 min"[0..1] == "5";
  }

  lemma ParsesTen()
    ensures ParseDuration("10 min") == 10
  {
    assert DigitRunLength("10 min") == 2 by {
      assert "10 min"[1..] == "0 min";
      assert "0 min"[1..] == " min";
    }
    assert "10 min"[0..2] == "10";
    assert "10"[..1] == "1" && "1"[..0] == "";
    assert DigitsValue("10") == DigitsValue("1") * 10 + 0;
  }

  lemma ParsesNoDigits()
    ensures ParseDuration("later") == DefaultMinutes
  {
    assert FirstDigit("later") == 5 by {
      assert "later"[1..] == "ater";
      assert "ater"[1..] == "ter";
      assert "ter"[1..] == "er";
      assert "er"[1..] == "r";
      assert "r"[1..] == "";
    }
  }

  /** Every catalog duration has a digit, so the default is never used for it. */
  lemma CatalogDurationsHaveDigits(m: Moods.Mood, i: nat)
    requires i < 8
    ensures FirstDigit(ActivitiesFor(m)[i].duration) < |ActivitiesFor(m)[i].duration|
  {
    var d := ActivitiesFor(m)[i].duration;
    assert IsDigit(d[0]);
  }

  // ---------------------------------------------------------------------------
  // formatTime

  /** A number of seconds as minutes, a colon and two-digit seconds. */
  function FormatTime(seconds: nat): string
  {
    var mins, secs := seconds / 60, seconds % 60;
    NatToString(mins) + ":" + (if secs < 10 then "0" else "") + NatToString(secs)
  }

  /** The seconds field is always the two digits of `seconds % 60`, and the minutes
      field is the rendering of `seconds / 60`. */
  lemma FormatTimeShape(seconds: nat)
    ensures FormatTime(seconds) == NatToString(seconds / 60) + ":" + [Digit(seconds % 60 / 10), Digit(seconds % 60 % 10)]
  {
    var secs := seconds % 60;
    if secs >= 10 {
      assert NatToString(secs / 10) == [Digit(secs / 10)];
    }
  }

  /** Reading a clock display back: the digits before the colon are minutes, the
      two after it seconds. */
  function ParseClock(clock: string): Option<nat>
  {
    if |clock| < 4 || clock[|clock| - 3] != ':' then None
    else
      var mins, secs := clock[..|clock| - 3], clock[|clock| - 2..];
      if AllDigits(mins) && AllDigits(secs) then Some(DigitsValue(mins) * 60 + DigitsValue(secs))
      else None
  }

  /** Reading the display back gives the seconds it was made from. */
  lemma FormatTimeRoundTrip(seconds: nat)
    ensures ParseClock(FormatTime(seconds)) == Some(seconds)
  {
    FormatTimeShape(seconds);
    var m := NatToString(seconds / 60);
    NatToStringRoundTrip(seconds / 60);
    var clock := FormatTime(seconds);
    var secs := seconds % 60;
    var tail := [Digit(secs / 10), Digit(secs % 10)];
    assert clock[..|clock| - 3] == m;
    assert clock[|clock| - 2..] == tail;
    assert tail[..1] == [Digit(secs / 10)] && tail[..1][..0] == [];
    assert DigitsValue(tail[..1]) == secs / 10;
    assert DigitsValue(tail) == secs;
  }

  // ---------------------------------------------------------------------------
  // The countdown

  /** The interval's state updater: at 1 or below it stops at 0 and completes,
      otherwise it counts down by one. The flag says whether this tick completes. */
  function TickValue(prev: int): (int, bool)
  {
    if prev <= 1 then (0, true) else (prev - 1, false)
  }

  /** The time left after `k` ticks from `start`. */
  function AfterTicks(start: int, k: nat): int
  {
    if k == 0 then start else TickValue(AfterTicks(start, k - 1)).0
  }

  /** From `n` >= 1 seconds the countdown passes n, n - 1, ..., 1, 0, never going
      below 0, and of the ticks up to the n-th only the n-th completes (the
      interval is cleared then, so no tick follows it). */
  lemma {:induction false} CountdownSpec(n: int, k: nat)
    requires n >= 1
    ensures k <= n ==> AfterTicks(n, k) == n - k
    ensures k >= n ==> AfterTicks(n, k) == 0
    ensures 1 <= k <= n ==> (TickValue(AfterTicks(n, k - 1)).1 <==> k == n)
  {
    if k > 0 {
      CountdownSpec(n, k - 1);
    }
  }

  /** The mounted detail view of one activity and its timer. `timer` is the
      interval id the view holds; `ticking` says whether that interval is still
      scheduled; `completions` lists the calls to `onComplete`. */
  class ActivityTimer {
    const activity: Activity
    /** Whether the parent passed an `onComplete` callback. */
    const notifies: bool
    var isCompleted: bool
    var timer: Option<nat>
    var ticking: bool
    var timeLeft: int
    var completions: seq<Activity>

    /** A scheduled interval is always the one the view holds, and the time
        left is never negative. */
    predicate Valid()
      reads this
    {
      timeLeft >= 0 && (ticking ==> timer.Some?)
    }

    constructor(activity: Activity, notifies: bool)
      ensures Valid()
      ensures this.activity == activity && this.notifies == notifies
      ensures !isCompleted && timer.None? && !ticking && timeLeft == 0 && completions == []
    {
      this.activity := activity;
      this.notifies := notifies;
      isCompleted := false;
      timer := None;
      ticking := false;
      timeLeft := 0;
      completions := [];
    }

    /** `startTimer`: the countdown starts from the parsed minutes in seconds, and
        the new interval (whose id the browser picks, always positive) is held. */
    method StartTimer(intervalId: nat)
      requires intervalId > 0
      modifies this
      ensures Valid()
      ensures timeLeft == ParseDuration(activity.duration) * 60
      ensures timer == Some(intervalId) && ticking
      ensures isCompleted == old(isCompleted) && completions == old(completions)
    {
      var minutes := ParseDuration(activity.duration);
      timeLeft := minutes * 60;
      ticking := true;
      timer := Some(intervalId);
    }

    /** One run of the interval callback. On completion the interval clears itself,
        but the view still holds its id. */
    method Tick()
      requires Valid() && ticking
      modifies this
      ensures Valid()
      ensures timeLeft == TickValue(old(timeLeft)).0
      ensures TickValue(old(timeLeft)).1 ==> isCompleted && !ticking
      ensures !TickValue(old(timeLeft)).1 ==> isCompleted == old(isCompleted) && ticking
      ensures timer == old(timer) && completions == old(completions)
    {
      if timeLeft <= 1 {
        ticking := false;
        isCompleted := true;
        timeLeft := 0;
      } else {
        timeLeft := timeLeft - 1;
      }
    }

    /** `cancelTimer`: with a held interval, clears it and forgets it; without one,
        does nothing. */
    method CancelTimer()
      requires Valid()
      modifies this
      ensures Valid()
      ensures old(timer).None? ==> ticking == old(ticking) && timer == old(timer)
      ensures old(timer).Some? ==> !ticking && timer.None?
      ensures isCompleted == old(isCompleted) && timeLeft == old(timeLeft) && completions == old(completions)
    {
      if timer.Some? {
        ticking := false;
        timer := None;
      }
    }

    /** `completeActivity`: cancels the timer, marks the activity done and reports it
        to the parent once. */
    method CompleteActivity()
      requires Valid()
      modifies this
      ensures Valid()
      ensures isCompleted && timer.None? && !ticking
      ensures timeLeft == old(timeLeft)
      ensures completions == old(completions) + (if notifies then [activity] else [])
    {
      CancelTimer();
      isCompleted := true;
      if notifies {
        completions := completions + [activity];
      }
    }
  }
}
