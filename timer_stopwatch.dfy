/**
 * app/components/TimerStopwatch.tsx: the `HH:MM:SS` formatter and the
 * regex-gated parser of the timer input, the stopwatch formatter, and the
 * control functions that set the shared timer state. The countdown itself
 * runs inside easytimer.js and is not modelled; its presence is the
 * `timerPresent` flag (`timer` is not null).
 */
module TimerStopwatch {
  import opened Wrappers
  import opened Text

  // ---------------------------------------------------------------------
  // Formatting

  /** `n.toString().padStart(2, '0')`. */
  function Pad2(n: nat): string {
    PadStart2(NatToString(n))
  }

  /** `formatTime(seconds)`: hours, minutes and seconds, each padded to two digits. */
  function FormatTime(seconds: nat): string {
    Pad2(seconds / 3600) + ":" + Pad2((seconds % 3600) / 60) + ":" + Pad2(seconds % 60)
  }

  /** `formatStopwatchTime(milliseconds)` over whole milliseconds. */
  function FormatStopwatchTime(milliseconds: nat): string {
    FormatTime(milliseconds / 1000) + "." + Pad2((milliseconds % 1000) / 10)
  }

  // ---------------------------------------------------------------------
  // Parsing

  /** One field of `^\d{0,2}:\d{0,2}:\d{0,2}$`: at most two decimal digits. */
  predicate DigitField(f: string) {
    |f| <= 2 && AllDigits(f, 10)
  }

  /** The timer input pattern, read as: three digit fields joined by two colons. */
  ghost predicate MatchesTimerPattern(value: string) {
    exists h, m, s :: DigitField(h) && DigitField(m) && DigitField(s) && value == h + ":" + m + ":" + s
  }

  /** `hours * 3600 + minutes * 60 + seconds`, with `Number("")` read as 0. */
  function FieldsSeconds(h: string, m: string, s: string): nat
    requires DigitField(h) && DigitField(m) && DigitField(s)
  {
    DigitsValue(h, 10) * 3600 + DigitsValue(m, 10) * 60 + DigitsValue(s, 10)
  }

  /**
   * `handleTimerTimeChange` on `value`: the seconds it stores in `timeLeft`,
   * or `None` when the pattern test fails and nothing is stored.
   */
  function ParseTimer(value: string): Option<nat> {
    var parts := Split(value, ':');
    if |parts| == 3 && DigitField(parts[0]) && DigitField(parts[1]) && DigitField(parts[2])
    then Some(FieldsSeconds(parts[0], parts[1], parts[2]))
    else None
  }

  /** A digit field holds no colon. */
  lemma DigitFieldNoColon(f: string)
    requires AllDigits(f, 10)
    ensures ':' !in f
  {
  }

  /** Three colon-free fields joined by colons split back into those fields. */
  lemma SplitThree(h: string, m: string, s: string)
    requires ':' !in h && ':' !in m && ':' !in s
    ensures Split(h + ":" + m + ":" + s, ':') == [h, m, s]
  {
    SplitSingle(h, ':');
    SplitAppend(h, ':', m);
    assert h + ":" + m == h + [':'] + m;
    SplitAppend(h + ":" + m, ':', s);
    assert h + ":" + m + ":" + s == (h + ":" + m) + [':'] + s;
  }

  /** Three digit fields joined by colons parse to their weighted sum. */
  lemma ParseFields(h: string, m: string, s: string)
    requires DigitField(h) && DigitField(m) && DigitField(s)
    ensures ParseTimer(h + ":" + m + ":" + s) == Some(FieldsSeconds(h, m, s))
  {
    DigitFieldNoColon(h);
    DigitFieldNoColon(m);
    DigitFieldNoColon(s);
    SplitThree(h, m, s);
  }

  /**
   * The parser accepts exactly the input pattern, and an accepted input
   * stores the weighted sum of its fields.
   */
  lemma ParseTimerPattern(value: string)
    ensures ParseTimer(value).Some? <==> MatchesTimerPattern(value)
    ensures ParseTimer(value).Some? ==>
      var parts := Split(value, ':');
      value == parts[0] + ":" + parts[1] + ":" + parts[2] &&
      ParseTimer(value).value == FieldsSeconds(parts[0], parts[1], parts[2])
  {
    var parts := Split(value, ':');
    JoinSplit(value, ':');
    if |parts| == 3 {
      assert Join(parts, ':') == parts[0] + ":" + parts[1] + ":" + parts[2] by {
        assert parts[..2][..1] == [parts[0]];
        assert Join(parts[..2], ':') == parts[0] + [':'] + parts[1];
      }
    }
    if MatchesTimerPattern(value) {
      var h, m, s :| DigitField(h) && DigitField(m) && DigitField(s) && value == h + ":" + m + ":" + s;
      DigitFieldNoColon(h);
      DigitFieldNoColon(m);
      DigitFieldNoColon(s);
      SplitThree(h, m, s);
    }
  }

  /** Hours, minutes and seconds above their usual ranges are accepted as they are. */
  lemma NonNormalisedAccepted()
    ensures ParseTimer("00:99:99") == Some(99 * 60 + 99)
  {
    Pad2Field(0);
    Pad2Field(99);
    PaddedSamples();
    ParseFields("00", "99", "99");
    assert "00" + ":" + "99" + ":" + "99" == "00:99:99";
  }

  lemma PaddedSamples()
    ensures Pad2(0) == "00" && Pad2(2) == "02" && Pad2(99) == "99"
  {
    assert NatToString(9) == "9";
    assert NatToString(99) == NatToString(9) + "9";
  }

  /** The two-digit padding of `n < 100` writes two digits with value `n`. */
  lemma Pad2Field(n: nat)
    requires n < 100
    ensures DigitField(Pad2(n)) && |Pad2(n)| == 2 && DigitsValue(Pad2(n), 10) == n
  {
    Pad2RoundTrip(n);
  }

  /**
   * Formatting, then typing the text back into the timer input, gives the
   * same number of seconds, for every time under 100 hours.
   */
  lemma FormatTimeRoundTrip(seconds: nat)
    requires seconds < 360000
    ensures ParseTimer(FormatTime(seconds)) == Some(seconds)
  {
    var h, m, s := seconds / 3600, (seconds % 3600) / 60, seconds % 60;
    Pad2Field(h);
    Pad2Field(m);
    Pad2Field(s);
    ParseFields(Pad2(h), Pad2(m), Pad2(s));
    assert h * 3600 + m * 60 + s == seconds;
  }

  /**
   * The fields of the formatted time: minutes and seconds in two digits and
   * below 60, hours in at least two digits and never truncated.
   */
  lemma FormatTimeFields(seconds: nat)
    ensures var parts := Split(FormatTime(seconds), ':');
      |parts| == 3 &&
      AllDigits(parts[0], 10) && |parts[0]| >= 2 && DigitsValue(parts[0], 10) == seconds / 3600 &&
      DigitField(parts[1]) && |parts[1]| == 2 && DigitsValue(parts[1], 10) == (seconds % 3600) / 60 < 60 &&
      DigitField(parts[2]) && |parts[2]| == 2 && DigitsValue(parts[2], 10) == seconds % 60 < 60
  {
    var h, m, s := seconds / 3600, (seconds % 3600) / 60, seconds % 60;
    NatToStringRoundTrip(h);
    if h < 10 {
      LeadingZero(NatToString(h));
      assert Pad2(h) == "0" + NatToString(h);
    }
    Pad2Field(m);
    Pad2Field(s);
    DigitFieldNoColon(Pad2(h));
    DigitFieldNoColon(Pad2(m));
    DigitFieldNoColon(Pad2(s));
    SplitThree(Pad2(h), Pad2(m), Pad2(s));
  }

  /** The centisecond field of the stopwatch is `(ms mod 1000) div 10`, in two digits, below 100. */
  lemma StopwatchCentiseconds(milliseconds: nat)
    ensures var t := FormatStopwatchTime(milliseconds);
      var cs := t[|t| - 2..];
      |t| >= 3 && t[|t| - 3] == '.' && t[..|t| - 3] == FormatTime(milliseconds / 1000) &&
      AllDigits(cs, 10) && DigitsValue(cs, 10) == (milliseconds % 1000) / 10 < 100
  {
    var c := (milliseconds % 1000) / 10;
    Pad2Field(c);
    var t := FormatStopwatchTime(milliseconds);
    assert t[|t| - 2..] == Pad2(c);
  }

  // ---------------------------------------------------------------------
  // Control state

  const DefaultTimerTime := "00:02:00"
  const DefaultTimeLeft: nat := 120

  /** The fields of the timer context the component sets. */
  class TimerState {
    var timerTime: string
    var timeLeft: nat
    var timerPaused: bool
    var isTimerRunning: bool
    var stopwatchTime: nat
    var stopwatchPaused: bool
    var isStopwatchRunning: bool
    /** The easytimer instance exists (`timer` is not null). */
    const timerPresent: bool

    /** The context's defaults, with nothing kept in local storage. */
    constructor (timerPresent: bool)
      ensures this.timerPresent == timerPresent
      ensures timerTime == DefaultTimerTime && timeLeft == DefaultTimeLeft && !timerPaused && !isTimerRunning
      ensures stopwatchTime == 0 && !stopwatchPaused && !isStopwatchRunning
    {
      this.timerPresent := timerPresent;
      timerTime := DefaultTimerTime;
      timeLeft := DefaultTimeLeft;
      timerPaused := false;
      isTimerRunning := false;
      stopwatchTime := 0;
      stopwatchPaused := false;
      isStopwatchRunning := false;
    }

    /** `handleTimerTimeChange`: an input that fails the pattern changes nothing. */
    method HandleTimerTimeChange(value: string)
      modifies this
      ensures ParseTimer(value).Some? ==> timerTime == value && timeLeft == ParseTimer(value).value
      ensures ParseTimer(value).None? ==> timerTime == old(timerTime) && timeLeft == old(timeLeft)
      ensures timerPaused == old(timerPaused) && isTimerRunning == old(isTimerRunning)
      ensures stopwatchTime == old(stopwatchTime) && stopwatchPaused == old(stopwatchPaused)
      ensures isStopwatchRunning == old(isStopwatchRunning)
    {
      var parsed := ParseTimer(value);
      if parsed.Some? {
        timerTime := value;
        timeLeft := parsed.value;
      }
    }

    /** `startTimer`. */
    method StartTimer()
      modifies this
      ensures timerPresent ==> isTimerRunning && !timerPaused
      ensures !timerPresent ==> isTimerRunning == old(isTimerRunning) && timerPaused == old(timerPaused)
      ensures timerTime == old(timerTime) && timeLeft == old(timeLeft)
      ensures stopwatchTime == old(stopwatchTime) && stopwatchPaused == old(stopwatchPaused)
      ensures isStopwatchRunning == old(isStopwatchRunning)
    {
      if timerPresent {
        isTimerRunning := true;
        timerPaused := false;
      }
    }

    /** `pauseTimer` (`paused`) and `resumeTimer` (`!paused`). */
    method SetTimerPaused(paused: bool)
      modifies this
      ensures timerPaused == if timerPresent then paused else old(timerPaused)
      ensures timerTime == old(timerTime) && timeLeft == old(timeLeft) && isTimerRunning == old(isTimerRunning)
      ensures stopwatchTime == old(stopwatchTime) && stopwatchPaused == old(stopwatchPaused)
      ensures isStopwatchRunning == old(isStopwatchRunning)
    {
      if timerPresent {
        timerPaused := paused;
      }
    }

    /** `resetTimer`: back to two minutes, stopped. */
    method ResetTimer()
      modifies this
      ensures timerPresent ==>
        timerTime == DefaultTimerTime && timeLeft == DefaultTimeLeft && !isTimerRunning && !timerPaused
      ensures !timerPresent ==>
        timerTime == old(timerTime) && timeLeft == old(timeLeft) &&
        isTimerRunning == old(isTimerRunning) && timerPaused == old(timerPaused)
      ensures stopwatchTime == old(stopwatchTime) && stopwatchPaused == old(stopwatchPaused)
      ensures isStopwatchRunning == old(isStopwatchRunning)
    {
      if timerPresent {
        timerTime := DefaultTimerTime;
        timeLeft := DefaultTimeLeft;
        isTimerRunning := false;
        timerPaused := false;
      }
    }

    /** `startStopwatch`. */
    method StartStopwatch()
      modifies this
      ensures isStopwatchRunning && stopwatchPaused == old(stopwatchPaused) && stopwatchTime == old(stopwatchTime)
      ensures timerTime == old(timerTime) && timeLeft == old(timeLeft)
      ensures timerPaused == old(timerPaused) && isTimerRunning == old(isTimerRunning)
    {
      isStopwatchRunning := true;
    }

    /** `pauseStopwatch` (`paused`) and `resumeStopwatch` (`!paused`). */
    method SetStopwatchPaused(paused: bool)
      modifies this
      ensures stopwatchPaused == paused
      ensures isStopwatchRunning == old(isStopwatchRunning) && stopwatchTime == old(stopwatchTime)
      ensures timerTime == old(timerTime) && timeLeft == old(timeLeft)
      ensures timerPaused == old(timerPaused) && isTimerRunning == old(isTimerRunning)
    {
      stopwatchPaused := paused;
    }

    /** `resetStopwatch`: only the elapsed time goes back to 0; running and paused stay as they are. */
    method ResetStopwatch()
      modifies this
      ensures stopwatchTime == 0
      ensures stopwatchPaused == old(stopwatchPaused) && isStopwatchRunning == old(isStopwatchRunning)
      ensures timerTime == old(timerTime) && timeLeft == old(timeLeft)
      ensures timerPaused == old(timerPaused) && isTimerRunning == old(isTimerRunning)
    {
      stopwatchTime := 0;
    }
  }

  /** The values `resetTimer` sets agree: the text it shows parses to the seconds it stores. */
  lemma ResetTimerConsistent()
    ensures ParseTimer(DefaultTimerTime) == Some(DefaultTimeLeft)
    ensures FormatTime(DefaultTimeLeft) == DefaultTimerTime
  {
    Pad2Field(0);
    Pad2Field(2);
    PaddedSamples();
    ParseFields("00", "02", "00");
    assert "00" + ":" + "02" + ":" + "00" == DefaultTimerTime;
  }
}
