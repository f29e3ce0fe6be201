/** The countdown engine of components/CountdownTimer.tsx: a timer over a
    start/end window, ticked once per second, whose state is overwritten on
    every tick except the ended one, which keeps the previous fields. Instants
    are integer milliseconds; parsing ISO strings and reading the clock are
    left to the caller. */
module Countdown {
  import opened Wrappers
  import opened Text
  import opened Cycling

  const MillisPerHour: nat := 3_600_000
  const MillisPerMinute: nat := 60_000
  const MillisPerSecond: nat := 1000
  /** `6 * 60 * 60 * 1000`: the "last hours" emphasis window. */
  const LastHoursWindow: int := 21_600_000
  /** `setInterval(updateTimer, 1000)`. */
  const TickPeriod: nat := 1000

  datatype Status = Idle | Upcoming | Active | Ended

  datatype Language = En | Bn

  /** The displayed fields (`TimerState` plus the `milliseconds` field the component uses). */
  datatype TimeLeft = TimeLeft(days: string, hours: string, minutes: string, seconds: string,
                               milliseconds: string, ended: bool)

  datatype TimerData = TimerData(timeLeft: TimeLeft, status: Status, isLastHours: bool)

  /** Which of the two instants a live tick counts down to. */
  datatype Classification = Classification(status: Status, target: int)

  /** The state before any tick: idle, every field "00", not ended. */
  const InitialTimerData: TimerData :=
    TimerData(TimeLeft("00", "00", "00", "00", "00", false), Idle, false)

  /** Position of a status in the order idle, upcoming, active, ended. */
  function Rank(s: Status): nat {
    match s
    case Idle => 0
    case Upcoming => 1
    case Active => 2
    case Ended => 3
  }

  /** The status test of one tick: upcoming is tested first, then ended. */
  function Classify(now: int, start: int, end: int): (c: Classification)
    ensures c.status != Idle
    ensures c.status == Upcoming <==> now < start
    ensures c.status == Ended <==> start <= now && end <= now
    ensures c.status == Active <==> start <= now < end
    ensures c.target == if c.status == Upcoming then start else end
    ensures c.status != Ended ==> c.target - now > 0
  {
    if now < start then Classification(Upcoming, start)
    else if now >= end then Classification(Ended, end)
    else Classification(Active, end)
  }

  /** For a well-formed window the status never goes back as time moves forward. */
  lemma StatusMonotone(now1: int, now2: int, start: int, end: int)
    requires start <= end && now1 <= now2
    ensures Rank(Classify(now1, start, end).status) <= Rank(Classify(now2, start, end).status)
  {
  }

  /** Hours, minutes and seconds of a distance, hours uncapped. */
  datatype Clock = Clock(hours: nat, minutes: nat, seconds: nat)

  function Millis(c: Clock): nat {
    c.hours * MillisPerHour + c.minutes * MillisPerMinute + c.seconds * MillisPerSecond
  }

  /** `Math.floor` of the three divisions of lines 63-65 (the distance is positive,
      so JavaScript's `%` and Dafny's agree). */
  function Decompose(d: nat): (c: Clock)
    ensures c.minutes < 60 && c.seconds < 60
    ensures Millis(c) <= d < Millis(c) + MillisPerSecond
  {
    var h := d / MillisPerHour;
    var r := d % MillisPerHour;
    var m := r / MillisPerMinute;
    SameMinuteRemainder(d);
    var s := (d % MillisPerMinute) / MillisPerSecond;
    assert d == h * MillisPerHour + r;
    assert r == m * MillisPerMinute + d % MillisPerMinute;
    assert d % MillisPerMinute == s * MillisPerSecond + (d % MillisPerMinute) % MillisPerSecond;
    Clock(h, m, s)
  }

  /** Within an hour the minute remainder is that of the whole distance. */
  lemma SameMinuteRemainder(d: nat)
    ensures d % MillisPerMinute == (d % MillisPerHour) % MillisPerMinute
  {
    var h, r := d / MillisPerHour, d % MillisPerHour;
    var m, q := r / MillisPerMinute, r % MillisPerMinute;
    assert d == (h * 60 + m) * MillisPerMinute + q;
    ModUnique(d, MillisPerMinute, h * 60 + m, q);
  }

  /** Fields of a live tick encode its distance: every field is a digit string,
      minutes and seconds exactly two characters, hours at least two. */
  ghost predicate Encodes(t: TimeLeft, d: int) {
    && AllDigits(t.hours) && AllDigits(t.minutes) && AllDigits(t.seconds)
    && |t.hours| >= 2 && |t.minutes| == 2 && |t.seconds| == 2
    && (|t.hours| > 2 ==> t.hours[0] != '0')
    && ParseDecimal(t.minutes) < 60 && ParseDecimal(t.seconds) < 60
    && var shown := Millis(Clock(ParseDecimal(t.hours), ParseDecimal(t.minutes), ParseDecimal(t.seconds)));
       shown <= d < shown + MillisPerSecond
  }

  /** One run of `updateTimer` at instant `now` on the previous state `prev`. */
  function Update(prev: TimerData, now: int, start: int, end: int): (next: TimerData)
    ensures next.status == Classify(now, start, end).status
    ensures next.status == Ended ==>
      next.timeLeft == prev.timeLeft.(ended := true) && next.isLastHours == prev.isLastHours
    ensures next.status != Ended ==>
      && !next.timeLeft.ended
      && next.timeLeft.days == "00" && next.timeLeft.milliseconds == "00"
      && Encodes(next.timeLeft, Classify(now, start, end).target - now)
      && (next.isLastHours <==> next.status == Active && end - now < LastHoursWindow)
  {
    var c := Classify(now, start, end);
    if c.status == Ended then
      prev.(status := Ended, timeLeft := prev.timeLeft.(ended := true))
    else
      var clock := Decompose(c.target - now);
      TimerData(
        TimeLeft("00", TwoDigitField(clock.hours), TwoDigitField(clock.minutes),
                 TwoDigitField(clock.seconds), "00", false),
        c.status,
        c.status == Active && end - now < LastHoursWindow)
  }

  /** The hours, minutes and seconds fields are ASCII digit strings. */
  predicate DigitFields(t: TimeLeft) {
    AllDigits(t.hours) && AllDigits(t.minutes) && AllDigits(t.seconds)
  }

  /** Every tick keeps the displayed fields digit strings: a live tick writes
      fresh ones and an ended tick keeps the previous ones. */
  lemma UpdateKeepsDigits(prev: TimerData, now: int, start: int, end: int)
    ensures DigitFields(prev.timeLeft) ==> DigitFields(Update(prev, now, start, end).timeLeft)
  {
  }

  /** A run of ticks at the given instants. */
  function Run(d: TimerData, nows: seq<int>, start: int, end: int): TimerData
    decreases |nows|
  {
    if nows == [] then d else Run(Update(d, nows[0], start, end), nows[1..], start, end)
  }

  /** Once a tick has ended the timer, later ticks past both instants leave every
      field as it was: the state stays frozen while the screen shows "Offer Ended". */
  lemma {:induction false} EndedIsFinal(d: TimerData, nows: seq<int>, start: int, end: int)
    requires d.status == Ended && d.timeLeft.ended
    requires forall i :: 0 <= i < |nows| ==> nows[i] >= start && nows[i] >= end
    ensures Run(d, nows, start, end) == d
    decreases |nows|
  {
    if nows != [] {
      assert Update(d, nows[0], start, end) == d;
      EndedIsFinal(d, nows[1..], start, end);
    }
  }

  /** An hour decomposes to 1 h 0 min 0 s. */
  lemma HourClock()
    ensures Decompose(MillisPerHour) == Clock(1, 0, 0)
  {
  }

  /** One is shown as "01". */
  lemma FieldOne()
    ensures TwoDigitField(1) == "01"
  {
  }

  /** Zero is shown as "00". */
  lemma FieldZero()
    ensures TwoDigitField(0) == "00"
  {
  }

  /** A live tick one hour before its target shows 01:00:00. */
  lemma OneHourLeft(prev: TimerData, now: int, start: int, end: int)
    requires Classify(now, start, end).status != Ended
    requires Classify(now, start, end).target - now == MillisPerHour
    ensures Update(prev, now, start, end).timeLeft == TimeLeft("00", "01", "00", "00", "00", false)
  {
    HourClock();
    FieldOne();
    FieldZero();
  }

  /** A two-hour window starting at T: an hour before T the timer counts down
      01:00:00 to the start; an hour in, 01:00:00 to the end; a second after the
      end it has ended, with the last live fields kept in the state. */
  lemma TwoHourWindow(t: int, prev: TimerData)
    ensures var before := Update(InitialTimerData, t - 3_600_000, t, t + 7_200_000);
      && before.status == Upcoming && !before.isLastHours
      && before.timeLeft == TimeLeft("00", "01", "00", "00", "00", false)
    ensures var during := Update(InitialTimerData, t + 3_600_000, t, t + 7_200_000);
      && during.status == Active && during.isLastHours
      && during.timeLeft == TimeLeft("00", "01", "00", "00", "00", false)
    ensures var after := Update(prev, t + 7_201_000, t, t + 7_200_000);
      after.status == Ended && after.timeLeft == prev.timeLeft.(ended := true)
  {
    OneHourLeft(InitialTimerData, t - 3_600_000, t, t + 7_200_000);
    OneHourLeft(InitialTimerData, t + 3_600_000, t, t + 7_200_000);
  }

  /** The component: fixed start/end instants (absent when the prop is missing or
      empty) and the `timerData` state. */
  class CountdownTimer {
    const startTime: Option<int>
    const endTime: Option<int>
    const language: Language
    var timerData: TimerData

    /** Mounting: the initial idle state, with the `language = 'bn'` default for a
        missing prop. No interval is armed unless both instants are present. */
    constructor(startTime: Option<int>, endTime: Option<int>, language: Option<Language>)
      ensures this.startTime == startTime && this.endTime == endTime
      ensures this.language == language.GetOr(Bn)
      ensures timerData == InitialTimerData && FieldsAreDigits()
    {
      this.startTime := startTime;
      this.endTime := endTime;
      this.language := language.GetOr(Bn);
      timerData := InitialTimerData;
    }

    /** The three displayed fields are ASCII digit strings. */
    predicate FieldsAreDigits()
      reads this
    {
      DigitFields(timerData.timeLeft)
    }

    /** Whether the effect arms the 1000 ms interval at all. */
    predicate Armed()
      reads this
    {
      startTime.Some? && endTime.Some?
    }

    /** One tick of the interval (or the initial call) at instant `now`; returns
      the delay to the next tick, or None when no interval exists. */
    method Tick(now: int) returns (nextDelay: Option<nat>)
      modifies this
      ensures !Armed() ==> timerData == old(timerData) && nextDelay == None
      ensures Armed() ==>
        timerData == Update(old(timerData), now, startTime.value, endTime.value)
        && nextDelay == Some(TickPeriod)
      ensures old(FieldsAreDigits()) ==> FieldsAreDigits()
    {
      if startTime.None? || endTime.None? {
        return None;
      }
      UpdateKeepsDigits(timerData, now, startTime.value, endTime.value);
      timerData := Update(timerData, now, startTime.value, endTime.value);
      nextDelay := Some(TickPeriod);
    }

    /** The three values shown in the boxes, transliterated for Bengali; None once
        the offer has ended, when only the "Offer Ended" message is rendered.
        Whenever the fields are digit strings (which every reachable state keeps),
        the Bengali boxes hold Bengali digits only and read back as the stored fields. */
    function Shown(): (shown: Option<(string, string, string)>)
      reads this
      ensures shown.None? <==> timerData.status == Ended
      ensures shown.Some? && language == En ==>
        shown.value == (timerData.timeLeft.hours, timerData.timeLeft.minutes, timerData.timeLeft.seconds)
      ensures shown.Some? && language == Bn ==>
        shown.value == (ToBengali(timerData.timeLeft.hours), ToBengali(timerData.timeLeft.minutes),
                        ToBengali(timerData.timeLeft.seconds))
      ensures shown.Some? && language == Bn && FieldsAreDigits() ==>
        && AllBengaliDigits(shown.value.0) && AllBengaliDigits(shown.value.1)
        && AllBengaliDigits(shown.value.2)
        && FromBengali(shown.value.0) == timerData.timeLeft.hours
        && FromBengali(shown.value.1) == timerData.timeLeft.minutes
        && FromBengali(shown.value.2) == timerData.timeLeft.seconds
    {
      var t := timerData.timeLeft;
      BengaliField(t.hours);
      BengaliField(t.minutes);
      BengaliField(t.seconds);
      if timerData.status == Ended then None
      else match language
        case En => Some((t.hours, t.minutes, t.seconds))
        case Bn => Some((ToBengali(t.hours), ToBengali(t.minutes), ToBengali(t.seconds)))
    }
  }

  /** Without both instants the timer never leaves its initial state, whatever ticks occur. */
  method IdleForever(timer: CountdownTimer, nows: seq<int>)
    requires !timer.Armed() && timer.timerData == InitialTimerData
    modifies timer
    ensures timer.timerData == InitialTimerData
  {
    var i := 0;
    while i < |nows|
      invariant 0 <= i <= |nows|
      invariant timer.timerData == InitialTimerData
    {
      var _ := timer.Tick(nows[i]);
      i := i + 1;
    }
  }

  // ---- Bengali digits (`toBengaliNumber`) ----

  const BengaliZero: int := 0x09E6

  predicate IsBengaliDigit(c: char) {
    BengaliZero <= c as int <= BengaliZero + 9
  }

  function BengaliDigitValue(c: char): (v: nat)
    requires IsBengaliDigit(c)
    ensures v < 10
  {
    c as int - BengaliZero
  }

  /** The lookup `englishToBengaliMap[digit] || digit` for one character. */
  function BengaliOf(c: char): (b: char)
    ensures IsDigit(c) ==> IsBengaliDigit(b) && BengaliDigitValue(b) == DigitValue(c)
    ensures !IsDigit(c) ==> b == c
  {
    if IsDigit(c) then (BengaliZero + DigitValue(c)) as char else c
  }

  /** `toBengaliNumber`: every ASCII digit becomes the Bengali digit of the same
      value, every other character is kept. */
  function ToBengali(s: string): (r: string)
    ensures |r| == |s|
    ensures forall i :: 0 <= i < |s| && IsDigit(s[i]) ==>
      IsBengaliDigit(r[i]) && BengaliDigitValue(r[i]) == DigitValue(s[i])
    ensures forall i :: 0 <= i < |s| && !IsDigit(s[i]) ==> r[i] == s[i]
  {
    seq(|s|, i requires 0 <= i < |s| => BengaliOf(s[i]))
  }

  /** The reverse map, from Bengali digits back to ASCII. */
  function FromBengali(s: string): (r: string)
    ensures |r| == |s|
  {
    seq(|s|, i requires 0 <= i < |s| =>
      if IsBengaliDigit(s[i]) then DigitChar(BengaliDigitValue(s[i])) else s[i])
  }

  predicate NoBengaliDigits(s: string) {
    forall i :: 0 <= i < |s| ==> !IsBengaliDigit(s[i])
  }

  /** Digit strings hold no Bengali digits. */
  lemma DigitsAreNotBengali(s: string)
    requires AllDigits(s)
    ensures NoBengaliDigits(s)
  {
  }

  predicate AllBengaliDigits(s: string) {
    forall i :: 0 <= i < |s| ==> IsBengaliDigit(s[i])
  }

  /** A digit field is shown as Bengali digits only, and reads back as itself. */
  lemma BengaliField(s: string)
    ensures AllDigits(s) ==> AllBengaliDigits(ToBengali(s)) && FromBengali(ToBengali(s)) == s
  {
    if AllDigits(s) {
      DigitsAreNotBengali(s);
      BengaliRoundTrip(s);
    }
  }

  /** The reverse map restores any input free of Bengali digits. */
  lemma BengaliRoundTrip(s: string)
    requires NoBengaliDigits(s)
    ensures FromBengali(ToBengali(s)) == s
  {
  }

  /** Hence `toBengaliNumber` is injective on such strings. */
  lemma BengaliInjective(a: string, b: string)
    requires NoBengaliDigits(a) && NoBengaliDigits(b)
    requires ToBengali(a) == ToBengali(b)
    ensures a == b
  {
    BengaliRoundTrip(a);
    BengaliRoundTrip(b);
  }
}
