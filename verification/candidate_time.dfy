/** The candidate dose time the hand tracker adjusts: a minute of the day,
    starting at 07:30, moved by the hand's horizontal offset, kept inside
    the day, and reported as zero-padded `HH:MM`. */
module CandidateTime {
  import opened Wrappers
  import opened Messages

  /** 07:30, the value the candidate time starts from whenever the camera opens. */
  const BaseMinutes: nat := 450

  /** 23:59, the last minute of the day. */
  const LastMinuteOfDay: nat := 1439

  const MinutesPerHour: nat := 60

  /** `max(0, min(1439, v))`. */
  function ClampToDay(v: int): (m: nat)
    ensures m <= LastMinuteOfDay
    ensures 0 <= v <= LastMinuteOfDay ==> m == v
  {
    if v < 0 then 0 else if v > LastMinuteOfDay then LastMinuteOfDay else v
  }

  function Distance(a: int, b: int): nat {
    if a <= b then b - a else a - b
  }

  /** The clamp picks the in-day minute closest to its argument. */
  lemma ClampNearest(v: int, w: int)
    requires 0 <= w <= LastMinuteOfDay
    ensures Distance(ClampToDay(v), v) <= Distance(w, v)
  {
  }

  /** Moving the hand further right never makes the time earlier. */
  lemma ClampMonotone(v: int, w: int)
    requires v <= w
    ensures ClampToDay(v) <= ClampToDay(w)
  {
  }

  /** The candidate time for a hand offset in whole minutes (the truncated
      `(hand_x - 0.5) * 2 * 240`): the base time moved by the offset and
      clamped into the day. */
  function CandidateMinutes(offset: int): (m: nat)
    ensures m <= LastMinuteOfDay
    ensures -(BaseMinutes as int) <= offset <= LastMinuteOfDay - BaseMinutes ==> m == BaseMinutes + offset
    ensures offset < -(BaseMinutes as int) ==> m == 0
    ensures offset > LastMinuteOfDay - BaseMinutes ==> m == LastMinuteOfDay
  {
    ClampToDay(BaseMinutes + offset)
  }

  predicate IsDigit(c: char) {
    '0' <= c <= '9'
  }

  function DigitChar(d: nat): (c: char)
    requires d < 10
    ensures IsDigit(c)
  {
    (48 + d) as char
  }

  function DigitValue(c: char): (d: nat)
    requires IsDigit(c)
    ensures d < 10 && DigitChar(d) == c
  {
    c as int - 48
  }

  predicate AllDigits(s: string) {
    forall i | 0 <= i < |s| :: IsDigit(s[i])
  }

  /** The value of a string of decimal digits, most significant first. */
  function DigitsValue(s: string): nat
    requires AllDigits(s)
  {
    if |s| == 0 then 0 else 10 * DigitsValue(s[..|s| - 1]) + DigitValue(s[|s| - 1])
  }

  /** The decimal rendering of `n`, without leading zeros. */
  function Decimal(n: nat): (s: string)
    ensures AllDigits(s)
    ensures 1 <= |s| && (|s| == 1 <==> n < 10)
  {
    if n < 10 then [DigitChar(n)] else Decimal(n / 10) + [DigitChar(n % 10)]
  }

  /** Reading the decimal rendering back gives the number. */
  lemma {:induction false} DecimalValue(n: nat)
    ensures DigitsValue(Decimal(n)) == n
  {
    if n >= 10 {
      DecimalValue(n / 10);
      var s := Decimal(n);
      assert s[..|s| - 1] == Decimal(n / 10);
    }
  }

  /** Python's `f"{n:02d}"` for a non-negative `n`: decimal, padded with a
      leading zero to at least two characters. */
  function ZeroPad2(n: nat): (s: string)
    ensures AllDigits(s) && |s| >= 2
    ensures n < 100 ==> |s| == 2
  {
    if n < 10 then ['0'] + Decimal(n) else Decimal(n)
  }

  /** Below 100, the padded rendering is exactly the tens digit and the units digit. */
  lemma ZeroPad2Digits(n: nat)
    requires n < 100
    ensures ZeroPad2(n) == [DigitChar(n / 10), DigitChar(n % 10)]
  {
    if n >= 10 {
      assert Decimal(n / 10) == [DigitChar(n / 10)];
    }
  }

  /** `f"{hours:02d}:{minutes:02d}"` with `hours = m // 60`, `minutes = m % 60`. */
  function FormatTime(m: nat): string {
    ZeroPad2(m / MinutesPerHour) + ":" + ZeroPad2(m % MinutesPerHour)
  }

  /** Reading `HH:MM` back into a minute of the day: two digits, a colon, two
      digits, hours at most 23 and minutes at most 59. */
  function ParseTime(s: string): Option<nat> {
    if |s| == 5 && s[2] == ':' && IsDigit(s[0]) && IsDigit(s[1]) && IsDigit(s[3]) && IsDigit(s[4]) then
      var hh := 10 * DigitValue(s[0]) + DigitValue(s[1]);
      var mm := 10 * DigitValue(s[3]) + DigitValue(s[4]);
      if hh <= 23 && mm <= 59 then Some(hh * MinutesPerHour + mm) else None
    else None
  }

  /** The rendering of an in-day minute spells out hour and minute digit by digit. */
  lemma FormatTimeDigits(m: nat)
    requires m <= LastMinuteOfDay
    ensures var hh := m / MinutesPerHour;
            var mm := m % MinutesPerHour;
            FormatTime(m) == [DigitChar(hh / 10), DigitChar(hh % 10), ':', DigitChar(mm / 10), DigitChar(mm % 10)]
  {
    ZeroPad2Digits(m / MinutesPerHour);
    ZeroPad2Digits(m % MinutesPerHour);
  }

  /** An in-day minute renders as five characters `HH:MM`, two digits on
      each side of a colon at index 2, with HH at most 23, MM at most 59 and
      HH * 60 + MM the minute itself. */
  lemma FormatTimeShape(m: nat)
    requires m <= LastMinuteOfDay
    ensures var s := FormatTime(m);
            && |s| == 5 && s[2] == ':'
            && AllDigits(s[..2]) && AllDigits(s[3..])
            && DigitsValue(s[..2]) <= 23 && DigitsValue(s[3..]) <= 59
            && DigitsValue(s[..2]) * MinutesPerHour + DigitsValue(s[3..]) == m
  {
    var hh := m / MinutesPerHour;
    var mm := m % MinutesPerHour;
    FormatTimeDigits(m);
    var s := FormatTime(m);
    assert s[..2] == [DigitChar(hh / 10), DigitChar(hh % 10)];
    assert s[3..] == [DigitChar(mm / 10), DigitChar(mm % 10)];
    TwoDigitsValue(hh / 10, hh % 10);
    TwoDigitsValue(mm / 10, mm % 10);
  }

  lemma TwoDigitsValue(a: nat, b: nat)
    requires a < 10 && b < 10
    ensures DigitsValue([DigitChar(a), DigitChar(b)]) == 10 * a + b
  {
    var s := [DigitChar(a), DigitChar(b)];
    assert DigitValue(DigitChar(a)) == a && DigitValue(DigitChar(b)) == b;
    assert s[..1] == [DigitChar(a)] && s[..1][..0] == [];
    assert DigitsValue(s[..1]) == a;
  }

  /** Rendering then reading back gives the same minute. */
  lemma FormatParseRoundTrip(m: nat)
    requires m <= LastMinuteOfDay
    ensures ParseTime(FormatTime(m)) == Some(m)
  {
    FormatTimeDigits(m);
  }

  lemma SplitMinutes(hh: nat, mm: nat)
    requires mm < MinutesPerHour
    ensures (hh * MinutesPerHour + mm) / MinutesPerHour == hh
    ensures (hh * MinutesPerHour + mm) % MinutesPerHour == mm
  {
  }

  /** Every string that reads as a time is the rendering of that time, so
      `HH:MM` strings and in-day minutes correspond one to one. */
  lemma ParseFormatRoundTrip(s: string)
    requires ParseTime(s).Some?
    ensures ParseTime(s).value <= LastMinuteOfDay
    ensures FormatTime(ParseTime(s).value) == s
  {
    var a, b, c, d := DigitValue(s[0]), DigitValue(s[1]), DigitValue(s[3]), DigitValue(s[4]);
    var hh := 10 * a + b;
    var mm := 10 * c + d;
    SplitMinutes(hh, mm);
    var m := ParseTime(s).value;
    assert m == hh * MinutesPerHour + mm;
    FormatTimeDigits(m);
    assert hh / 10 == a && hh % 10 == b;
    assert mm / 10 == c && mm % 10 == d;
    assert FormatTime(m) == [s[0], s[1], ':', s[3], s[4]];
  }

  /** The starting candidate time reads 07:30. */
  lemma BaseTimeText()
    ensures FormatTime(CandidateMinutes(0)) == "07:30"
  {
    FormatTimeDigits(BaseMinutes);
  }

  /** The `gesture_time_update` message for a hand offset: the clamped
      candidate time, as text and as minutes. */
  function TimeUpdate(offset: int): (msg: Message)
    ensures msg.GestureTimeUpdate?
    ensures msg.minutes == CandidateMinutes(offset)
    ensures ParseTime(msg.time) == Some(msg.minutes)
  {
    var m := CandidateMinutes(offset);
    FormatParseRoundTrip(m);
    GestureTimeUpdate(FormatTime(m), m)
  }

  /** The `gesture_time_final` message for the candidate time `m`. */
  function TimeFinal(m: nat): (msg: Message)
    requires m <= LastMinuteOfDay
    ensures msg.GestureTimeFinal? && msg.minutes == m
    ensures ParseTime(msg.time) == Some(m)
  {
    FormatParseRoundTrip(m);
    GestureTimeFinal(FormatTime(m), m)
  }

  /** A closed palm: with a client connected, the final time followed by
      `gesture_mode_toggled(enabled = false)`; with none, nothing. Gesture
      detection is switched off either way. */
  function PalmClosed(m: nat, clientCount: nat): (r: Reaction)
    requires m <= LastMinuteOfDay
    ensures !r.gestureEnabled
    ensures clientCount == 0 <==> r.messages == []
    ensures clientCount > 0 ==>
      && |r.messages| == 2
      && r.messages[0].GestureTimeFinal? && r.messages[0].minutes == m
      && ParseTime(r.messages[0].time) == Some(m)
      && r.messages[1] == GestureModeToggled(false)
  {
    if clientCount > 0 then Reaction([TimeFinal(m), GestureModeToggled(false)], false)
    else Reaction([], false)
  }
}
