/** Time points as text: `format_system_time`, `parse_system_time`, and the codec between an integer of
    at most 64 bits and its text. */
module TimePoint {
  import opened Leb128
  import opened Calendar

  function Ten(n: nat): (r: nat)
    ensures r >= 1
  {
    if n == 0 then 1 else 10 * Ten(n - 1)
  }

  lemma {:induction false} TenAdd(a: nat, b: nat)
    ensures Ten(a + b) == Ten(a) * Ten(b)
  {
    if a != 0 { TenAdd(a - 1, b); assert Ten(a + b) == 10 * Ten(a - 1 + b); }
  }

  // ----- fixed-width decimals

  function DigitChar(d: nat): char
    requires d < 10
  {
    ('0' as int + d) as char
  }

  predicate IsDigit(c: char) { '0' <= c <= '9' }

  function DigitOf(c: char): nat
    requires IsDigit(c)
  {
    c as int - '0' as int
  }

  /** The last `n` decimal digits of a number. */
  function Decimal(v: nat, n: nat): (s: string)
    ensures |s| == n && forall i :: 0 <= i < n ==> IsDigit(s[i])
  {
    if n == 0 then [] else Decimal(v / 10, n - 1) + [DigitChar(v % 10)]
  }

  function Number(s: string): nat
    requires forall i :: 0 <= i < |s| ==> IsDigit(s[i])
  {
    if s == [] then 0 else 10 * Number(s[..|s| - 1]) + DigitOf(s[|s| - 1])
  }

  lemma {:induction false} DecimalRoundTrip(v: nat, n: nat)
    requires v < Ten(n)
    ensures Number(Decimal(v, n)) == v
  {
    if n != 0 {
      DecimalRoundTrip(v / 10, n - 1);
      var s := Decimal(v, n);
      assert s[..n - 1] == Decimal(v / 10, n - 1);
    }
  }

  /** `append_uint`: the digits come out in reverse. */
  method AppendUint(text: string, value: nat, digits: nat) returns (text': string)
    ensures text' == text + Decimal(value, digits)
  {
    var s: string, v := "", value;
    for i := 0 to digits
      invariant Decimal(value, digits) == Decimal(v, digits - i) + s
    {
      s := [DigitChar(v % 10)] + s;
      v := v / 10;
    }
    text' := text + s;
  }

  // ----- the parts of a text

  /** A number of exactly `n` digits in front, and the rest. */
  function TakeUint(s: string, n: nat): (r: Option<(nat, string)>)
    ensures r.Some? ==> |r.value.1| == |s| - n
  {
    if |s| < n || exists i :: 0 <= i < n && !IsDigit(s[i]) then None
    else Some((Number(s[..n]), s[n..]))
  }

  function TakeChar(s: string, c: char): Option<string> {
    if s != [] && s[0] == c then Some(s[1..]) else None
  }

  /** A number followed by a separator. */
  function TakeField(s: string, n: nat, c: char): Option<(nat, string)> {
    var a := TakeUint(s, n);
    if a.None? then None
    else
      var t := TakeChar(a.value.1, c);
      if t.None? then None else Some((a.value.0, t.value))
  }

  lemma TakeDecimal(s: string, v: nat, n: nat, t: string)
    requires v < Ten(n) && s == Decimal(v, n) + t
    ensures TakeUint(s, n) == Some((v, t))
  {
    assert s[..n] == Decimal(v, n) && s[n..] == t;
    assert forall i :: 0 <= i < n ==> s[i] == Decimal(v, n)[i];
    DecimalRoundTrip(v, n);
  }

  lemma TakeDecimalField(s: string, v: nat, n: nat, c: char, t: string)
    requires v < Ten(n) && s == Decimal(v, n) + ([c] + t)
    ensures TakeField(s, n, c) == Some((v, t))
  {
    TakeDecimal(s, v, n, [c] + t);
    assert ([c] + t)[1..] == t;
  }

  /** `parse_uint` at a position of the text. */
  method ParseUint(s: string, pos: nat, digits: nat) returns (ok: bool, value: nat, pos': nat)
    requires pos <= |s|
    ensures ok <==> TakeUint(s[pos..], digits).Some?
    ensures ok ==> pos' <= |s| && TakeUint(s[pos..], digits) == Some((value, s[pos'..]))
    ensures !ok ==> pos' == pos
  {
    value, pos' := 0, pos;
    ghost var t := s[pos..];
    if |s| - pos < digits { return false, 0, pos; }
    for i := 0 to digits
      invariant forall j :: 0 <= j < i ==> IsDigit(t[j])
      invariant value == Number(t[..i])
    {
      assert t[i] == s[pos + i];
      if !IsDigit(s[pos + i]) { return false, value, pos; }
      assert t[..i + 1][..i] == t[..i];
      value := value * 10 + DigitOf(s[pos + i]);
    }
    ok, pos' := true, pos + digits;
    assert t[digits..] == s[pos'..];
  }

  // ----- date and time of day

  datatype Clock = Clock(date: Civil, time: Time)

  /** Hour 24 and second 60 are let through here. */
  predicate ValidClock(c: Clock) {
    && 1 <= c.date.m <= 12
    && 1 <= c.date.d <= (if c.date.m == 2 then 29 else DaysInMonth(c.date.y, c.date.m))
    && !(c.date.m == 2 && c.date.d == 29 && !Leap(c.date.y))
    && c.time.h <= 24 && c.time.min <= 59 && c.time.sec <= 60
  }

  /** A leap second counts as the second before it. */
  function Second(c: Clock): nat { if c.time.sec == 60 then 59 else c.time.sec }

  function ClockSeconds(c: Clock): int
    requires 1 <= c.date.m
  {
    DaysFromCivil(c.date) * 86400 + c.time.h * 3600 + c.time.min * 60 + Second(c)
  }

  /** year-month-dayThour:minute:second */
  function TakeDate(s: string): Option<(Civil, string)> {
    var y := TakeField(s, 4, '-');
    if y.None? then None
    else
      var md := TakeMonthDay(y.value.1);
      if md.None? then None else Some((Civil(y.value.0, md.value.0, md.value.1), md.value.2))
  }

  function TakeMonthDay(s: string): Option<(nat, nat, string)> {
    var m := TakeField(s, 2, '-');
    if m.None? then None
    else
      var d := TakeField(m.value.1, 2, 'T');
      if d.None? then None else Some((m.value.0, d.value.0, d.value.1))
  }

  datatype Time = Time(h: nat, min: nat, sec: nat)

  function TakeTime(s: string): Option<(Time, string)> {
    var h := TakeField(s, 2, ':');
    if h.None? then None
    else
      var min := TakeField(h.value.1, 2, ':');
      if min.None? then None
      else
        var sec := TakeUint(min.value.1, 2);
        if sec.None? then None else Some((Time(h.value.0, min.value.0, sec.value.0), sec.value.1))
  }

  function TakeClock(s: string): Option<(Clock, string)> {
    var date := TakeDate(s);
    if date.None? then None
    else
      var time := TakeTime(date.value.1);
      if time.None? then None else Some((Clock(date.value.0, time.value.0), time.value.1))
  }

  function DateText(c: Civil): string {
    Decimal(Word(c.y), 4) + (['-'] + MonthDayText(c))
  }

  /** A negative year is converted to a 64-bit word. */
  function Word(y: int): nat { y % 0x1_0000_0000_0000_0000 }

  function TimeText(time: nat): string {
    Decimal(time / 3600 % 60, 2) + ([':'] + (Decimal(time / 60 % 60, 2) + ([':'] + Decimal(time % 60, 2))))
  }

  function MonthDayText(c: Civil): string { Decimal(c.m, 2) + (['-'] + (Decimal(c.d, 2) + ['T'])) }

  lemma MonthDayRoundTrip(s: string, c: Civil, t: string)
    requires ValidDate(c) && s == MonthDayText(c) + t
    ensures TakeMonthDay(s) == Some((c.m, c.d, t))
  {
    TenTwo();
    var s3 := Decimal(c.d, 2) + (['T'] + t);
    assert s == Decimal(c.m, 2) + (['-'] + s3);
    TakeDecimalField(s, c.m, 2, '-', s3);
    TakeDecimalField(s3, c.d, 2, 'T', t);
  }

  lemma DateRoundTrip(s: string, c: Civil, t: string)
    requires 0 <= c.y <= 9999 && ValidDate(c) && s == DateText(c) + t
    ensures TakeDate(s) == Some((c, t))
  {
    TenTwo();
    var s2 := MonthDayText(c) + t;
    assert s == Decimal(Word(c.y), 4) + (['-'] + s2);
    TakeDecimalField(s, Word(c.y), 4, '-', s2);
    MonthDayRoundTrip(s2, c, t);
  }

  lemma TenTwo()
    ensures Ten(2) == 100 && Ten(4) == 10000
  {
    assert Ten(2) == 100;
  }

  function TimeOf(time: nat): Time { Time(time / 3600, time / 60 % 60, time % 60) }

  lemma TimeRoundTrip(s: string, time: nat, t: string)
    requires time < 86400 && s == TimeText(time) + t
    ensures TakeTime(s) == Some((TimeOf(time), t))
  {
    TenTwo();
    assert time / 3600 % 60 == time / 3600;
    var s3 := Decimal(time % 60, 2) + t;
    var s2 := Decimal(time / 60 % 60, 2) + ([':'] + s3);
    assert s == Decimal(time / 3600 % 60, 2) + ([':'] + s2);
    TakeDecimalField(s, time / 3600 % 60, 2, ':', s2);
    TakeDecimalField(s2, time / 60 % 60, 2, ':', s3);
    TakeDecimal(s3, time % 60, 2, t);
  }

  // ----- fraction and zone

  /** Digits after the point, with the weight of the next one. */
  function TakeNanos(s: string, scale: nat): (r: (nat, string)) {
    if s == [] || !IsDigit(s[0]) then (0, s)
    else var (n, t) := TakeNanos(s[1..], scale / 10); (scale * DigitOf(s[0]) + n, t)
  }

  function TakeFraction(s: string): (nat, string) {
    if s != [] && (s[0] == '.' || s[0] == ',') then TakeNanos(s[1..], 100000000) else (0, s)
  }

  method ParseNanos(s: string, pos: nat) returns (nsec: nat, pos': nat)
    requires pos <= |s|
    ensures pos' <= |s| && TakeNanos(s[pos..], 100000000) == (nsec, s[pos'..])
  {
    var scale: nat := 100000000;
    nsec, pos' := 0, pos;
    while pos' < |s| && IsDigit(s[pos'])
      invariant pos <= pos' <= |s|
      invariant TakeNanos(s[pos..], 100000000) == (nsec + TakeNanos(s[pos'..], scale).0, TakeNanos(s[pos'..], scale).1)
    {
      assert s[pos'..][1..] == s[pos' + 1..];
      nsec := nsec + scale * DigitOf(s[pos']);
      scale := scale / 10;
      pos' := pos' + 1;
    }
  }

  /** The offset of the zone from UTC in seconds, and the rest. */
  function TakeZone(s: string): Option<(int, string)> {
    if s != [] && s[0] == 'Z' then Some((0, s[1..]))
    else if s != [] && s[0] == '+' then TakeOffset(s[1..])
    else
      var t := if s != [] && s[0] == '-' then Some(s[1..])
               else if |s| >= 3 && s[0] == '\U{E2}' && s[1] == '\U{88}' && s[2] == '\U{92}' then Some(s[3..])
               else None;
      if t.None? then None
      else
        var r := TakeOffset(t.value);
        if r.None? || r.value.0 == 0 then None else Some((-r.value.0, r.value.1))
  }

  /** hour, optionally followed by minutes, which may be separated by a colon. */
  function TakeOffset(s: string): (r: Option<(int, string)>) {
    var h := TakeUint(s, 2);
    if h.None? then None
    else
      var sep := TakeChar(h.value.1, ':');
      var t := if sep.Some? then sep.value else h.value.1;
      var m := TakeUint(t, 2);
      if sep.Some? && m.None? then None
      else
        var min := if m.Some? then m.value.0 else 0;
        if h.value.0 > 14 || min > 59 then None
        else Some(((h.value.0 * 60 + min) * 60, if m.Some? then m.value.1 else t))
  }

  /** `parse_system_time`: seconds since 1970 and nanoseconds. */
  function Parse(s: string): Option<(int, nat)> {
    var c := TakeClock(s);
    if c.None? || !ValidClock(c.value.0) then None else ParseRest(c.value.0, c.value.1)
  }

  /** Fraction and zone, up to the end of the text. */
  function ParseRest(c: Clock, t: string): Option<(int, nat)>
    requires ValidClock(c)
  {
    var f := TakeFraction(t);
    if c.time.h == 24 && (c.time.min != 0 || Second(c) != 0 || f.0 != 0) then None
    else
      var z := TakeZone(f.1);
      if z.None? || z.value.1 != [] then None else Some((ClockSeconds(c) - z.value.0, f.0))
  }

  /** `format_system_time` */
  function Format(sec: int, subsec: nat, digits: nat): string {
    DateText(CivilFromDays(sec / 86400)) + (TimeText(sec % 86400) + FractionText(subsec, digits))
  }

  function FractionText(subsec: nat, digits: nat): string {
    if digits != 0 then ['.'] + (Decimal(subsec, digits) + ['Z']) else ['Z']
  }

  lemma {:induction false} NanosOfDecimal(s: string, v: nat, n: nat, k: nat)
    requires v < Ten(n) && n <= k && s == Decimal(v, n) + ['Z']
    ensures TakeNanos(s, Ten(k) / 10) == (v * Ten(k - n), ['Z'])
  {
    NanosOfDigits(s, Decimal(v, n), k);
    DecimalRoundTrip(v, n);
  }

  /** Digits weigh 10^k / 10, 10^k / 100, and so on. */
  lemma {:induction false} NanosOfDigits(s: string, ds: string, k: nat)
    requires (forall i :: 0 <= i < |ds| ==> IsDigit(ds[i])) && |ds| <= k && s == ds + ['Z']
    ensures TakeNanos(s, Ten(k) / 10) == (Number(ds) * Ten(k - |ds|), ['Z'])
    decreases |ds|
  {
    if ds == [] {
      assert s == ['Z'];
    } else {
      assert Ten(k) == 10 * Ten(k - 1);
      assert s[1..] == ds[1..] + ['Z'] && s[0] == ds[0];
      NanosOfDigits(s[1..], ds[1..], k - 1);
      LeadingDigit(ds);
      TenAdd(|ds| - 1, k - |ds|);
      Distribute(DigitOf(ds[0]), Ten(|ds| - 1), Number(ds[1..]), Ten(k - |ds|));
    }
  }

  lemma Distribute(d: nat, p: nat, n: nat, q: nat)
    ensures (p * q) * d + n * q == (d * p + n) * q
  {}

  lemma {:induction false} LeadingDigit(ds: string)
    requires ds != [] && forall i :: 0 <= i < |ds| ==> IsDigit(ds[i])
    ensures Number(ds) == DigitOf(ds[0]) * Ten(|ds| - 1) + Number(ds[1..])
    decreases |ds|
  {
    var n := |ds| - 1;
    if n > 0 {
      var init := ds[..n];
      LeadingDigit(init);
      assert init[1..] == ds[1..][..n - 1] && ds[1..][n - 1] == ds[n];
      assert Ten(n) == 10 * Ten(n - 1);
      Shift(DigitOf(ds[0]), Ten(n - 1), Number(init[1..]), DigitOf(ds[n]));
    }
  }

  lemma Shift(d: nat, p: nat, n: nat, x: nat)
    ensures 10 * (d * p + n) + x == d * (10 * p) + (10 * n + x)
  {}

  lemma FractionRoundTrip(subsec: nat, digits: nat)
    requires digits <= 9 && subsec < Ten(digits)
    ensures var f := TakeFraction(FractionText(subsec, digits)); f == (subsec * Ten(9 - digits), ['Z'])
  {
    var t := FractionText(subsec, digits);
    assert Ten(9) / 10 == 100000000 by { TenNine(); }
    if digits != 0 {
      assert t[1..] == Decimal(subsec, digits) + ['Z'];
      NanosOfDecimal(t[1..], subsec, digits, 9);
    }
  }

  lemma TenNine()
    ensures Ten(9) == 1000000000
  {
    assert Ten(3) == 1000;
    TenAdd(3, 3);
    TenAdd(6, 3);
  }

  lemma ParseParts(s: string, c: Clock, t: string, nanos: nat)
    requires TakeClock(s) == Some((c, t)) && ValidClock(c) && c.time.h < 24 && TakeFraction(t) == (nanos, ['Z'])
    ensures Parse(s) == Some((ClockSeconds(c), nanos))
  {
    assert ['Z'][1..] == [];
  }

  lemma TimeParts(time: nat)
    requires time < 86400
    ensures time / 3600 < 24 && time / 60 % 60 <= 59 && time % 60 <= 59
    ensures time / 3600 * 3600 + time / 60 % 60 * 60 + time % 60 == time
  {
    assert time / 3600 == time / 60 / 60;
  }

  lemma ClockOf(c: Civil, time: nat)
    requires ValidDate(c) && time < 86400
    ensures var clock := Clock(c, TimeOf(time));
            ValidClock(clock) && clock.time.h < 24 && ClockSeconds(clock) == DaysFromCivil(c) * 86400 + time
  {
    TimeParts(time);
  }

  lemma TakeClockText(s: string, c: Civil, time: nat, t: string)
    requires 0 <= c.y <= 9999 && ValidDate(c) && time < 86400 && s == DateText(c) + (TimeText(time) + t)
    ensures TakeClock(s) == Some((Clock(c, TimeOf(time)), t))
  {
    DateRoundTrip(s, c, TimeText(time) + t);
    TimeRoundTrip(TimeText(time) + t, time, t);
  }

  lemma ParseText(s: string, c: Civil, time: nat, t: string, nanos: nat)
    requires ValidDate(c) && time < 86400 && TakeClock(s) == Some((Clock(c, TimeOf(time)), t))
    requires TakeFraction(t) == (nanos, ['Z'])
    ensures Parse(s) == Some((DaysFromCivil(c) * 86400 + time, nanos))
  {
    ClockOf(c, time);
    ParseParts(s, Clock(c, TimeOf(time)), t, nanos);
  }

  lemma ParseWritten(s: string, c: Civil, time: nat, subsec: nat, digits: nat)
    requires 0 <= c.y <= 9999 && ValidDate(c) && time < 86400 && digits <= 9 && subsec < Ten(digits)
    requires s == DateText(c) + (TimeText(time) + FractionText(subsec, digits))
    ensures Parse(s) == Some((DaysFromCivil(c) * 86400 + time, subsec * Ten(9 - digits)))
  {
    var t := FractionText(subsec, digits);
    FractionRoundTrip(subsec, digits);
    TakeClockText(s, c, time, t);
    ParseText(s, c, time, t, subsec * Ten(9 - digits));
  }

  function YearOfTime(sec: int): int { CivilFromDays(sec / 86400).y }

  /** The date and the time of day that are written. */
  lemma FormatParts(sec: int, subsec: nat, digits: nat) returns (c: Civil, time: nat)
    ensures ValidDate(c) && time < 86400 && c.y == YearOfTime(sec) && DaysFromCivil(c) * 86400 + time == sec
    ensures Format(sec, subsec, digits) == DateText(c) + (TimeText(time) + FractionText(subsec, digits))
  {
    c, time := CivilFromDays(sec / 86400), sec % 86400;
  }

  /** For every time in years 0000 to 9999 and up to nine decimals, parsing its text gives it back. */
  lemma TextRoundTrip(s: string, sec: int, subsec: nat, digits: nat)
    requires digits <= 9 && subsec < Ten(digits) && 0 <= YearOfTime(sec) <= 9999 && s == Format(sec, subsec, digits)
    ensures Parse(s) == Some((sec, subsec * Ten(9 - digits)))
  {
    var c, time := FormatParts(sec, subsec, digits);
    ParseWritten(s, c, time, subsec, digits);
  }

  // ----- the loops and the cursor of the source

  method FormatDate(c: Civil) returns (text: string)
    ensures text == DateText(c)
  {
    text := AppendUint("", Word(c.y), 4);
    text := AppendUint(text + ['-'], c.m, 2);
    text := AppendUint(text + ['-'], c.d, 2);
    text := text + ['T'];
  }

  method FormatTime(time: nat) returns (text: string)
    ensures text == TimeText(time)
  {
    text := AppendUint("", time / 3600 % 60, 2);
    text := AppendUint(text + [':'], time / 60 % 60, 2);
    text := AppendUint(text + [':'], time % 60, 2);
  }

  method FormatSystemTime(sec: int, subsec: nat, digits: nat) returns (text: string)
    ensures text == Format(sec, subsec, digits)
  {
    var date := FormatDate(CivilFromDays(sec / 86400));
    var time := FormatTime(sec % 86400);
    var fraction: string := [];
    if digits != 0 { fraction := AppendUint(['.'], subsec, digits); }
    assert fraction + ['Z'] == FractionText(subsec, digits);
    text := date + (time + (fraction + ['Z']));
  }

  method ParseChar(s: string, pos: nat, c: char) returns (ok: bool, pos': nat)
    requires pos <= |s|
    ensures ok <==> TakeChar(s[pos..], c).Some?
    ensures pos' <= |s| && (ok ==> TakeChar(s[pos..], c) == Some(s[pos'..])) && (!ok ==> pos' == pos)
  {
    ok, pos' := false, pos;
    if pos < |s| && s[pos] == c {
      assert s[pos..][1..] == s[pos + 1..];
      ok, pos' := true, pos + 1;
    }
  }

  method ParseField(s: string, pos: nat, digits: nat, c: char) returns (ok: bool, value: nat, pos': nat)
    requires pos <= |s|
    ensures ok <==> TakeField(s[pos..], digits, c).Some?
    ensures pos' <= |s| && (ok ==> TakeField(s[pos..], digits, c) == Some((value, s[pos'..])))
  {
    ok, value, pos' := ParseUint(s, pos, digits);
    if ok { ok, pos' := ParseChar(s, pos', c); }
  }

  method ParseDate(s: string) returns (ok: bool, c: Civil, pos: nat)
    ensures ok <==> TakeDate(s).Some?
    ensures pos <= |s| && (ok ==> TakeDate(s) == Some((c, s[pos..])))
  {
    c := Civil(0, 0, 0);
    assert s[0..] == s;
    var y, m, d;
    ok, y, pos := ParseField(s, 0, 4, '-');
    if !ok { return; }
    ok, m, pos := ParseField(s, pos, 2, '-');
    if !ok { return; }
    ok, d, pos := ParseField(s, pos, 2, 'T');
    c := Civil(y, m, d);
  }

  method ParseTime(s: string, pos: nat) returns (ok: bool, t: Time, pos': nat)
    requires pos <= |s|
    ensures ok <==> TakeTime(s[pos..]).Some?
    ensures pos' <= |s| && (ok ==> TakeTime(s[pos..]) == Some((t, s[pos'..])))
  {
    t := Time(0, 0, 0);
    var h, min, sec;
    ok, h, pos' := ParseField(s, pos, 2, ':');
    if !ok { return; }
    ok, min, pos' := ParseField(s, pos', 2, ':');
    if !ok { return; }
    ok, sec, pos' := ParseUint(s, pos', 2);
    t := Time(h, min, sec);
  }

  method ParseOffset(s: string, pos: nat) returns (ok: bool, offset: int, pos': nat)
    requires pos <= |s|
    ensures ok <==> TakeOffset(s[pos..]).Some?
    ensures pos' <= |s| && (ok ==> TakeOffset(s[pos..]) == Some((offset, s[pos'..])))
  {
    offset := 0;
    var h, min, sep, hasMin;
    ok, h, pos' := ParseUint(s, pos, 2);
    if !ok { return; }
    sep, pos' := ParseChar(s, pos', ':');
    hasMin, min, pos' := ParseUint(s, pos', 2);
    if sep && !hasMin { return false, 0, pos'; }
    if !hasMin { min := 0; }
    if h > 14 || min > 59 { return false, 0, pos'; }
    offset := (h * 60 + min) * 60;
  }

  method ParseZone(s: string, pos: nat) returns (ok: bool, offset: int, pos': nat)
    requires pos <= |s|
    ensures ok <==> TakeZone(s[pos..]).Some?
    ensures pos' <= |s| && (ok ==> TakeZone(s[pos..]) == Some((offset, s[pos'..])))
  {
    var t := s[pos..];
    if t != [] && t[0] == 'Z' {
      return true, 0, pos + 1;
    } else if t != [] && t[0] == '+' {
      ok, offset, pos' := ParseOffset(s, pos + 1);
    } else if t != [] && t[0] == '-' {
      ok, offset, pos' := ParseOffset(s, pos + 1);
      ok, offset := ok && offset != 0, 0 - offset;
    } else if |t| >= 3 && t[0] == '\U{E2}' && t[1] == '\U{88}' && t[2] == '\U{92}' {
      assert t[3..] == s[pos + 3..];
      ok, offset, pos' := ParseOffset(s, pos + 3);
      ok, offset := ok && offset != 0, 0 - offset;
    } else {
      return false, 0, pos;
    }
  }

  method ParseFraction(s: string, pos: nat) returns (nsec: nat, pos': nat)
    requires pos <= |s|
    ensures pos' <= |s| && TakeFraction(s[pos..]) == (nsec, s[pos'..])
  {
    nsec, pos' := 0, pos;
    if pos < |s| && (s[pos] == '.' || s[pos] == ',') {
      assert s[pos..][1..] == s[pos + 1..];
      nsec, pos' := ParseNanos(s, pos + 1);
    }
  }

  method ParseEnd(s: string, pos: nat, c: Clock) returns (r: Option<(int, nat)>)
    requires pos <= |s| && ValidClock(c)
    ensures r == ParseRest(c, s[pos..])
  {
    var nsec, at := ParseFraction(s, pos);
    if c.time.h == 24 && (c.time.min != 0 || Second(c) != 0 || nsec != 0) { return None; }
    var ok, offset, end := ParseZone(s, at);
    if !ok || end != |s| { return None; }
    r := Some((ClockSeconds(c) - offset, nsec));
  }

  method ParseSystemTime(s: string) returns (r: Option<(int, nat)>)
    ensures r == Parse(s)
  {
    var ok, date, pos := ParseDate(s);
    if !ok { return None; }
    var time;
    ok, time, pos := ParseTime(s, pos);
    if !ok { return None; }
    if !ValidClock(Clock(date, time)) { return None; }
    r := ParseEnd(s, pos, Clock(date, time));
  }
}
