/**
 Reading certificate expiry times from directory attributes
 (`parse_generalized_time` in crates/hoike-sign/src/dogtag_sync.rs).
 */
module GeneralizedTime {
  import opened Wrappers
  import opened Bytes
  import opened Calendar

  // ---- text --------------------------------------------------------------------------

  predicate Space(c: char) {
    || '\U{0009}' <= c <= '\U{000D}' || c == ' ' || c == '\U{0085}' || c == '\U{00A0}' || c == '\U{1680}'
    || '\U{2000}' <= c <= '\U{200A}' || c == '\U{2028}' || c == '\U{2029}' || c == '\U{202F}'
    || c == '\U{205F}' || c == '\U{3000}'
  }

  function TrimStart(s: string): string {
    if s != [] && Space(s[0]) then TrimStart(s[1..]) else s
  }

  function TrimEnd(s: string): string {
    if s != [] && Space(s[|s| - 1]) then TrimEnd(s[..|s| - 1]) else s
  }

  function Trim(s: string): string {
    TrimEnd(TrimStart(s))
  }

  predicate IsDigit(c: char) {
    '0' <= c <= '9'
  }

  predicate AllDigits(s: string) {
    forall n :: 0 <= n < |s| ==> IsDigit(s[n])
  }

  function Number(s: string): nat
    requires AllDigits(s)
  {
    if s == [] then 0 else Number(s[..|s| - 1]) * 10 + (s[|s| - 1] as int - '0' as int)
  }

  // ---- parsing -------------------------------------------------------------------------

  /** The two digits at `n`. */
  function Pair(s: string, n: nat): nat
    requires AllDigits(s) && n + 2 <= |s|
  {
    Number(s[n..n + 2])
  }

  /** A stamp's fields must be in range, but any day up to 31 passes in any month. */
  function FromFields(d: Date, hour: nat, min: nat, sec: nat): Option<u64> {
    if !(1 <= d.month <= 12) || !(1 <= d.day <= 31) || hour > 23 || min > 59 || sec > 60 then None
    else Seconds(DaysFromCivil(d), hour, min, sec)
  }

  function Seconds(days: int, hour: nat, min: nat, sec: nat): Option<u64> {
    var secs := days * 86400 + hour * 3600 + min * 60 + sec;
    if 0 <= secs < U64_LIMIT then Some(secs) else None
  }

  function StripZ(s: string): string {
    if s != [] && s[|s| - 1] == 'Z' then s[..|s| - 1] else s
  }

  function ParseGeneralizedTime(text: string): Option<u64> {
    var s := Trim(text);
    if |s| >= 13 && |s| != 14 && AllDigits(s) then
      if Number(s) < U64_LIMIT then Some(Number(s) / 1000) else None
    else
      var digits := StripZ(s);
      if |digits| != 14 || !AllDigits(digits) then None
      else FromFields(Date(Number(digits[..4]), Pair(digits, 4), Pair(digits, 6)),
                      Pair(digits, 8), Pair(digits, 10), Pair(digits, 12))
  }

  // ---- stamps ---------------------------------------------------------------------------

  function Digit(n: nat): char
    requires n <= 9
  {
    ('0' as int + n) as char
  }

  function TwoDigits(n: nat): (s: string)
    requires n <= 99
    ensures |s| == 2 && AllDigits(s)
  {
    [Digit(n / 10), Digit(n % 10)]
  }

  function FourDigits(n: nat): (s: string)
    requires n <= 9999
    ensures |s| == 4 && AllDigits(s)
  {
    TwoDigits(n / 100) + TwoDigits(n % 100)
  }

  predicate Printable(d: Date, hour: nat, min: nat, sec: nat) {
    0 <= d.year <= 9999 && 0 <= d.month <= 99 && 0 <= d.day <= 99 && hour <= 99 && min <= 99 && sec <= 99
  }

  /** YYYYMMDDHHMMSS. */
  function Stamp(d: Date, hour: nat, min: nat, sec: nat): (s: string)
    requires Printable(d, hour, min, sec)
    ensures |s| == 14 && AllDigits(s)
  {
    FourDigits(d.year)
    + (TwoDigits(d.month) + (TwoDigits(d.day) + (TwoDigits(hour) + (TwoDigits(min) + TwoDigits(sec)))))
  }

  lemma ReadTwo(n: nat)
    requires n <= 99
    ensures Number(TwoDigits(n)) == n
  {
    var s := TwoDigits(n);
    assert s[..1] == [Digit(n / 10)] && s[..1][..0] == [];
    assert Number(s[..1]) == n / 10;
  }

  lemma ReadFour(n: nat)
    requires n <= 9999
    ensures Number(FourDigits(n)) == n
  {
    var s, a, b := FourDigits(n), n / 100, n % 100;
    ReadTwo(a);
    assert s[..3][..2] == TwoDigits(a) && s[..3][2] == Digit(b / 10) && s[3] == Digit(b % 10);
  }

  lemma StampFields(d: Date, hour: nat, min: nat, sec: nat)
    requires Printable(d, hour, min, sec)
    ensures var s := Stamp(d, hour, min, sec);
            && Number(s[..4]) == d.year && Pair(s, 4) == d.month && Pair(s, 6) == d.day
            && Pair(s, 8) == hour && Pair(s, 10) == min && Pair(s, 12) == sec
  {
    var s := Stamp(d, hour, min, sec);
    assert s[..4] == FourDigits(d.year) && s[4..6] == TwoDigits(d.month) && s[6..8] == TwoDigits(d.day);
    assert s[8..10] == TwoDigits(hour) && s[10..12] == TwoDigits(min) && s[12..14] == TwoDigits(sec);
    ReadFour(d.year);
    ReadTwo(d.month);
    ReadTwo(d.day);
    ReadTwo(hour);
    ReadTwo(min);
    ReadTwo(sec);
  }

  lemma StampTrims(s: string, zulu: bool)
    requires |s| == 14 && AllDigits(s)
    ensures var t := s + (if zulu then "Z" else "");
            Trim(t) == t && StripZ(t) == s && !(|t| >= 13 && |t| != 14 && AllDigits(t))
  {
    var t := s + (if zulu then "Z" else "");
    assert IsDigit(t[0]) && (zulu ==> t[14] == 'Z');
    assert zulu ==> t[..14] == s;
    assert !zulu ==> t == s && IsDigit(t[13]);
  }

  /** Every stamp, with or without the Z, is read field by field. */
  lemma ParseStamp(d: Date, hour: nat, min: nat, sec: nat, zulu: bool)
    requires Printable(d, hour, min, sec)
    ensures ParseGeneralizedTime(Stamp(d, hour, min, sec) + (if zulu then "Z" else ""))
         == FromFields(d, hour, min, sec)
  {
    StampTrims(Stamp(d, hour, min, sec), zulu);
    StampFields(d, hour, min, sec);
  }

  /** On every valid date the parser agrees with the counting loop. */
  lemma ParseAgrees(d: Date, hour: nat, min: nat, sec: nat, zulu: bool)
    requires ValidDate(d) && d.year <= 9999 && hour <= 23 && min <= 59 && sec <= 60
    ensures ParseGeneralizedTime(Stamp(d, hour, min, sec) + (if zulu then "Z" else ""))
         == Some(CountDays(d) * 86400 + hour * 3600 + min * 60 + sec)
  {
    ParseStamp(d, hour, min, sec, zulu);
    FieldsCount(d, hour, min, sec);
  }

  lemma FieldsCount(d: Date, hour: nat, min: nat, sec: nat)
    requires ValidDate(d) && d.year <= 9999 && hour <= 23 && min <= 59 && sec <= 60
    ensures FromFields(d, hour, min, sec) == Some(CountDays(d) * 86400 + hour * 3600 + min * 60 + sec)
  {
    CountingIsCivil(d);
    CountBounded(d);
    SecondsFit(CountDays(d), hour, min, sec);
  }

  lemma SecondsFit(days: int, hour: nat, min: nat, sec: nat)
    requires 0 <= days <= 3_660_000 && hour <= 23 && min <= 59 && sec <= 60
    ensures Seconds(days, hour, min, sec) == Some(days * 86400 + hour * 3600 + min * 60 + sec)
  {
  }

  lemma CountBounded(d: Date)
    requires ValidDate(d) && d.year <= 9999
    ensures 0 <= CountDays(d) <= 3_660_000
  {
    YmdInvertsCounting(d);
    CountingIsCivil(d);
    CivilByMarch(d);
  }

  /** A day past the end of its month is accepted and read as a day of the next month. */
  lemma ImpossibleDayRolls(d: Date, hour: nat, min: nat, sec: nat)
    requires 1 <= d.month < 12 && MonthDays(d.year, d.month) < d.day <= 31
    ensures FromFields(d, hour, min, sec)
         == FromFields(Date(d.year, d.month + 1, d.day - MonthDays(d.year, d.month)), hour, min, sec)
  {
    DayRolls(d.year, d.month, d.day);
  }

  lemma RolledIsRead(d: Date, hour: nat, min: nat, sec: nat)
    requires 1970 <= d.year <= 9999 && 1 <= d.month <= 12 && MonthDays(d.year, d.month) < d.day <= 31
    requires hour <= 23 && min <= 59 && sec <= 60
    ensures FromFields(d, hour, min, sec).Some?
  {
    ImpossibleDayRolls(d, hour, min, sec);
    FieldsCount(Date(d.year, d.month + 1, d.day - MonthDays(d.year, d.month)), hour, min, sec);
  }

  lemma FieldsReadExactly(d: Date, hour: nat, min: nat, sec: nat)
    requires 1970 <= d.year <= 9999
    ensures FromFields(d, hour, min, sec).Some? <==>
            1 <= d.month <= 12 && 1 <= d.day <= 31 && hour <= 23 && min <= 59 && sec <= 60
  {
    if 1 <= d.month <= 12 && 1 <= d.day <= 31 && hour <= 23 && min <= 59 && sec <= 60 {
      if d.day <= MonthDays(d.year, d.month) {
        FieldsCount(d, hour, min, sec);
      } else {
        RolledIsRead(d, hour, min, sec);
      }
    }
  }

  /** From 1970 on a stamp is read if and only if every field is in range; a leap second is. */
  lemma StampReadExactly(d: Date, hour: nat, min: nat, sec: nat, zulu: bool)
    requires Printable(d, hour, min, sec) && d.year >= 1970
    ensures ParseGeneralizedTime(Stamp(d, hour, min, sec) + (if zulu then "Z" else "")).Some? <==>
            1 <= d.month <= 12 && 1 <= d.day <= 31 && hour <= 23 && min <= 59 && sec <= 60
  {
    ParseStamp(d, hour, min, sec, zulu);
    FieldsReadExactly(d, hour, min, sec);
  }
}
