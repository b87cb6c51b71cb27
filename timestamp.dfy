/** The upload timestamp, `datetime.now().strftime('%Y%m%d_%H%M%S')`, with the
    clock reading passed in as a value. */
module Timestamp {
  import opened Wrappers
  import opened Text

  datatype DateTime = DateTime(year: nat, month: nat, day: nat, hour: nat, minute: nat, second: nat)

  predicate IsLeapYear(y: nat) {
    y % 4 == 0 && (y % 100 != 0 || y % 400 == 0)
  }

  function DaysInMonth(y: nat, m: nat): nat
    requires 1 <= m <= 12
  {
    if m == 2 then (if IsLeapYear(y) then 29 else 28)
    else if m == 4 || m == 6 || m == 9 || m == 11 then 30
    else 31
  }

  /** A reading of the local clock that `%Y` renders as four digits. */
  predicate Valid(t: DateTime) {
    && 1000 <= t.year <= 9999
    && 1 <= t.month <= 12
    && 1 <= t.day <= DaysInMonth(t.year, t.month)
    && t.hour < 24 && t.minute < 60 && t.second < 60
  }

  /** `YYYYMMDD_HHMMSS`. */
  function Format(t: DateTime): (s: string)
    requires Valid(t)
    ensures |s| == 15 && s[8] == '_'
    ensures AllDigits(s[..8]) && AllDigits(s[9..])
  {
    var s := FixedDigits(t.year, 4) + FixedDigits(t.month, 2) + FixedDigits(t.day, 2) + "_"
      + FixedDigits(t.hour, 2) + FixedDigits(t.minute, 2) + FixedDigits(t.second, 2);
    assert forall i :: 0 <= i < 8 ==> s[..8][i] == s[i];
    assert forall i :: 9 <= i < 15 ==> s[9..][i - 9] == s[i];
    s
  }

  /** Reads a `YYYYMMDD_HHMMSS` token back into its fields. */
  function Parse(s: string): (r: Option<DateTime>)
    ensures r.Some? ==> |s| == 15
  {
    if |s| == 15 && AllDigits(s[..8]) && s[8] == '_' && AllDigits(s[9..]) then
      Some(DateTime(DecimalValue(s[0..4]), DecimalValue(s[4..6]), DecimalValue(s[6..8]),
                    DecimalValue(s[9..11]), DecimalValue(s[11..13]), DecimalValue(s[13..15])))
    else None
  }

  /** The token determines the clock reading it was made from. */
  lemma ParseFormat(t: DateTime)
    requires Valid(t)
    ensures Parse(Format(t)) == Some(t)
  {
    var s := Format(t);
    assert s == FixedDigits(t.year, 4) + FixedDigits(t.month, 2) + FixedDigits(t.day, 2) + "_"
      + FixedDigits(t.hour, 2) + FixedDigits(t.minute, 2) + FixedDigits(t.second, 2);
    assert s[0..4] == FixedDigits(t.year, 4);
    assert s[4..6] == FixedDigits(t.month, 2);
    assert s[6..8] == FixedDigits(t.day, 2);
    assert s[9..11] == FixedDigits(t.hour, 2);
    assert s[11..13] == FixedDigits(t.minute, 2);
    assert s[13..15] == FixedDigits(t.second, 2);
    FixedDigitsRoundTrip(t.year, 4);
    FixedDigitsRoundTrip(t.month, 2);
    FixedDigitsRoundTrip(t.day, 2);
    FixedDigitsRoundTrip(t.hour, 2);
    FixedDigitsRoundTrip(t.minute, 2);
    FixedDigitsRoundTrip(t.second, 2);
  }

  lemma FormatInjective(t: DateTime, u: DateTime)
    requires Valid(t) && Valid(u) && Format(t) == Format(u)
    ensures t == u
  {
    ParseFormat(t);
    ParseFormat(u);
  }
}
