/** Points in time as the worker sees them through JavaScript's `Date`: a
    millisecond count since the epoch, which is what `<` and `>` compare,
    and the UTC calendar fields read by `getUTCFullYear()`,
    `getUTCMonth() + 1`, `getUTCDate()` and so on. Constructing a `Date`
    from a timestamp column is not modelled; the worker receives it as a
    parser that may fail (an invalid date). */
module Calendar {

  import opened Strings
  import opened Decimal

  datatype UtcFields = UtcFields(
    time: int,
    year: int,
    month: int,
    day: int,
    hour: int,
    minute: int,
    second: int,
    millisecond: int)

  type Instant = t: UtcFields
    | 1 <= t.month <= 12 && 1 <= t.day <= 31 && 0 <= t.hour < 24
      && 0 <= t.minute < 60 && 0 <= t.second < 60 && 0 <= t.millisecond < 1000
    witness UtcFields(0, 1970, 1, 1, 0, 0, 0, 0)

  /** The year as `toISOString` writes it: four digits for years 0 to 9999,
      otherwise a sign and six digits. */
  function IsoYear(year: int): (r: string)
    ensures 'T' !in r && |r| >= 4
  {
    if 0 <= year <= 9999 then
      NoTInPadded(NatToString(year), 4);
      PadStart(NatToString(year), 4, '0')
    else
      var digits := PadStart(NatToString(if year < 0 then -year else year), 6, '0');
      NoTInPadded(NatToString(if year < 0 then -year else year), 6);
      (if year < 0 then "-" else "+") + digits
  }

  function Pad2(n: nat): (r: string)
    ensures 'T' !in r && |r| >= 2
  {
    NoTInPadded(NatToString(n), 2);
    PadStart(NatToString(n), 2, '0')
  }

  /** `YYYY-MM-DD`, the calendar-date part of an ISO string. */
  function IsoDate(t: Instant): (r: string)
    ensures 'T' !in r && |r| >= 10
  {
    IsoYear(t.year) + "-" + (Pad2(t.month) + "-" + Pad2(t.day))
  }

  /** `HH:mm:ss.sssZ`, the time-of-day part of an ISO string. */
  function IsoTime(t: Instant): string
  {
    Pad2(t.hour) + ":" + Pad2(t.minute) + ":" + Pad2(t.second)
      + "." + PadStart(NatToString(t.millisecond), 3, '0') + "Z"
  }

  /** `toISOString()`: `YYYY-MM-DDTHH:mm:ss.sssZ` in UTC. */
  function ToIsoString(t: Instant): (r: string)
    ensures |r| > |IsoDate(t)| && r[..|IsoDate(t)|] == IsoDate(t) && r[|IsoDate(t)|] == 'T'
    ensures r[|r| - 1] == 'Z'
  {
    IsoDate(t) + "T" + IsoTime(t)
  }

  lemma {:induction false} NoTInPadded(s: string, width: nat)
    requires IsDigits(s)
    ensures 'T' !in PadStart(s, width, '0')
  {
    var r := PadStart(s, width, '0');
    PadStartShape(s, width, '0');
    forall i | 0 <= i < |r|
      ensures r[i] != 'T'
    {
      if i >= |r| - |s| {
        assert r[i] == r[|r| - |s|..][i - (|r| - |s|)];
      }
    }
  }

  /** The date part is everything before the `T` of the ISO string. */
  lemma {:induction false} IsoStringSplitsAtT(t: Instant)
    ensures BeforeFirst(ToIsoString(t), 'T') == IsoDate(t)
    ensures |ToIsoString(t)| > |IsoDate(t)|
  {
    assert ToIsoString(t) == IsoDate(t) + ['T'] + IsoTime(t);
    BeforeFirstOfJoin(IsoDate(t), 'T', IsoTime(t));
  }
}
