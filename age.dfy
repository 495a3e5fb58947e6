/** `parse_age`: a relative age ("N minute|hour|day") turned into the UTC
    calendar day it points back to.

    Instants are whole seconds since 0001-01-01T00:00:00 UTC, the earliest
    instant Python's `datetime` can hold; days are proleptic Gregorian
    ordinals as `date.toordinal()` numbers them (0001-01-01 is day 1). The
    microseconds of `datetime.utcnow()` never change the day and are
    dropped. */
module Age {
  import opened Wrappers

  /** The exceptions `parse_age` can raise. */
  datatype AgeError =
    | DateOutOfRange   // OverflowError: the instant falls before year 1
    | YearBefore1900   // ValueError: Python 2's strftime refuses years before 1900

  const SecondsPerDay: nat := 86400

  /** `date(1900, 1, 1).toordinal()`. */
  const FirstFormattableDay: int := 693596

  /** The calendar day (as an ordinal) of an instant. */
  function DayOf(instant: nat): int {
    instant / SecondsPerDay + 1
  }

  /** The length of one `unit` in seconds; 0 for a unit `parse_age` does
      not recognise, which subtracts nothing. */
  function UnitSeconds(unit: string): nat {
    if unit == "minute" then 60
    else if unit == "hour" then 3600
    else if unit == "day" then SecondsPerDay
    else 0
  }

  /** `parse_age(count, unit)` with the clock reading `now`. */
  function ParseAge(count: nat, unit: string, now: nat): (r: Result<int, AgeError>)
    ensures r.Ok? ==> FirstFormattableDay <= r.value <= DayOf(now)
    ensures r.Ok? <==> count * UnitSeconds(unit) <= now && FirstFormattableDay <= DayOf(now - count * UnitSeconds(unit))
    ensures r.Ok? ==> r.value == DayOf(now - count * UnitSeconds(unit))
    ensures unit == "day" ==> (r.Ok? <==> count + FirstFormattableDay <= DayOf(now))
    ensures unit == "day" && r.Ok? ==> r.value == DayOf(now) - count
    ensures now < count * UnitSeconds(unit) ==> r == Err(DateOutOfRange)
    ensures count * UnitSeconds(unit) <= now && DayOf(now - count * UnitSeconds(unit)) < FirstFormattableDay ==>
              r == Err(YearBefore1900)
    ensures unit !in {"minute", "hour", "day"} ==>
              r == if FirstFormattableDay <= DayOf(now) then Ok(DayOf(now)) else Err(YearBefore1900)
  {
    var delta := count * UnitSeconds(unit);
    if now < delta then
      Err(DateOutOfRange)
    else
      var day := DayOf(now - delta);
      if day < FirstFormattableDay then Err(YearBefore1900)
      else
        DayArithmetic(count, unit, now);
        Ok(day)
  }

  lemma DayArithmetic(count: nat, unit: string, now: nat)
    requires count * UnitSeconds(unit) <= now
    ensures DayOf(now - count * UnitSeconds(unit)) <= DayOf(now)
    ensures unit == "day" ==> DayOf(now - count * UnitSeconds(unit)) == DayOf(now) - count
  {
    if unit == "day" {
      DivShift(now - count * SecondsPerDay, count);
    }
    DivMonotone(now - count * UnitSeconds(unit), now);
  }

  lemma DivShift(a: nat, c: nat)
    ensures (a + c * SecondsPerDay) / SecondsPerDay == a / SecondsPerDay + c
  {
    var q, r := a / SecondsPerDay, a % SecondsPerDay;
    assert a + c * SecondsPerDay == (q + c) * SecondsPerDay + r;
  }

  lemma DivMonotone(a: nat, b: nat)
    requires a <= b
    ensures a / SecondsPerDay <= b / SecondsPerDay
  {
  }

  /** An older age never gives a later day: for a fixed unit the day does
      not increase with the count, and a count that succeeds makes every
      smaller count succeed too. */
  lemma ParseAgeMonotone(c1: nat, c2: nat, unit: string, now: nat)
    requires c1 <= c2
    requires ParseAge(c2, unit, now).Ok?
    ensures ParseAge(c1, unit, now).Ok?
    ensures ParseAge(c2, unit, now).value <= ParseAge(c1, unit, now).value
  {
    var u := UnitSeconds(unit);
    assert c1 * u <= c2 * u by {
      MulMonotone(c1, c2, u);
    }
    DivMonotone(now - c2 * u, now - c1 * u);
  }

  lemma MulMonotone(a: nat, b: nat, c: nat)
    requires a <= b
    ensures a * c <= b * c
  {
  }

}
