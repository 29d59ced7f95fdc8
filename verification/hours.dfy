/** `minutes_to_hours`: video minutes become hours rounded to two decimal places.

    An amount of hours is kept exactly as a whole number of hundredths of an hour, so
    `1.5` hours is `150` and `2.08` hours is `208`. */
module Hours {
  import opened Options

  /** How far `k` hundredths of an hour lie from `minutes` minutes, in fifths of a
      minute (three-hundredths of an hour): `k` hundredths are `3k/5` minutes, so the
      gap is `|3k - 5m|` fifths. */
  function Distance(k: int, minutes: int): nat
  {
    if 3 * k >= 5 * minutes then 3 * k - 5 * minutes else 5 * minutes - 3 * k
  }

  /** `round(float(minutes) / 60, 2)` for a whole number of minutes, in hundredths.
      The exact quotient is `5m/3` hundredths, whose fractional part is 0, 1/3 or 2/3,
      so no value lies halfway and the rounding mode never matters. */
  function RoundedHundredths(minutes: int): (k: int)
    ensures Distance(k, minutes) <= 1
  {
    (5 * minutes + 1) / 3
  }

  /** `minutes_to_hours`: `0` for a falsy value (`None` or `0`), otherwise the rounded
      number of hours. */
  function MinutesToHours(minutes: Option<int>): (k: int)
    ensures minutes == None || minutes == Some(0) ==> k == 0
    ensures minutes.Some? ==> Distance(k, minutes.value) <= 1
  {
    if minutes == None || minutes == Some(0) then 0
    else RoundedHundredths(minutes.value)
  }

  /** Being within a fifth of a minute pins the hundredths down: two amounts that
      both are must be the same. */
  lemma DistanceDeterminesHundredths(k1: int, k2: int, minutes: int)
    requires Distance(k1, minutes) <= 1 && Distance(k2, minutes) <= 1
    ensures k1 == k2
  {
  }

  /** The result is the closest number of hundredths there is: rounding to two
      places. */
  lemma RoundedIsNearest(minutes: int, j: int)
    ensures Distance(RoundedHundredths(minutes), minutes) <= Distance(j, minutes)
  {
    var k := RoundedHundredths(minutes);
    if j != k {
      DistanceAtLeastTwo(k, j, minutes);
    }
  }

  lemma DistanceAtLeastTwo(k: int, j: int, minutes: int)
    requires Distance(k, minutes) <= 1 && j != k
    ensures Distance(j, minutes) >= 2
  {
    if Distance(j, minutes) <= 1 {
      DistanceDeterminesHundredths(k, j, minutes);
    }
  }

  /** 90 minutes are 1.5 hours, 125 minutes are 2.08 hours, 150 minutes are 2.5 hours. */
  lemma WorkedExamples()
    ensures MinutesToHours(Some(90)) == 150
    ensures MinutesToHours(Some(125)) == 208
    ensures MinutesToHours(Some(150)) == 250
    ensures MinutesToHours(None) == 0
  {
  }
}
