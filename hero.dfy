/** The hero banner's countdown: once a second the time left until the event,
    in milliseconds, is split into days, hours, minutes and seconds and shown
    as two-digit (or longer) numbers. */
module Hero {
  import Decimal

  const MsPerSecond := 1000
  const MsPerMinute := 1000 * 60
  const MsPerHour := 1000 * 60 * 60
  const MsPerDay := 1000 * 60 * 60 * 24

  /** The `timeLeft` state. */
  datatype TimeLeft = TimeLeft(days: int, hours: int, minutes: int, seconds: int)

  /** The countdown before the first tick, and after the target has passed. */
  const Zero := TimeLeft(0, 0, 0, 0)

  /** The milliseconds a countdown stands for. */
  function Total(t: TimeLeft): int
  {
    t.days * MsPerDay + t.hours * MsPerHour + t.minutes * MsPerMinute + t.seconds * MsPerSecond
  }

  /** Each field within its clock range. */
  predicate Normal(t: TimeLeft)
  {
    0 <= t.days && 0 <= t.hours < 24 && 0 <= t.minutes < 60 && 0 <= t.seconds < 60
  }

  /** The interval callback's arithmetic on `distance = target - now`. */
  function Decompose(distance: int): (t: TimeLeft)
    ensures Normal(t)
    ensures distance <= 0 ==> t == Zero
    ensures distance > 0 ==> Total(t) <= distance < Total(t) + MsPerSecond
  {
    if distance > 0 then
      var t := TimeLeft(
        distance / MsPerDay,
        (distance % MsPerDay) / MsPerHour,
        (distance % MsPerHour) / MsPerMinute,
        (distance % MsPerMinute) / MsPerSecond);
      DecomposeRecomposes(distance);
      t
    else
      Zero
  }

  /** Quotient and remainder by a literal divisor are the unique pair that
      rebuilds the dividend. */
  lemma DivModBy(x: int, c: int, q: int, r: int)
    requires c in {MsPerSecond, MsPerMinute, MsPerHour, MsPerDay}
    requires 0 <= r < c && x == q * c + r
    ensures x / c == q && x % c == r
  {
    if c == MsPerSecond {
      assert x == q * 1000 + r;
    } else if c == MsPerMinute {
      assert x == q * 60000 + r;
    } else if c == MsPerHour {
      assert x == q * 3600000 + r;
    } else {
      assert x == q * 86400000 + r;
    }
  }

  /** The four quotients rebuild `distance` up to the dropped sub-second remainder. */
  lemma DecomposeRecomposes(distance: int)
    requires distance > 0
    ensures var d, h, m, s := distance / MsPerDay, (distance % MsPerDay) / MsPerHour,
        (distance % MsPerHour) / MsPerMinute, (distance % MsPerMinute) / MsPerSecond;
      0 <= h < 24 && 0 <= m < 60 && 0 <= s < 60 &&
      d * MsPerDay + h * MsPerHour + m * MsPerMinute + s * MsPerSecond <= distance <
      d * MsPerDay + h * MsPerHour + m * MsPerMinute + s * MsPerSecond + MsPerSecond
  {
    var d, h, m, s := distance / MsPerDay, (distance % MsPerDay) / MsPerHour,
      (distance % MsPerHour) / MsPerMinute, (distance % MsPerMinute) / MsPerSecond;
    var t := TimeLeft(d, h, m, s);
    var r := distance % MsPerSecond;
    UniqueSplit(distance, t, r);
  }

  /** Splitting `distance` into normal fields and a sub-second rest fixes
      every quotient and remainder the callback computes. */
  lemma UniqueSplit(distance: int, t: TimeLeft, r: int)
    requires distance > 0
    requires t == TimeLeft(distance / MsPerDay, (distance % MsPerDay) / MsPerHour,
        (distance % MsPerHour) / MsPerMinute, (distance % MsPerMinute) / MsPerSecond)
    requires r == distance % MsPerSecond
    ensures Normal(t) && distance == Total(t) + r && 0 <= r < MsPerSecond
  {
    var rd := distance % MsPerDay;
    DivModBy(distance, MsPerDay, distance / MsPerDay, rd);
    var rh := rd % MsPerHour;
    DivModBy(rd, MsPerHour, rd / MsPerHour, rh);
    DivModBy(distance, MsPerHour, 24 * (distance / MsPerDay) + rd / MsPerHour, rh);
    var rm := rh % MsPerMinute;
    DivModBy(rh, MsPerMinute, rh / MsPerMinute, rm);
    DivModBy(distance, MsPerMinute, 60 * (24 * (distance / MsPerDay) + rd / MsPerHour) + rh / MsPerMinute, rm);
    DivModBy(rm, MsPerSecond, rm / MsPerSecond, rm % MsPerSecond);
    DivModBy(distance, MsPerSecond, 60 * (60 * (24 * (distance / MsPerDay) + rd / MsPerHour) + rh / MsPerMinute) + rm / MsPerSecond, rm % MsPerSecond);
  }

  /** The decomposition is the only normal countdown that rebuilds `distance`
      to within a second: the fields are the calendar split of the distance. */
  lemma DecomposeUnique(distance: int, t: TimeLeft)
    requires distance > 0 && Normal(t)
    requires Total(t) <= distance < Total(t) + MsPerSecond
    ensures t == Decompose(distance)
  {
    var rest := distance - Total(t);
    var r3 := t.seconds * MsPerSecond + rest;
    var r2 := t.minutes * MsPerMinute + r3;
    var r1 := t.hours * MsPerHour + r2;
    DivModBy(distance, MsPerDay, t.days, r1);
    DivModBy(r1, MsPerHour, t.hours, r2);
    DivModBy(distance, MsPerHour, 24 * t.days + t.hours, r2);
    DivModBy(r2, MsPerMinute, t.minutes, r3);
    DivModBy(distance, MsPerMinute, 60 * (24 * t.days + t.hours) + t.minutes, r3);
    DivModBy(r3, MsPerSecond, t.seconds, rest);
  }

  /** The four numbers as displayed: `String(x).padStart(2, '0')` each. */
  function Display(t: TimeLeft): (r: seq<string>)
    requires Normal(t)
    ensures |r| == 4
    ensures Decimal.AllDigits(r[0]) && Decimal.Value(r[0]) == t.days
    ensures Decimal.AllDigits(r[1]) && Decimal.Value(r[1]) == t.hours
    ensures Decimal.AllDigits(r[2]) && Decimal.Value(r[2]) == t.minutes
    ensures Decimal.AllDigits(r[3]) && Decimal.Value(r[3]) == t.seconds
  {
    var d, h, m, s := Pad2(t.days), Pad2(t.hours), Pad2(t.minutes), Pad2(t.seconds);
    var r := [d, h, m, s];
    assert r[0] == d && r[1] == h && r[2] == m && r[3] == s;
    r
  }

  /** Every box shows at least two digits; hours, minutes and seconds show
      exactly two, and days do so below 100. */
  lemma DisplayWidths(t: TimeLeft)
    requires Normal(t)
    ensures 2 <= |Display(t)[0]| && (|Display(t)[0]| == 2 <==> t.days < 100)
    ensures |Display(t)[1]| == 2 && |Display(t)[2]| == 2 && |Display(t)[3]| == 2
  {
    assert Display(t) == [Pad2(t.days), Pad2(t.hours), Pad2(t.minutes), Pad2(t.seconds)];
  }

  /** `String(n).padStart(2, '0')`, read back as the number it shows. */
  function Pad2(n: nat): (r: string)
    ensures 2 <= |r| && Decimal.AllDigits(r) && Decimal.Value(r) == n
    ensures |r| == 2 <==> n < 100
  {
    Decimal.TwoDigits(n);
    Decimal.PadStart(Decimal.FromNat(n), 2, '0')
  }

  /** The countdown display's state. */
  class Countdown {
    var timeLeft: TimeLeft

    predicate Valid()
      reads this
    {
      Normal(timeLeft)
    }

    constructor ()
      ensures Valid() && timeLeft == Zero
    {
      timeLeft := Zero;
    }

    /** One firing of the interval timer, `distance` milliseconds before the target. */
    method Tick(distance: int)
      modifies this
      ensures Valid() && timeLeft == Decompose(distance)
    {
      if distance > 0 {
        timeLeft := TimeLeft(
          distance / MsPerDay,
          (distance % MsPerDay) / MsPerHour,
          (distance % MsPerHour) / MsPerMinute,
          (distance % MsPerMinute) / MsPerSecond);
      } else {
        timeLeft := TimeLeft(0, 0, 0, 0);
      }
    }

    /** What the four countdown boxes show. */
    function Shown(): (r: seq<string>)
      reads this
      requires Valid()
      ensures r == Display(timeLeft)
      ensures |r| == 4
      ensures Decimal.AllDigits(r[0]) && Decimal.Value(r[0]) == timeLeft.days
      ensures Decimal.AllDigits(r[1]) && Decimal.Value(r[1]) == timeLeft.hours
      ensures Decimal.AllDigits(r[2]) && Decimal.Value(r[2]) == timeLeft.minutes
      ensures Decimal.AllDigits(r[3]) && Decimal.Value(r[3]) == timeLeft.seconds
    {
      Display(timeLeft)
    }
  }
}
