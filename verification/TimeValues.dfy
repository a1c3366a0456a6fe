/** Seconds and microseconds as the timer handles them, with the macros of sys/time.h written out. */
module TimeValues {
  import opened Orders

  datatype Timeval = Timeval(sec: int, usec: int)

  const MILLION := 1_000_000
  const INT_MAX := 0x7fff_ffff

  ghost predicate Normalised(t: Timeval) { 0 <= t.usec < MILLION }
  function Micros(t: Timeval): int { t.sec * MILLION + t.usec }

  /** timercmp with `<`. */
  predicate Earlier(a: Timeval, b: Timeval) {
    if a.sec == b.sec then a.usec < b.usec else a.sec < b.sec
  }

  function Add(a: Timeval, b: Timeval): Timeval {
    var sum := Timeval(a.sec + b.sec, a.usec + b.usec);
    if sum.usec >= MILLION then Timeval(sum.sec + 1, sum.usec - MILLION) else sum
  }

  function Sub(a: Timeval, b: Timeval): Timeval {
    var diff := Timeval(a.sec - b.sec, a.usec - b.usec);
    if diff.usec < 0 then Timeval(diff.sec - 1, diff.usec + MILLION) else diff
  }

  /** etimer_event_cmp, on the deadlines of the two events. */
  function Compare(a: Timeval, b: Timeval): int {
    if Earlier(a, b) then -1 else if Earlier(b, a) then 1 else 0
  }

  lemma CompareTotal()
    ensures TotalOrder(Compare)
  {
    forall a, b, c ensures Consistent(Compare, a, b, c) {
    }
  }

  /** The comparator follows the clock as long as microseconds stay below a million. */
  lemma CompareChronological(a: Timeval, b: Timeval)
    requires Normalised(a) && Normalised(b)
    ensures Earlier(a, b) <==> Micros(a) < Micros(b)
    ensures Compare(a, b) == 0 <==> Micros(a) == Micros(b)
  {
  }

  // ---------- Timeouts ----------

  /** Division and remainder in C round towards zero. */
  function CDiv(a: int, b: int): int
    requires b > 0
  {
    if a >= 0 then a / b else -(-a / b)
  }

  function CMod(a: int, b: int): int
    requires b > 0
  {
    a - CDiv(a, b) * b
  }

  /** A long cut down to an int of 32 bits. */
  function ToInt(x: int): int {
    var low := x % 0x1_0000_0000;
    if low <= INT_MAX then low else low - 0x1_0000_0000
  }

  /** What etimer_calc_timeout answers for the earliest deadline, in milliseconds. */
  function Timeout(deadline: Timeval, now: Timeval): int {
    if Earlier(deadline, now) then 0
    else
      var sub := Sub(deadline, now);
      var ms := ToInt(sub.sec * 1000 + CDiv(sub.usec, 1000) + (if CMod(sub.usec, 1000) != 0 then 1 else 0));
      if ms < 0 then 0 else ms
  }

  ghost predicate Reaches(now: Timeval, ms: int, deadline: Timeval) {
    Micros(now) + 1000 * ms >= Micros(deadline)
  }

  /** The timeout is the least that reaches the deadline, exactly when that many milliseconds fit an int. */
  lemma TimeoutExact(deadline: Timeval, now: Timeval)
    requires Normalised(deadline) && Normalised(now) && !Earlier(deadline, now)
    ensures var ms := Timeout(deadline, now);
            (Reaches(now, ms, deadline) && forall m :: 0 <= m < ms ==> !Reaches(now, m, deadline))
            <==> Micros(deadline) - Micros(now) <= 1000 * INT_MAX
  {
  }

  /** In or out of range, a wait never lasts a whole millisecond past the deadline. */
  lemma TimeoutNeverLate(deadline: Timeval, now: Timeval)
    requires Normalised(deadline) && Normalised(now) && !Earlier(deadline, now)
    ensures 0 <= Timeout(deadline, now)
    ensures Micros(now) + 1000 * Timeout(deadline, now) < Micros(deadline) + 1000
  {
  }

  /** The least number of milliseconds that reaches the deadline. */
  ghost predicate Needs(now: Timeval, ms: int, deadline: Timeval) {
    ms >= 0 && Reaches(now, ms, deadline) && forall m :: 0 <= m < ms ==> !Reaches(now, m, deadline)
  }

  /** What becomes of it in an int of 32 bits: it wraps around, and no wait at all if it comes out negative. */
  lemma TimeoutWraps(deadline: Timeval, now: Timeval, ms: int)
    requires Normalised(deadline) && Normalised(now) && !Earlier(deadline, now) && Needs(now, ms, deadline)
    ensures Timeout(deadline, now) == if ms % 0x1_0000_0000 <= INT_MAX then ms % 0x1_0000_0000 else 0
  {
    var sub := Sub(deadline, now);
    var exact := sub.sec * 1000 + CDiv(sub.usec, 1000) + (if CMod(sub.usec, 1000) != 0 then 1 else 0);
    assert Reaches(now, exact, deadline) && (exact > 0 ==> !Reaches(now, exact - 1, deadline));
    assert ms == exact;
  }

  // ---------- Deadlines ----------

  function After(now: Timeval, sec: int): Timeval { Add(now, Timeval(sec, 0)) }
  function MsecAfter(now: Timeval, msec: int): Timeval { Add(now, Timeval(0, msec * 1000)) }

  lemma AfterIsLater(now: Timeval, sec: int)
    requires Normalised(now)
    ensures Normalised(After(now, sec)) && Micros(After(now, sec)) == Micros(now) + sec * MILLION
  {
  }

  /** The one carry of timeradd is enough exactly when the microseconds stay below two million. */
  lemma MsecAfterNormalised(now: Timeval, msec: int)
    requires Normalised(now)
    ensures Micros(MsecAfter(now, msec)) == Micros(now) + msec * 1000
    ensures Normalised(MsecAfter(now, msec)) <==> 0 <= now.usec + msec * 1000 < 2 * MILLION
  {
  }

  /** Whatever the clock says, up to a second is safe and nothing beyond it is. */
  lemma MsecAfterSafe(msec: int)
    ensures (forall now :: Normalised(now) ==> Normalised(MsecAfter(now, msec))) <==> 0 <= msec <= 1000
  {
    MsecAfterNormalised(Timeval(0, 0), msec);
    MsecAfterNormalised(Timeval(0, MILLION - 1), msec);
    forall now | Normalised(now)
      ensures Normalised(MsecAfter(now, msec)) <==> 0 <= now.usec + msec * 1000 < 2 * MILLION
    {
      MsecAfterNormalised(now, msec);
    }
  }

  /** Beyond it the order of the queue can contradict the clock. */
  lemma MsecAfterMisordered()
    ensures var late, early := MsecAfter(Timeval(0, 600_000), 1500), Timeval(2, 0);
            Earlier(late, early) && Micros(late) > Micros(early)
  {
    assert MsecAfter(Timeval(0, 600_000), 1500) == Timeval(1, 1_100_000);
  }
}
