/** The elapsed time a client logs: a difference of two clock readings with a borrow that adds
    LONG_MAX instead of one second, an int product, and a division to milliseconds. */
module Elapsed {

  /** CLOCK_REALTIME: seconds, and nanoseconds below one second. */
  datatype Time = Time(sec: int, nsec: int)

  const SECOND: int := 1_000_000_000
  const MILLISECOND: int := 1_000_000
  const LONG_MAX: int := 0x7fff_ffff_ffff_ffff

  predicate ValidTime(t: Time) {
    0 <= t.sec < 0x1_0000_0000_0000 && 0 <= t.nsec < SECOND
  }

  /** Nanoseconds from start to end. */
  function True(start: Time, end: Time): int {
    (end.sec - start.sec) * SECOND + (end.nsec - start.nsec)
  }

  /** Two's complement, of 32 and of 64 bits. */
  function Int32(x: int): (r: int)
    ensures -0x8000_0000 <= r < 0x8000_0000
  {
    (x + 0x8000_0000) % 0x1_0000_0000 - 0x8000_0000
  }

  function Long(x: int): (r: int)
    ensures -LONG_MAX - 1 <= r <= LONG_MAX
  {
    (x + LONG_MAX + 1) % 0x1_0000_0000_0000_0000 - LONG_MAX - 1
  }

  /** C's division, which rounds toward zero. */
  function Quotient(x: int, d: int): int
    requires d > 0
  {
    if x < 0 then -((-x) / d) else x / d
  }

  predicate Borrows(start: Time, end: Time) {
    end.nsec < start.nsec
  }

  function Diff(start: Time, end: Time): Time {
    if Borrows(start, end) then Time(end.sec - start.sec - 1, Long(LONG_MAX + (end.nsec - start.nsec)))
    else Time(end.sec - start.sec, end.nsec - start.nsec)
  }

  /** The number the client appends to its log. */
  function Logged(start: Time, end: Time): int {
    var d := Diff(start, end);
    Quotient(Long(Int32(Int32(d.sec) * SECOND) + d.nsec), MILLISECOND)
  }

  /** What the test programs keep. */
  predicate InRange(v: int) {
    0 <= v <= 100
  }

  /** Up to here the int product cannot make a long run look short: 2^32 ns, less one millisecond. */
  const SAFE: int := WRAP - MILLISECOND + 1

  /** The int product makes the reading depend only on the time modulo this. */
  const WRAP: int := 0x1_0000_0000

  /** What is left of a run's time once the product has wrapped. */
  function Residue(start: Time, end: Time): (r: int)
    ensures 0 <= r < WRAP
  {
    True(start, end) % WRAP
  }

  /** The residue is within 100 whole milliseconds, or so near its end that the wrapped sum rounds
      toward zero from below. */
  predicate LooksShort(start: Time, end: Time) {
    Residue(start, end) < 101 * MILLISECOND || Residue(start, end) > WRAP - MILLISECOND
  }

  lemma LongNear(x: int)
    ensures -LONG_MAX - 1 <= x <= LONG_MAX ==> Long(x) == x
    ensures LONG_MAX < x <= LONG_MAX + 0x1_0000_0000 ==> Long(x) == x - LONG_MAX - 1 - LONG_MAX - 1
  {
  }

  /** Every reading through the borrow is far out of range, however long the run took. */
  lemma BorrowRejected(start: Time, end: Time)
    requires ValidTime(start) && ValidTime(end) && Borrows(start, end)
    ensures !InRange(Logged(start, end))
  {
    var d := Diff(start, end);
    var w := Int32(Int32(d.sec) * SECOND);
    LongNear(LONG_MAX + (end.nsec - start.nsec));
    var x := w + d.nsec;
    LongNear(x);
    if Long(x) < 0 {
      assert -Long(x) >= 0x7000_0000_0000_0000;
    } else {
      assert Long(x) >= 0x7000_0000_0000_0000;
    }
  }

  lemma Int32Wraps(x: int) returns (k: int)
    ensures Int32(x) == x + k * WRAP
  {
    var q := (x + 0x8000_0000) / WRAP;
    k := -q;
    assert x + 0x8000_0000 == q * WRAP + (x + 0x8000_0000) % WRAP;
  }

  /** The product, taken in int twice over, is off by a multiple of WRAP. */
  lemma ProductWraps(sec: int) returns (k: int)
    ensures Int32(Int32(sec) * SECOND) == sec * SECOND + k * WRAP
  {
    var i := Int32Wraps(sec);
    var j := Int32Wraps(Int32(sec) * SECOND);
    k := i * SECOND + j;
    assert (sec + i * WRAP) * SECOND == sec * SECOND + i * WRAP * SECOND;
  }

  lemma ResidueIs(x: int, t: int, k: int)
    requires x == t + k * WRAP && -0x8000_0000 <= x < WRAP
    ensures t % WRAP == if x >= 0 then x else x + WRAP
  {
    var r := if x >= 0 then x else x + WRAP;
    var m := if x >= 0 then -k else -k - 1;
    assert t == m * WRAP + r;
  }

  /** Without the borrow, the sum that is divided is the residue, as a signed number. */
  lemma DirectSum(start: Time, end: Time)
    requires ValidTime(start) && ValidTime(end) && !Borrows(start, end)
    ensures var d, r := Diff(start, end), Residue(start, end);
            var x := Int32(Int32(d.sec) * SECOND) + d.nsec;
            Long(x) == x && -0x8000_0000 <= x < WRAP - 101 * MILLISECOND && r == if x >= 0 then x else x + WRAP
  {
    var d := Diff(start, end);
    var k := ProductWraps(d.sec);
    var x := Int32(Int32(d.sec) * SECOND) + d.nsec;
    LongNear(x);
    ResidueIs(x, True(start, end), k);
  }

  /** The law of the filter, for every run, however long and whichever way the clock moved: it keeps a
      reading if and only if the run did not cross a second and looks short. */
  lemma KeptIff(start: Time, end: Time)
    requires ValidTime(start) && ValidTime(end)
    ensures InRange(Logged(start, end)) <==> !Borrows(start, end) && LooksShort(start, end)
  {
    if Borrows(start, end) {
      BorrowRejected(start, end);
    } else {
      DirectSum(start, end);
    }
  }

  /** What is kept: the residue's whole milliseconds, or 0. */
  lemma KeptValue(start: Time, end: Time)
    requires ValidTime(start) && ValidTime(end)
    ensures InRange(Logged(start, end)) ==>
              Logged(start, end) ==
              if Residue(start, end) < 101 * MILLISECOND then Residue(start, end) / MILLISECOND else 0
  {
    KeptIff(start, end);
    if !Borrows(start, end) {
      DirectSum(start, end);
    }
  }

  /** Without the borrow, every run of less than three seconds is logged as it is, kept or not. */
  lemma DirectReading(start: Time, end: Time)
    requires ValidTime(start) && ValidTime(end) && !Borrows(start, end)
    requires 0 <= True(start, end) < 3 * SECOND
    ensures Logged(start, end) == True(start, end) / MILLISECOND
  {
    var d := Diff(start, end);
    DirectSum(start, end);
    assert 0 <= d.sec <= 2;
  }

  /** With it, a run of less than a second is logged as hundreds of millions of years. */
  lemma BorrowedReading(start: Time, end: Time)
    requires ValidTime(start) && ValidTime(end) && Borrows(start, end)
    requires 0 <= True(start, end) < SECOND
    ensures Logged(start, end) == (LONG_MAX - SECOND + True(start, end)) / MILLISECOND
  {
    LongNear(LONG_MAX + (end.nsec - start.nsec));
    assert Diff(start, end).sec == 0;
  }

  lemma ResidueOfShort(t: int)
    ensures 0 <= t < WRAP ==> t % WRAP == t
    ensures t >= WRAP ==> t / MILLISECOND > 100
  {
  }

  /** A reading that is kept is exact if and only if the run took less than SAFE, and the clock did
      not move back. */
  lemma ExactIff(start: Time, end: Time)
    requires ValidTime(start) && ValidTime(end)
    ensures InRange(Logged(start, end)) ==>
              (Logged(start, end) == True(start, end) / MILLISECOND <==> 0 <= True(start, end) < SAFE)
  {
    KeptIff(start, end);
    KeptValue(start, end);
    ResidueOfShort(True(start, end));
  }

  /** A reading is kept and exact if and only if the run took at most 100 whole milliseconds and did
      not cross a second. */
  lemma KeptExactlyIff(start: Time, end: Time)
    requires ValidTime(start) && ValidTime(end)
    ensures InRange(Logged(start, end)) && Logged(start, end) == True(start, end) / MILLISECOND
            <==> !Borrows(start, end) && 0 <= True(start, end) / MILLISECOND <= 100
  {
    KeptIff(start, end);
    ResidueOfShort(True(start, end));
    ExactIff(start, end);
  }

  predicate KeptBelow(start: Time, end: Time, bound: int) {
    ValidTime(start) && ValidTime(end) && 0 <= True(start, end) < bound && InRange(Logged(start, end))
  }

  /** All kept readings of the runs below a bound are exact. */
  ghost predicate ExactBelow(bound: int) {
    forall start, end :: KeptBelow(start, end, bound) ==> Logged(start, end) == True(start, end) / MILLISECOND
  }

  /** SAFE is the largest such bound: a run of exactly that many nanoseconds is logged as 0 and kept. */
  lemma ExactBelowIff(bound: int)
    ensures ExactBelow(bound) <==> bound <= SAFE
  {
    if bound <= SAFE {
      forall start, end | KeptBelow(start, end, bound)
        ensures Logged(start, end) == True(start, end) / MILLISECOND
      {
        ExactIff(start, end);
      }
    } else {
      var start, end := Time(0, 0), Time(4, SAFE - 4 * SECOND);
      KeptIff(start, end);
      ExactIff(start, end);
      assert True(start, end) == SAFE && KeptBelow(start, end, bound);
    }
  }
}
