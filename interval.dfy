/**
 * `Interval`, the value the scheduler hands out: a span of instants (local-time
 * milliseconds) and the slot's position within that day's sequence.
 */
module Intervals {
  import opened Wrappers
  import opened JavaMath

  /**
   * The three final fields, set verbatim by the constructor; in particular
   * the constructor does not check that `startTime < endTime`.
   */
  datatype Interval = Interval(startTime: int, endTime: int, sequenceID: int)

  /** A `java.sql.Timestamp` holds a 64-bit millisecond count. */
  predicate WellFormed(i: Interval)
  {
    IsLong(i.startTime) && IsLong(i.endTime) && IsInt(i.sequenceID)
  }

  /** The copy constructor `Interval(Interval)`: the copy equals its source. */
  function Copy(i: Interval): (r: Interval)
    ensures Equals(r, Some(i)) && Equals(i, Some(r))
  {
    Interval(i.startTime, i.endTime, i.sequenceID)
  }

  /**
   * `equals(Object o)`. `o` is None for `null` or an object of another class;
   * the `o == this` shortcut is folded in, since the same object always has
   * equal fields.
   */
  function Equals(i: Interval, o: Option<Interval>): (r: bool)
    ensures r <==> o == Some(i)
  {
    match o
    case None => false
    case Some(vo) => vo.startTime == i.startTime && vo.endTime == i.endTime && vo.sequenceID == i.sequenceID
  }

  /** `equals` is an equivalence relation, as `Object.equals` demands. */
  lemma EqualsIsEquivalence(a: Interval, b: Interval, c: Interval)
    ensures Equals(a, Some(a))
    ensures Equals(a, Some(b)) ==> Equals(b, Some(a))
    ensures Equals(a, Some(b)) && Equals(b, Some(c)) ==> Equals(a, Some(c))
    ensures !Equals(a, None)
  {
  }

  /** Intervals that differ only in their sequence number are unequal. */
  lemma SequenceDistinguishes(a: Interval, b: Interval)
    requires a.startTime == b.startTime && a.endTime == b.endTime && a.sequenceID != b.sequenceID
    ensures !Equals(a, Some(b)) && !Equals(b, Some(a))
  {
  }

  /**
   * `containsTimestamp(t)`: `t.after(startTime) && t.before(endTime)`, so both
   * ends are excluded; a draw equal to `startTime` is not contained.
   */
  function ContainsTimestamp(i: Interval, t: int): (r: bool)
    ensures r ==> i.startTime < i.endTime
    ensures t == i.startTime || t == i.endTime ==> !r
  {
    t > i.startTime && t < i.endTime
  }

  // ---------------------------------------------------------------------------
  // hashCode
  // ---------------------------------------------------------------------------

  const TWO32: int := 0x1_0000_0000

  /** Reads an unsigned 32-bit pattern as a Java `int`. */
  function Signed32(x: bv32): (r: int)
    ensures IsInt(r)
  {
    if x as int <= INT_MAX then x as int else x as int - TWO32
  }

  /** The high word of a millisecond count: `(int) (ht >> 32)` as an unsigned pattern. */
  function HighWord(ms: int): bv32
  {
    ((ms / TWO32) % TWO32) as bv32
  }

  /** The low word of a millisecond count: `(int) ht` as an unsigned pattern. */
  function LowWord(ms: int): bv32
  {
    (ms % TWO32) as bv32
  }

  /** `Timestamp.hashCode()`, inherited from `Date`: the xor of the two words of the millisecond count. */
  function TimestampHash(ms: int): (h: int)
    ensures IsInt(h)
  {
    Signed32(LowWord(ms) ^ HighWord(ms))
  }

  /**
   * `hashCode()`: `37 * (37 * h(startTime) + h(endTime)) + sequenceID` in
   * wrapping 32-bit arithmetic.
   */
  function HashCode(i: Interval): (h: int)
    ensures IsInt(h)
  {
    var result := TimestampHash(i.startTime);
    var result' := Wrap32(Wrap32(37 * result) + TimestampHash(i.endTime));
    Wrap32(Wrap32(37 * result') + i.sequenceID)
  }

  /** Equal intervals have equal hashes (the other half of the `equals`/`hashCode` contract). */
  lemma HashConsistentWithEquals(a: Interval, b: Interval)
    requires Equals(a, Some(b))
    ensures HashCode(a) == HashCode(b)
  {
  }

  /** The part of the hash taken off by wrap-around: always a whole number of 2^32 turns. */
  function HashTurns(i: Interval): int
  {
    var hs, he := TimestampHash(i.startTime), TimestampHash(i.endTime);
    var w1 := Wrap32(37 * hs);
    var w2 := Wrap32(w1 + he);
    var w3 := Wrap32(37 * w2);
    Turns32(w3 + i.sequenceID) + Turns32(37 * w2) + 37 * Turns32(w1 + he) + 37 * Turns32(37 * hs)
  }

  /** The hash equals the unwrapped polynomial in its three inputs, less whole turns of 2^32. */
  lemma HashCongruence(i: Interval)
    ensures HashCode(i) == 1369 * TimestampHash(i.startTime) + 37 * TimestampHash(i.endTime) + i.sequenceID - HashTurns(i) * TWO32
  {
    var hs, he := TimestampHash(i.startTime), TimestampHash(i.endTime);
    var w1 := Wrap32(37 * hs);
    var w2 := Wrap32(w1 + he);
    var w3 := Wrap32(37 * w2);
    var t1, t2, t3, t4 := Turns32(37 * hs), Turns32(w1 + he), Turns32(37 * w2), Turns32(w3 + i.sequenceID);
    assert w1 == 37 * hs - t1 * TWO32;
    assert w2 == 37 * hs + he - (t1 + t2) * TWO32;
    assert w3 == 1369 * hs + 37 * he - (37 * t1 + 37 * t2 + t3) * TWO32;
  }

  /**
   * An odd factor is invertible modulo 2^32 (`c * inv == 1 + k * 2^32`), so a
   * difference of two Java ints that it carries to a multiple of 2^32 is zero.
   */
  lemma OddFactorCancels(c: int, inv: int, k: int, d: int, j: int)
    requires c * inv == 1 + k * TWO32
    requires c * d == j * TWO32
    requires -TWO32 < d < TWO32
    ensures d == 0
  {
    assert inv * (c * d) == inv * j * TWO32;
    assert (c * inv) * d == d + k * TWO32 * d;
    assert d == (inv * j - k * d) * TWO32;
  }

  /** Intervals differing only in `sequenceID` hash differently (SchedulerTest.testIntervalVO). */
  lemma HashSeparatesSequence(a: Interval, b: Interval)
    requires IsInt(a.sequenceID) && IsInt(b.sequenceID)
    requires a.startTime == b.startTime && a.endTime == b.endTime && a.sequenceID != b.sequenceID
    ensures HashCode(a) != HashCode(b)
  {
    HashCongruence(a);
    HashCongruence(b);
    var d := a.sequenceID - b.sequenceID;
    if HashCode(a) == HashCode(b) {
      var j := HashTurns(a) - HashTurns(b);
      assert 1 * d == j * TWO32;
      OddFactorCancels(1, 1, 0, d, j);
    }
  }

  /** Intervals differing only in an end whose timestamp hash differs hash differently. */
  lemma HashSeparatesEnd(a: Interval, b: Interval)
    requires a.startTime == b.startTime && a.sequenceID == b.sequenceID
    requires TimestampHash(a.endTime) != TimestampHash(b.endTime)
    ensures HashCode(a) != HashCode(b)
  {
    HashCongruence(a);
    HashCongruence(b);
    var d := TimestampHash(a.endTime) - TimestampHash(b.endTime);
    if HashCode(a) == HashCode(b) {
      var j := HashTurns(a) - HashTurns(b);
      assert 37 * d == j * TWO32;
      OddFactorCancels(37, 2437684141, 21, d, j);
    }
  }

  /** Intervals differing only in a start whose timestamp hash differs hash differently. */
  lemma HashSeparatesStart(a: Interval, b: Interval)
    requires a.endTime == b.endTime && a.sequenceID == b.sequenceID
    requires TimestampHash(a.startTime) != TimestampHash(b.startTime)
    ensures HashCode(a) != HashCode(b)
  {
    HashCongruence(a);
    HashCongruence(b);
    var d := TimestampHash(a.startTime) - TimestampHash(b.startTime);
    if HashCode(a) == HashCode(b) {
      var j := HashTurns(a) - HashTurns(b);
      assert 1369 * d == j * TWO32;
      OddFactorCancels(1369, 1807086313, 576, d, j);
    }
  }

  /** The low word of a count whose remainder modulo 2^32 is known. */
  lemma LowWordIs(ms: int, low: bv32)
    requires ms % TWO32 == low as int
    ensures LowWord(ms) == low
  {
  }

  /** The high word of a count whose quotient by 2^32 is known. */
  lemma HighWordIs(ms: int, high: bv32)
    requires (ms / TWO32) % TWO32 == high as int
    ensures HighWord(ms) == high
  {
  }

  /**
   * 08:00 and 08:01 UTC on 1 January 2009 (1 230 796 800 000 and
   * 1 230 796 860 000 ms) share their high word and differ in the low one.
   */
  lemma MinuteApartHashes()
    ensures TimestampHash(1_230_796_800_000) != TimestampHash(1_230_796_860_000)
  {
    LowWordIs(1_230_796_800_000, 2436153344);
    HighWordIs(1_230_796_800_000, 286);
    LowWordIs(1_230_796_860_000, 2436213344);
    HighWordIs(1_230_796_860_000, 286);
  }
}
