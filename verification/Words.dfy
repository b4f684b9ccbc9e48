/** Machine words and small containers shared by the firmware models.

    Every clock in the firmware is an unsigned 32-bit millisecond counter that
    wraps after 49.7 days.  The models keep that width: `Stamp` is what the
    counter shows at a true time, `Elapsed` is the C subtraction of two readings.
 */
module Words {

  const TWO32: int := 0x1_0000_0000

  type U32 = x: int | 0 <= x < 0x1_0000_0000
  type Byte = x: int | 0 <= x < 256

  datatype Option<+T> = None | Some(value: T)

  /** The counter reading at true time `t`: the time with every full wrap taken off. */
  function Stamp(t: nat): (r: U32)
    ensures r <= t
  {
    if t < TWO32 then t else Stamp(t - TWO32)
  }

  lemma {:induction false} StampIsRemainder(t: nat)
    ensures Stamp(t) == t % TWO32
  {
    if t >= TWO32 {
      StampIsRemainder(t - TWO32);
    }
  }

  /** `now - since` on 32-bit unsigned operands. */
  function Elapsed(now: U32, since: U32): U32 {
    if now >= since then now - since else now - since + TWO32
  }

  /** `a + b` on 32-bit unsigned operands. */
  function Sum32(a: U32, b: U32): U32 {
    if a + b < TWO32 then a + b else a + b - TWO32
  }

  function Min(a: int, b: int): int {
    if a <= b then a else b
  }

  function Pow2(n: nat): (p: nat)
    ensures p >= 1
  {
    if n == 0 then 1 else 2 * Pow2(n - 1)
  }

  lemma {:induction false} Pow2Grows(a: nat, b: nat)
    requires a <= b
    ensures Pow2(a) <= Pow2(b)
  {
    if a < b {
      Pow2Grows(a, b - 1);
    }
  }

  /** The wrapped difference is the stamp of the true one, so it never exceeds it. */
  lemma ElapsedOfStamps(t: nat, s: nat)
    requires s <= t
    ensures Elapsed(Stamp(t), Stamp(s)) == Stamp(t - s)
  {
    var a, b := t / TWO32, s / TWO32;
    StampIsRemainder(t);
    StampIsRemainder(s);
    StampIsRemainder(t - s);
    var k := if Stamp(t) >= Stamp(s) then a - b else a - b - 1;
    ModUnique(t - s, k, Elapsed(Stamp(t), Stamp(s)));
  }

  lemma ModUnique(d: int, k: int, e: int)
    requires 0 <= e < TWO32 && d == k * TWO32 + e
    ensures d % TWO32 == e
  {
  }

  lemma SumOfStamps(t: nat, b: U32)
    ensures Sum32(Stamp(t), b) == Stamp(t + b)
  {
    var k := t / TWO32;
    StampIsRemainder(t);
    StampIsRemainder(t + b);
    ModUnique(t + b, if Stamp(t) + b < TWO32 then k else k + 1, Sum32(Stamp(t), b));
  }
}
