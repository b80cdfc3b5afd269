/** Machine integers, written out over the unbounded integers: 16- and 32-bit
    wrap-around, the wrapping comparison, and C's truncating division. */
module Words {

  type uint16 = x: int | 0 <= x < 0x1_0000
  type uint32 = x: int | 0 <= x < 0x1_0000_0000

  const INT_MAX: int := 0x7fff_ffff
  const UINT_MAX: int := 0xffff_ffff

  function U16(x: int): uint16 { x % 0x1_0000 }
  function U32(x: int): uint32 { x % 0x1_0000_0000 }

  /** A 32-bit pattern read as a signed number. */
  function I32(x: int): int {
    var u := U32(x);
    if u <= INT_MAX then u else u - 0x1_0000_0000
  }

  function Min(a: int, b: int): int { if a < b then a else b }
  function Max(a: int, b: int): int { if a > b then a else b }
  function Abs(a: int): nat { if a < 0 then -a else a }

  /** Division as C does it: toward zero. */
  function CDiv(a: int, b: int): int
    requires b > 0
  {
    if a >= 0 then a / b else -((-a) / b)
  }

  /** `wrapping_compare_less` under the mask 0xFFFF: lhs is less when the walk up is the shorter one. */
  predicate Less16(lhs: int, rhs: int) {
    U16(rhs - lhs) < U16(lhs - rhs)
  }

  /** `wrapping_compare_less` under the mask 0xFFFFFFFF. */
  predicate Less32(lhs: int, rhs: int) {
    U32(rhs - lhs) < U32(lhs - rhs)
  }

  /** Subtracting wrapped numbers and wrapping is wrapping the difference. */
  lemma U32Difference(a: int, b: int)
    ensures U32(U32(a) - U32(b)) == U32(a - b)
  {
    ModShift(U32(a) - U32(b), a / 0x1_0000_0000 - b / 0x1_0000_0000, 0x1_0000_0000);
  }

  lemma U32Add(x: int, k: int)
    ensures U32(U32(x) + k) == U32(x + k)
  {
    ModShift(U32(x) + k, x / 0x1_0000_0000, 0x1_0000_0000);
  }

  /** On numbers closer than half the space the wrapped comparison is the true one. */
  lemma Less32IsLess(a: int, b: int)
    requires -0x8000_0000 < a - b < 0x8000_0000
    ensures Less32(U32(a), U32(b)) <==> a < b
  {
    U32Difference(a, b);
    U32Difference(b, a);
  }

  /** The two-sided acceptance test on an incoming acknowledgement number
      (neither ahead of the newest packet nor more than `curr` behind it)
      is one distance test, for every position of the wrap. */
  lemma AckTestIsDistance(newest: int, ackNr: uint16, curr: nat)
    requires 0 < curr < 0x8000
    ensures (!Less16(newest, ackNr) && !Less16(ackNr, newest - curr))
       <==> U16(newest - ackNr) <= curr
  {
    hide U16;
    var d := U16(newest - ackNr);
    U16Negated(newest - ackNr);
    U16Negated(newest - ackNr - curr);
    U16Add(newest - ackNr, 0 - curr);
    U16Behind(d, curr);
    assert U16(newest - curr - ackNr) == U16(newest - ackNr - curr);
    assert U16(ackNr - (newest - curr)) == U16(-(newest - ackNr - curr));
    assert U16(ackNr - newest) == U16(-(newest - ackNr));
  }

  lemma U16Negated(x: int)
    ensures U16(-x) == if U16(x) == 0 then 0 else 0x1_0000 - U16(x)
  {
  }

  lemma U16Behind(d: uint16, k: uint16)
    ensures U16(d - k) == if d < k then d - k + 0x1_0000 else d - k
  {
  }

  /** Going back by a wrapped distance leads to the number it was measured from. */
  lemma U16Back(n: int, v: uint16)
    ensures U16(v) == U16(n - U16(n - v))
  {
    ModShift(v, (n - v) / 0x1_0000, 0x1_0000);
    assert n - U16(n - v) == v + (n - v) / 0x1_0000 * 0x1_0000;
  }

  lemma U16Small(x: uint16)
    ensures U16(x) == x
  {
  }

  /** Adding to a wrapped number and wrapping again is adding to the number. */
  lemma U16Add(x: int, k: int)
    ensures U16(U16(x) + k) == U16(x + k)
  {
  }

  /** A 16-bit loop counter tells apart the numbers of any window shorter than 2^16. */
  lemma U16Distinct(i: int, j: int)
    requires -0x1_0000 < i - j < 0x1_0000
    ensures U16(i) == U16(j) <==> i == j
  {
  }

  /** The wrapped test "sent, and newer than the oldest of w" made on 16-bit numbers is the plain
      one on true numbers, as long as the number tested is not a turn away. */
  lemma WindowTest(next: int, n: int, v: int, w: int)
    requires U16(v) == U16(n) && 0 < w <= 1024 && -30000 <= next - 1 - n <= 60000
    ensures U16(U16(next) - v - 1) < w - 1 <==> next - w < n < next
  {
    assert U16(next) - v - 1 == (next - 1 - n) - 0x1_0000 * (next / 0x1_0000 + v / 0x1_0000 - n / 0x1_0000);
    assert U16(U16(next) - v - 1) == U16(next - 1 - n);
  }

  lemma U16Plus(a: int, b: int, k: int)
    requires U16(a) == U16(b)
    ensures U16(a + k) == U16(b + k)
  {
  }

  lemma MultipleOutsideWindow(n: int, d: int)
    requires n > 0
    ensures d >= 1 ==> n * d >= n
    ensures d <= -1 ==> n * d <= -n
  {
  }

  /** A number is fixed by its residue within any window as long as the modulus. */
  lemma ModInjective(i: int, j: int, n: int)
    requires n > 0 && i <= j < i + n && i % n == j % n
    ensures i == j
  {
    assert j - i == n * (j / n - i / n);
    MultipleOutsideWindow(n, j / n - i / n);
  }

  lemma ModShift(i: int, k: int, n: int)
    requires n > 0
    ensures (i + k * n) % n == i % n
  {
    var d := (i + k * n) / n - i / n - k;
    assert n * d == i % n - (i + k * n) % n by {
      assert n * d == n * ((i + k * n) / n) - n * (i / n) - n * k;
    }
    MultipleOutsideWindow(n, d);
  }

  lemma ModSmall(i: int, n: int)
    requires 0 <= i < n
    ensures i % n == i
  {
  }

  lemma ModPlus(i: int, n: int)
    requires n > 0
    ensures (i + n) % n == i % n
  {
    ModShift(i, 1, n);
    assert i + n == i + 1 * n;
  }
}
