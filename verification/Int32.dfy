/** The 32-bit integer operators of JavaScript (`&`, `<<`, `>>`, section 13.9
    and 13.12 of ECMA-262), over the unbounded integers that a Number holds
    exactly. Every operand is first reduced by ToInt32. */
module Int32 {

  const TWO32: int := 0x1_0000_0000
  const MAX32: int := 0x8000_0000

  /** The operand seen by a bitwise operator: reduced modulo 2^32, signed. */
  function ToInt32(x: int): (r: int)
    ensures -MAX32 <= r < MAX32
    ensures -MAX32 <= x < MAX32 ==> r == x
  {
    var m := x % TWO32;
    if m >= MAX32 then m - TWO32 else m
  }

  lemma ParityKept(x: int)
    ensures ToInt32(x) % 2 == x % 2
  {
    assert x % TWO32 == x - 2 * (MAX32 * (x / TWO32));
    EvenShiftKeepsParity(x, MAX32 * (x / TWO32));
    EvenShiftKeepsParity(x % TWO32, MAX32);
  }

  lemma EvenShiftKeepsParity(x: int, q: int)
    ensures (x - 2 * q) % 2 == x % 2
  {
  }

  /** `x >> 1`: arithmetic shift, so division rounding down. */
  function Shr1(x: int): (r: int)
    ensures -MAX32 <= x < MAX32 ==> r == x / 2
    ensures -MAX32 <= 2 * r < MAX32
  {
    ToInt32(x) / 2
  }

  /** `x << 1` */
  function Shl1(x: int): (r: int)
    ensures -0x4000_0000 <= x < 0x4000_0000 ==> r == 2 * x
    ensures x == 0x4000_0000 ==> r == -MAX32
    ensures x == -MAX32 ==> r == 0
  {
    ToInt32(2 * ToInt32(x))
  }

  /** `&` on the bits of two naturals. */
  function BitAnd(a: nat, b: nat): nat {
    if a == 0 || b == 0 then 0
    else 2 * BitAnd(a / 2, b / 2) + if a % 2 == 1 && b % 2 == 1 then 1 else 0
  }

  /** `a & b` */
  function And32(a: int, b: int): int {
    ToInt32(BitAnd(a % TWO32, b % TWO32))
  }

  /** `x & 1`: the parity, of negative operands too. */
  function LowBit(x: int): int {
    x % 2
  }

  lemma {:induction false} LowBitIsAnd(x: int)
    ensures And32(x, 1) == LowBit(x)
  {
    var a := x % TWO32;
    BitAndOne(a);
    ParityKept(x);
    EvenShiftKeepsParity(a, MAX32);
  }

  lemma BitAndOne(a: nat)
    ensures BitAnd(a, 1) == a % 2
  {
    assert BitAnd(a / 2, 0) == 0;
  }

  /** Powers of two, the only sizes whose subtree is full. */
  predicate IsPow2(k: nat) {
    k == 1 || (k > 0 && k % 2 == 0 && IsPow2(k / 2))
  }

  lemma BitAndPred(k: nat)
    requires k > 0
    ensures BitAnd(k, k - 1) == 0 <==> IsPow2(k)
  {
    if k > 1 {
      if k % 2 == 1 {
        BitAndOdd(k);
      } else {
        assert (k - 1) / 2 == k / 2 - 1;
        BitAndPred(k / 2);
      }
    }
  }

  lemma BitAndOdd(k: nat)
    requires k > 1 && k % 2 == 1
    ensures BitAnd(k, k - 1) != 0
  {
    assert (k - 1) / 2 == k / 2;
    BitAndSelf(k / 2);
  }

  lemma BitAndSelf(k: nat)
    ensures BitAnd(k, k) == k
  {
    if k > 0 {
      BitAndSelf(k / 2);
    }
  }

  /** `(m & (m - 1)) === 0` is the power-of-two test for every positive size that fits. */
  lemma {:induction false} PowerOfTwoTest(m: int)
    requires 0 < m <= MAX32
    ensures And32(m, m - 1) == 0 <==> IsPow2(m)
  {
    BitAndPred(m);
    BitAndBound(m, m - 1);
  }

  lemma BitAndBound(a: nat, b: nat)
    ensures BitAnd(a, b) <= b
  {
    if a != 0 && b != 0 {
      BitAndBound(a / 2, b / 2);
    }
  }

  lemma Pow2Double(k: nat)
    requires IsPow2(k)
    ensures IsPow2(2 * k)
  {
  }

  lemma Pow2Times4(k: nat)
    requires IsPow2(k)
    ensures IsPow2(4 * k)
  {
    Pow2Double(k);
    Pow2Double(2 * k);
  }

  lemma Pow2Times16(k: nat)
    requires IsPow2(k)
    ensures IsPow2(16 * k)
  {
    Pow2Times4(k);
    Pow2Times4(4 * k);
  }

  /** 2^29 and 2^30, the last sizes whose doubling fits. */
  lemma LargePowers()
    ensures IsPow2(0x2000_0000) && IsPow2(0x4000_0000)
  {
    Pow2Times16(1);
    Pow2Times16(0x10);
    Pow2Times16(0x100);
    Pow2Times16(0x1000);
    Pow2Times16(0x1_0000);
    Pow2Times16(0x10_0000);
    Pow2Times16(0x100_0000);
    Pow2Double(0x1000_0000);
    Pow2Double(0x2000_0000);
  }

  /** Between two powers of two there is a factor of two. */
  lemma Pow2Gap(a: nat, b: nat)
    requires IsPow2(a) && IsPow2(b) && a < b
    ensures 2 * a <= b
  {
    if a > 1 {
      Pow2Gap(a / 2, b / 2);
    }
  }
}
