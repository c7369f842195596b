/** Arithmetic modulo 2^255 - 19 on five 51-bit limbs: the reference (integers
    and congruences) against which the limb code is stated. */
module Field25519 {
  import opened Words

  const TWO51: nat := 0x8_0000_0000_0000
  const TWO102: nat := 0x40_00000000_00000000_00000000
  const TWO153: nat := 0x2000000_00000000_00000000_00000000_00000000
  const TWO204: nat := 0x1000_00000000_00000000_00000000_00000000_00000000_00000000
  const TWO54: nat := 0x40_0000_0000_0000
  const TWO55: nat := 0x80_0000_0000_0000

  /** The field prime, 2^255 - 19. */
  const P: nat := 0x7fffffff_ffffffff_ffffffff_ffffffff_ffffffff_ffffffff_ffffffff_ffffffed

  /** The largest limb that the ladder feeds to a multiplication. */
  const LOOSE: nat := TWO54 + TWO51

  /** The integer a polynomial in 2^51 stands for. */
  function Val(a0: int, a1: int, a2: int, a3: int, a4: int): int {
    a0 + TWO51 * a1 + TWO102 * a2 + TWO153 * a3 + TWO204 * a4
  }

  /** The integer a limb vector stands for. */
  function V(s: seq<nat>): int
    requires |s| == 5
  {
    Val(s[0], s[1], s[2], s[3], s[4])
  }

  predicate Within(s: seq<nat>, b: nat) {
    && |s| == 5
    && s[0] <= b && s[1] <= b && s[2] <= b && s[3] <= b && s[4] <= b
  }

  /** Equality modulo the field prime. */
  predicate Cong(a: int, b: int) {
    a % P == b % P
  }

  lemma CongBy(a: int, b: int, k: int)
    requires a == b + P * k
    ensures Cong(a, b)
  {
  }

  lemma CongSym(a: int, b: int)
    ensures Cong(a, b) == Cong(b, a)
  {
  }

  /** The multiple of P by which two congruent numbers differ. */
  function Gap(a: int, b: int): (k: int)
    requires Cong(a, b)
    ensures a == b + P * k
  {
    a / P - b / P
  }

  lemma CongMul(a: int, a': int, b: int, b': int)
    requires Cong(a, a') && Cong(b, b')
    ensures Cong(a * b, a' * b')
  {
    var k, l := Gap(a, a'), Gap(b, b');
    MulGaps(a', k, b', l);
    CongBy(a * b, a' * b', k * b' + l * a' + P * k * l);
  }

  lemma MulGaps(a: int, k: int, b: int, l: int)
    ensures (a + P * k) * (b + P * l) == a * b + P * (k * b + l * a + P * k * l)
  {
  }

  lemma CongAdd(a: int, a': int, b: int, b': int)
    requires Cong(a, a') && Cong(b, b')
    ensures Cong(a + b, a' + b') && Cong(a - b, a' - b')
  {
    var k, l := Gap(a, a'), Gap(b, b');
    CongBy(a + b, a' + b', k + l);
    CongBy(a - b, a' - b', k - l);
  }

  /** The five columns of a product, with the high half folded in times 19. */
  lemma ProductColumns(r0: int, r1: int, r2: int, r3: int, r4: int,
                       s0: int, s1: int, s2: int, s3: int, s4: int)
    ensures Val(r0, r1, r2, r3, r4) * Val(s0, s1, s2, s3, s4)
         == Val(r0 * s0 + 19 * (r4 * s1 + r1 * s4 + r2 * s3 + r3 * s2),
                r0 * s1 + r1 * s0 + 19 * (r4 * s2 + r2 * s4 + r3 * s3),
                r0 * s2 + r2 * s0 + r1 * s1 + 19 * (r4 * s3 + r3 * s4),
                r0 * s3 + r3 * s0 + r1 * s2 + r2 * s1 + 19 * (r4 * s4),
                r0 * s4 + r4 * s0 + r3 * s1 + r1 * s3 + r2 * s2)
          + P * Val(r4 * s1 + r1 * s4 + r2 * s3 + r3 * s2, r4 * s2 + r2 * s4 + r3 * s3,
                    r4 * s3 + r3 * s4, r4 * s4, 0)
  {
  }

  /** Powers, with the exponent as a plain natural. */
  function Pow(b: int, e: nat): int {
    if e == 0 then 1 else b * Pow(b, e - 1)
  }

  lemma {:induction false} PowAdd(b: int, d: nat, e: nat)
    ensures Pow(b, d + e) == Pow(b, d) * Pow(b, e)
    decreases d
  {
    if d == 0 {
    } else {
      PowAdd(b, d - 1, e);
      MulAssociates(b, Pow(b, d - 1), Pow(b, e));
    }
  }

  lemma {:induction false} PowPow(b: int, d: nat, e: nat)
    ensures d * e >= 0 && Pow(Pow(b, d), e) == Pow(b, d * e)
    decreases e
  {
    if e == 0 {
    } else {
      PowPow(b, d, e - 1);
      assert d * e == d + d * (e - 1);
      PowAdd(b, d, d * (e - 1));
    }
  }

  lemma {:induction false} PowCong(a: int, b: int, e: nat)
    requires Cong(a, b)
    ensures Cong(Pow(a, e), Pow(b, e))
    decreases e
  {
    if e == 0 {
    } else {
      PowCong(a, b, e - 1);
      CongMul(a, b, Pow(a, e - 1), Pow(b, e - 1));
    }
  }

  // ----- the field, as canonical representatives -----------------------------------

  function Add(a: int, b: int): int { (a + b) % P }
  function Sub(a: int, b: int): int { (a - b) % P }
  function Mul(a: int, b: int): int { (a * b) % P }

  /** The field element a limb vector stands for. */
  function Fe(s: seq<nat>): int
    requires |s| == 5
  {
    V(s) % P
  }

  lemma ModCong(a: int)
    ensures Cong(a, a % P) && 0 <= a % P < P
  {
    CongBy(a, a % P, a / P);
  }

  lemma MulMod(v: int, a: int, b: int)
    requires Cong(v, a * b)
    ensures v % P == Mul(a % P, b % P)
  {
    ModCong(a); ModCong(b);
    CongMul(a, a % P, b, b % P);
  }

  lemma AddMod(a: int, b: int)
    ensures (a + b) % P == Add(a % P, b % P)
    ensures (a - b) % P == Sub(a % P, b % P)
  {
    ModCong(a); ModCong(b);
    CongAdd(a, a % P, b, b % P);
  }

  lemma PowMod(v: int, a: int, e: nat)
    requires Cong(v, Pow(a, e))
    ensures v % P == Pow(a % P, e) % P
  {
    ModCong(a);
    PowCong(a, a % P, e);
  }

  // ----- field laws used to scale projective points --------------------------------

  lemma ScaleSum(a: int, x: int, y: int)
    ensures Add(Mul(a, x), Mul(a, y)) == Mul(a, Add(x, y))
    ensures Sub(Mul(a, x), Mul(a, y)) == Mul(a, Sub(x, y))
  {
    hide Add, Sub;
    AddMod(a * x, a * y);
    MulReduced(a, x + y, Add(x, y));
    MulReduced(a, x - y, Sub(x, y));
    SumIs(x, y);
    assert a * (x + y) == a * x + a * y && a * (x - y) == a * x - a * y;
  }

  lemma ModTwice(a: int)
    ensures a % P % P == a % P
  {
  }

  lemma SumIs(x: int, y: int)
    ensures Add(x, y) == (x + y) % P && Sub(x, y) == (x - y) % P
  {
  }

  lemma MulReduced(a: int, x: int, r: int)
    ensures r == x % P ==> Mul(a, r) == (a * x) % P
  {
    if r == x % P {
      ModCong(x);
      CongMul(a, a, x, r);
    }
  }

  lemma ScaleProduct(a: int, x: int, b: int, y: int)
    ensures Mul(Mul(a, x), Mul(b, y)) == Mul(Mul(a, b), Mul(x, y))
  {
    ModCong(a * x); ModCong(b * y); ModCong(a * b); ModCong(x * y);
    CongMul(a * x, Mul(a, x), b * y, Mul(b, y));
    CongMul(a * b, Mul(a, b), x * y, Mul(x, y));
    Interchange(a, x, b, y);
  }

  lemma Interchange(a: int, x: int, b: int, y: int)
    ensures (a * x) * (b * y) == (a * b) * (x * y)
  {
  }

  lemma ScaleInner(u: int, a: int, x: int)
    ensures Mul(u, Mul(a, x)) == Mul(a, Mul(u, x))
  {
    ModCong(a * x); ModCong(u * x);
    CongMul(u, u, a * x, Mul(a, x));
    CongMul(a, a, u * x, Mul(u, x));
    assert u * (a * x) == a * (u * x);
  }

  lemma {:induction false} PowProduct(a: int, b: int, e: nat)
    ensures Pow(a * b, e) == Pow(a, e) * Pow(b, e)
  {
    if e == 0 {
    } else {
      PowProduct(a, b, e - 1);
      Interchange(a, b, Pow(a, e - 1), Pow(b, e - 1));
    }
  }

  lemma {:induction false} PowOne(e: nat)
    ensures Pow(1, e) == 1
  {
    if e == 0 {
    } else {
      PowOne(e - 1);
    }
  }
}
