/** Curve25519 scalar multiplication (kernel/crypto/x25519.c), against the
    Montgomery ladder of section 5 of RFC 7748. */
module X25519 {
  import opened Words
  import opened Field25519
  import opened Limbs25519
  import opened Bytes25519

  // ----- the ladder over the field --------------------------------------------------

  /** Two projective points: (x2 : z2) and (x3 : z3). */
  datatype Ladder = Ladder(x2: int, z2: int, x3: int, z3: int)

  const A24: nat := 121665

  /** One step of the ladder of section 5 of RFC 7748, between the swaps. */
  function Step(u: int, s: Ladder): Ladder {
    var A := Add(s.x2, s.z2);
    var B := Sub(s.x2, s.z2);
    var AA, BB := Mul(A, A), Mul(B, B);
    var E := Sub(AA, BB);
    var C := Add(s.x3, s.z3);
    var D := Sub(s.x3, s.z3);
    var DA, CB := Mul(D, A), Mul(C, B);
    var sum, diff := Add(DA, CB), Sub(DA, CB);
    Ladder(Mul(AA, BB), Mul(E, Add(AA, Mul(A24, E))),
           Mul(sum, sum), Mul(u, Mul(diff, diff)))
  }

  function Swap(bit: nat, s: Ladder): Ladder {
    if bit == 0 then s else Ladder(s.x3, s.z3, s.x2, s.z2)
  }

  /** Bit t of the scalar. */
  function Bit(k: nat, t: nat): (b: nat)
    ensures b <= 1
  {
    k / Exp2(t) % 2
  }

  /** The loop of section 5 of RFC 7748 over bits t-1 .. 0 of k, with its lazy swap. */
  function RfcLadder(u: int, k: nat, t: nat, s: Ladder, swap: nat): Ladder
    decreases t
  {
    if t == 0 then Swap(swap, s)
    else
      var kt := Bit(k, t - 1);
      RfcLadder(u, k, t - 1, Step(u, Swap((swap + kt) % 2, s)), kt)
  }

  /** The loop the code runs: swap before and after each step. */
  function Run(u: int, k: nat, t: nat, s: Ladder): Ladder
    decreases t
  {
    if t == 0 then s
    else
      var kt := Bit(k, t - 1);
      Run(u, k, t - 1, Swap(kt, Step(u, Swap(kt, s))))
  }

  /** The two ways of swapping give the same ladder. */
  lemma {:induction false} LazySwapIsEager(u: int, k: nat, t: nat, s: Ladder, swap: nat)
    requires swap <= 1
    ensures RfcLadder(u, k, t, s, swap) == Run(u, k, t, Swap(swap, s))
    decreases t
  {
    hide Step, Bit;
    if t == 0 {
    } else {
      var kt := Bit(k, t - 1);
      SwapTwice(kt, swap, s);
      LazySwapIsEager(u, k, t - 1, Step(u, Swap((swap + kt) % 2, s)), kt);
    }
  }

  lemma SwapTwice(a: nat, b: nat, s: Ladder)
    requires a <= 1 && b <= 1
    ensures Swap((b + a) % 2, s) == Swap(a, Swap(b, s))
  {
  }

  // ----- the top step on a cleared bit ------------------------------------------------

  /** Both points of s, scaled by a and by b. */
  function Scale(a: int, b: int, s: Ladder): Ladder {
    Ladder(Mul(a, s.x2), Mul(a, s.z2), Mul(b, s.x3), Mul(b, s.z3))
  }

  /** A step carries scale factors (a, b) to (a^4, (ab)^2). */
  lemma StepScales(u: int, a: int, b: int, s: Ladder)
    ensures var c, d := Mul(a, a), Mul(b, a);
            Step(u, Scale(a, b, s)) == Scale(Mul(c, c), Mul(d, d), Step(u, s))
  {
    hide Add, Sub, Mul;
    var A, B, C, D := Add(s.x2, s.z2), Sub(s.x2, s.z2), Add(s.x3, s.z3), Sub(s.x3, s.z3);
    ScaleSum(a, s.x2, s.z2); ScaleSum(b, s.x3, s.z3);
    ScaleProduct(a, A, a, A); ScaleProduct(a, B, a, B); ScaleProduct(b, D, a, A); ScaleProduct(b, C, a, B);
    var c, d := Mul(a, a), Mul(b, a);
    var AA, BB, DA, CB := Mul(A, A), Mul(B, B), Mul(D, A), Mul(C, B);
    var E := Sub(AA, BB);
    ScaleSum(c, AA, BB); ScaleSum(d, DA, CB);
    ScaleInner(A24, c, E); ScaleSum(c, AA, Mul(A24, E));
    ScaleProduct(c, AA, c, BB); ScaleProduct(c, E, c, Add(AA, Mul(A24, E)));
    var sum, diff := Add(DA, CB), Sub(DA, CB);
    ScaleProduct(d, sum, d, sum); ScaleProduct(d, diff, d, diff);
    ScaleInner(u, Mul(d, d), Mul(diff, diff));
  }

  /** A run keeps scale factors that are powers of one element c. */
  lemma {:induction false} RunScales(u: int, k: nat, t: nat, c: int, m: nat, n: nat, s: Ladder)
      returns (m': nat, n': nat)
    ensures Run(u, k, t, Scale(PowF(c, m), PowF(c, n), s)) == Scale(PowF(c, m'), PowF(c, n'), Run(u, k, t, s))
    decreases t
  {
    hide Step, Bit, PowF, Mul;
    if t == 0 {
      m', n' := m, n;
    } else {
      var kt := Bit(k, t - 1);
      var a, b := if kt == 0 then m else n, if kt == 0 then n else m;
      var from := Swap(kt, s);
      assert Swap(kt, Scale(PowF(c, m), PowF(c, n), s)) == Scale(PowF(c, a), PowF(c, b), from);
      StepScales(u, PowF(c, a), PowF(c, b), from);
      MulPow(c, a, a); MulPow(c, a + a, a + a); MulPow(c, b, a); MulPow(c, b + a, b + a);
      var a', b' := a + a + (a + a), b + a + (b + a);
      var next := Swap(kt, Step(u, from));
      var p, q := if kt == 0 then a' else b', if kt == 0 then b' else a';
      assert Swap(kt, Scale(PowF(c, a'), PowF(c, b'), Step(u, from))) == Scale(PowF(c, p), PowF(c, q), next);
      m', n' := RunScales(u, k, t - 1, c, p, q, next);
    }
  }

  /** On a cleared top bit the step leaves infinity alone and multiplies (u : 1) by 4u. */
  lemma ClearedTopStep(u: int)
    requires 0 <= u < P
    ensures Step(u, Start(u)) == Scale(PowF(4 * u, 0), PowF(4 * u, 1), Start(u))
  {
    hide Add, Sub, Mul, PowF;
    SmallField(Sub(u, 1)); SmallField(Add(u, 1)); SmallField((4 * u) % P);
    ZeroField(Add(1, Mul(A24, 0)));
    CrossSum(u);
    TopX(u); TopZ(u);
    SmallPow(4 * u);
  }

  lemma SmallPow(c: int)
    ensures PowF(c, 0) == 1 && PowF(c, 1) == c % P
  {
    assert Pow(c, 1) == c * Pow(c, 0);
  }

  lemma SmallField(x: int)
    ensures Add(1, 0) == 1 && Sub(1, 0) == 1 && Sub(1, 1) == 0 && Mul(1, 1) == 1 && Mul(1, 0) == 0
    ensures 0 <= x < P ==> Mul(x, 1) == x
    ensures 0 <= Add(x, 1) < P && 0 <= Sub(x, 1) < P
  {
  }

  lemma ZeroField(x: int)
    ensures Mul(0, x) == 0
  {
  }

  lemma TopX(u: int)
    ensures Mul((2 * u) % P, (2 * u) % P) == Mul((4 * u) % P, u)
  {
    ModCong(2 * u); ModCong(4 * u);
    CongMul(2 * u, (2 * u) % P, 2 * u, (2 * u) % P);
    CongMul(4 * u, (4 * u) % P, u, u);
    assert (2 * u) * (2 * u) == 4 * u * u;
  }

  lemma TopZ(u: int)
    ensures Mul(u, Mul((-2) % P, (-2) % P)) == (4 * u) % P
  {
    assert (-2) % P == P - 2;
    assert (P - 2) * (P - 2) % P == 4;
  }

  lemma CrossSum(u: int)
    ensures var DA, CB := Mul(Sub(u, 1), 1), Mul(Add(u, 1), 1);
            Add(DA, CB) == (2 * u) % P && Sub(DA, CB) == (-2) % P
  {
    AddMod(u - 1, u + 1);
    ModTwice(u - 1); ModTwice(u + 1);
  }

  // ----- one step on limbs -----------------------------------------------------------

  /** Lines 254-256 and twice more: x, z become x + z, x - z. */
  method SumDiff(x: array<nat>, z: array<nat>)
    requires x.Length == 5 && z.Length == 5 && x != z
    requires Within(x[..], TWO51) && Within(z[..], TWO51)
    modifies x, z
    ensures Within(x[..], TWO52) && Within(z[..], LOOSE)
    ensures Fe(x[..]) == Add(old(Fe(x[..])), old(Fe(z[..])))
    ensures Fe(z[..]) == Sub(old(Fe(x[..])), old(Fe(z[..])))
  {
    hide Fe, Add, Sub;
    var orig := new nat[5];
    Copy(orig, x);
    FSum(x, z);
    FDifferenceBackwards(z, orig);
  }

  /** `memcpy` of a limb vector. */
  method Copy(dst: array<nat>, src: array<nat>)
    requires dst.Length == 5 && src.Length == 5
    modifies dst
    ensures dst[..] == old(src[..])
  {
    dst[0], dst[1], dst[2], dst[3], dst[4] := src[0], src[1], src[2], src[3], src[4];
  }

  lemma SquareOnce(v: int, e: int)
    requires e == Pow(v, Exp2(1)) % P && v == v % P
    ensures e == Mul(v, v)
  {
    assert Exp2(1) == 2 * Exp2(0);
    assert Pow(v, 2) == v * Pow(v, 1) && Pow(v, 1) == v * Pow(v, 0);
  }

  method Square(output: array<nat>, in1: array<nat>)
    requires output.Length == 5 && in1.Length == 5 && Within(in1[..], LOOSE)
    modifies output
    ensures Within(output[..], TWO51)
    ensures Fe(output[..]) == Mul(old(Fe(in1[..])), old(Fe(in1[..])))
  {
    ghost var v := Fe(in1[..]);
    ModCong(V(in1[..]));
    FSquareTimes(output, in1, 1);
    SquareOnce(v, Fe(output[..]));
  }

  /** Lines 258-268: the sum Q + Q', from A, B (in x, z) and x', z'. */
  method Cross(x3: array<nat>, z3: array<nat>, x: array<nat>, z: array<nat>,
               xprime: array<nat>, zprime: array<nat>, qmqp: array<nat>)
    requires x3.Length == 5 && z3.Length == 5 && x.Length == 5 && z.Length == 5
    requires xprime.Length == 5 && zprime.Length == 5 && qmqp.Length == 5
    requires xprime != zprime && x3 != z3
    requires x3 !in {x, z, xprime, zprime, qmqp} && z3 !in {x, z, xprime, zprime, qmqp}
    requires xprime !in {x, z, qmqp} && zprime !in {x, z, qmqp}
    requires Within(x[..], TWO52) && Within(z[..], LOOSE)
    requires Within(xprime[..], TWO51) && Within(zprime[..], TWO51) && Within(qmqp[..], TWO51)
    modifies x3, z3, xprime, zprime
    ensures Within(x3[..], TWO51) && Within(z3[..], TWO51)
    ensures var A, B := Fe(x[..]), Fe(z[..]);
            var C := Add(old(Fe(xprime[..])), old(Fe(zprime[..])));
            var D := Sub(old(Fe(xprime[..])), old(Fe(zprime[..])));
            && Fe(x3[..]) == Mul(Add(Mul(D, A), Mul(C, B)), Add(Mul(D, A), Mul(C, B)))
            && Fe(z3[..]) == Mul(Fe(qmqp[..]), Mul(Sub(Mul(D, A), Mul(C, B)), Sub(Mul(D, A), Mul(C, B))))
  {
    hide Fe, Add, Sub, Mul;
    var xxprime, zzprime, zzzprime := new nat[5], new nat[5], new nat[5];
    SumDiff(xprime, zprime);
    FMul(xxprime, xprime, z);
    FMul(zzprime, x, zprime);
    SumDiff(xxprime, zzprime);
    Square(x3, xxprime);
    Square(zzzprime, zzprime);
    FMul(z3, zzzprime, qmqp);
    CrossSigns(Fe(zprime[..]), Fe(x[..]), Fe(xprime[..]), Fe(z[..]), Fe(qmqp[..]));
  }

  /** The code forms CB + DA and CB - DA; the RFC forms DA + CB and DA - CB. */
  lemma CrossSigns(D: int, A: int, C: int, B: int, u: int)
    ensures Add(Mul(C, B), Mul(A, D)) == Add(Mul(D, A), Mul(C, B))
    ensures var d, e := Sub(Mul(C, B), Mul(A, D)), Sub(Mul(D, A), Mul(C, B)); Mul(Mul(d, d), u) == Mul(u, Mul(e, e))
  {
    assert A * D == D * A;
    var a, b := Mul(C, B), Mul(D, A);
    NegSquare(a, b);
  }

  lemma NegSquare(a: int, b: int)
    ensures Mul(Sub(a, b), Sub(a, b)) == Mul(Sub(b, a), Sub(b, a))
  {
    ModCong(a - b);
    ModCong(b - a);
    CongMul(a - b, Sub(a, b), a - b, Sub(a, b));
    CongMul(b - a, Sub(b, a), b - a, Sub(b, a));
    assert (a - b) * (a - b) == (b - a) * (b - a);
  }

  /** Lines 273-275: zz becomes E = xx - zz and zzz becomes xx + 121665 * E. */
  method ScaledDiff(zzz: array<nat>, zz: array<nat>, xx: array<nat>)
    requires zzz.Length == 5 && zz.Length == 5 && xx.Length == 5 && zzz != zz && zzz != xx && zz != xx
    requires Within(zz[..], TWO51) && Within(xx[..], TWO51)
    modifies zzz, zz
    ensures Within(zz[..], LOOSE) && Within(zzz[..], LOOSE)
    ensures Fe(zz[..]) == Sub(Fe(xx[..]), old(Fe(zz[..])))
    ensures Fe(zzz[..]) == Add(Fe(xx[..]), Mul(A24, Fe(zz[..])))
  {
    hide Fe, Add, Sub, Mul;
    FDifferenceBackwards(zz, xx);
    assert Within(zz[..], LOOSE);
    FScalarProduct(zzz, zz, A24);
    FSum(zzz, xx);
    DoubleOrder(Fe(xx[..]), Fe(zz[..]));
  }

  lemma DoubleOrder(AA: int, E: int)
    ensures Add(Mul(E, A24), AA) == Add(AA, Mul(A24, E))
  {
  }

  /** Lines 270-276: the double 2Q, from A and B (in x, z). */
  method Double(x2: array<nat>, z2: array<nat>, x: array<nat>, z: array<nat>)
    requires x2.Length == 5 && z2.Length == 5 && x.Length == 5 && z.Length == 5
    requires x2 != z2 && x2 !in {x, z} && z2 !in {x, z}
    requires Within(x[..], TWO52) && Within(z[..], LOOSE)
    modifies x2, z2
    ensures Within(x2[..], TWO51) && Within(z2[..], TWO51)
    ensures var AA, BB := Mul(Fe(x[..]), Fe(x[..])), Mul(Fe(z[..]), Fe(z[..]));
            && Fe(x2[..]) == Mul(AA, BB)
            && Fe(z2[..]) == Mul(Sub(AA, BB), Add(AA, Mul(A24, Sub(AA, BB))))
  {
    hide Fe, Add, Sub, Mul;
    var xx, zz, zzz := new nat[5], new nat[5], new nat[5];
    Square(xx, x);
    Square(zz, z);
    FMul(x2, xx, zz);
    ScaledDiff(zzz, zz, xx);
    FMul(z2, zz, zzz);
  }

  /** fmonty: one step of the ladder, on limb vectors of at most 2^51. */
  method FMonty(x2: array<nat>, z2: array<nat>, x3: array<nat>, z3: array<nat>,
                x: array<nat>, z: array<nat>, xprime: array<nat>, zprime: array<nat>, qmqp: array<nat>)
    requires x2.Length == 5 && z2.Length == 5 && x3.Length == 5 && z3.Length == 5
    requires x.Length == 5 && z.Length == 5 && xprime.Length == 5 && zprime.Length == 5 && qmqp.Length == 5
    requires Apart(x2, z2, x3, z3, x, z, xprime, zprime, qmqp)
    requires Within(x[..], TWO51) && Within(z[..], TWO51)
    requires Within(xprime[..], TWO51) && Within(zprime[..], TWO51) && Within(qmqp[..], TWO51)
    modifies x2, z2, x3, z3, x, z, xprime, zprime
    ensures Within(x2[..], TWO51) && Within(z2[..], TWO51) && Within(x3[..], TWO51) && Within(z3[..], TWO51)
    ensures Ladder(Fe(x2[..]), Fe(z2[..]), Fe(x3[..]), Fe(z3[..]))
         == Step(Fe(qmqp[..]), old(Ladder(Fe(x[..]), Fe(z[..]), Fe(xprime[..]), Fe(zprime[..]))))
  {
    hide Fe, Add, Sub, Mul;
    SumDiff(x, z);
    Cross(x3, z3, x, z, xprime, zprime, qmqp);
    Double(x2, z2, x, z);
  }

  /** The nine limb vectors are nine different arrays. */
  ghost predicate Apart(a: array<nat>, b: array<nat>, c: array<nat>, d: array<nat>,
                        e: array<nat>, f: array<nat>, g: array<nat>, h: array<nat>, q: array<nat>)
  {
    && a !in {b, c, d, e, f, g, h, q} && b !in {c, d, e, f, g, h, q} && c !in {d, e, f, g, h, q}
    && d !in {e, f, g, h, q} && e !in {f, g, h, q} && f !in {g, h, q} && g !in {h, q} && h != q
  }

  // ----- the conditional swap ---------------------------------------------------------

  /** Lines 291-295 on one limb: mask 0 leaves both, mask 2^64 - 1 exchanges them. */
  lemma MaskedSwap(a: nat, b: nat, bit: nat)
    requires a < TWO64 && b < TWO64 && bit <= 1
    ensures var x := And(Negate(bit), Xor(a, b));
            && Xor(a, x) == (if bit == 0 then a else b)
            && Xor(b, x) == (if bit == 0 then b else a)
  {
    hide And, Xor, Exp2;
    Exp2Words();
    XorBound(a, b, 64);
    AndMask(Xor(a, b), 64);
    AndCommutes(TWO64 - 1, Xor(a, b));
    XorCancel(a, b);
    XorCommutes(a, b);
    XorCancel(b, a);
    XorZero(a); XorZero(b);
    AndZero(Xor(a, b));
  }

  /** `-b` on a 64-bit word. */
  function Negate(b: nat): nat
    requires b < TWO64
  {
    (TWO64 - b) % TWO64
  }

  lemma AndZero(a: nat)
    ensures And(0, a) == 0
  {
  }

  lemma XorZero(a: nat)
    ensures Xor(a, 0) == a
  {
  }

  method SwapConditional(a: array<nat>, b: array<nat>, iswap: nat)
    requires a.Length == 5 && b.Length == 5 && a != b && iswap <= 1
    requires Within(a[..], TWO60) && Within(b[..], TWO60)
    modifies a, b
    ensures a[..] == old(if iswap == 0 then a[..] else b[..])
    ensures b[..] == old(if iswap == 0 then b[..] else a[..])
  {
    var swap := Negate(iswap);
    var i := 0;
    while i < 5
      invariant 0 <= i <= 5
      invariant forall k :: 0 <= k < i ==> a[k] == old(if iswap == 0 then a[k] else b[k])
      invariant forall k :: 0 <= k < i ==> b[k] == old(if iswap == 0 then b[k] else a[k])
      invariant forall k :: i <= k < 5 ==> a[k] == old(a[k]) <= TWO60 && b[k] == old(b[k]) <= TWO60
    {
      MaskedSwap(a[i], b[i], iswap);
      var x := And(swap, Xor(a[i], b[i]));
      a[i] := Xor(a[i], x);
      b[i] := Xor(b[i], x);
      i := i + 1;
    }
  }

  // ----- the loop over the scalar -------------------------------------------------------

  lemma BitOfByte(x: nat, y: Byte, j: nat)
    requires x % 256 == y && j < 8
    ensures Bit(x, 7 - j) == y * Exp2(j) % 256 / 128
  {
    assert Exp2(0) == 1 && Exp2(1) == 2 && Exp2(2) == 4 && Exp2(3) == 8;
    assert Exp2(4) == 16 && Exp2(5) == 32 && Exp2(6) == 64 && Exp2(7) == 128;
    hide Exp2;
    var q := x / 256;
    assert x == 256 * q + y;
    if j == 0 { BitCase(q, y, 128, 1); }
    else if j == 1 { BitCase(q, y, 64, 2); }
    else if j == 2 { BitCase(q, y, 32, 4); }
    else if j == 3 { BitCase(q, y, 16, 8); }
    else if j == 4 { BitCase(q, y, 8, 16); }
    else if j == 5 { BitCase(q, y, 4, 32); }
    else if j == 6 { BitCase(q, y, 2, 64); }
    else { BitCase(q, y, 1, 128); }
  }

  lemma BitCase(q: nat, y: Byte, d: nat, e: nat)
    requires d * e == 128
    ensures d > 0 && (256 * q + y) / d % 2 == y * e % 256 / 128
  {
    LowPart(q, y, d, e);
    HighPart(y, d, e);
    TopBit(y / d, y % d * e);
    EvenPart(e * q, y / d);
  }

  lemma EvenPart(x: nat, z: nat)
    ensures (2 * x + z) % 2 == z % 2
  {
  }

  lemma LowPart(q: nat, y: nat, d: nat, e: nat)
    requires d > 0 && d * e == 128
    ensures (256 * q + y) / d == 2 * (e * q) + y / d
  {
    MulAssociates(d, e, q);
    assert d * (2 * (e * q)) == 2 * (d * (e * q));
    Distribute(d, 2 * (e * q), y / d);
    ModUnique(256 * q + y, d, 2 * (e * q) + y / d, y % d);
  }

  lemma HighPart(y: nat, d: nat, e: nat)
    requires d > 0 && d * e == 128
    ensures y * e == 128 * (y / d) + y % d * e && y % d * e < 128
  {
    var a, r := y / d, y % d;
    MulAssociates(e, d, a);
    Distribute(e, d * a, r);
    MulMonotone(e, r + 1, d);
    Distribute(e, r, 1);
  }

  lemma TopBit(a: nat, low: nat)
    requires low < 128
    ensures (128 * a + low) % 256 / 128 == a % 2
  {
    ModUnique(128 * a + low, 256, a / 2, 128 * (a % 2) + low);
  }

  /** The top bit of byte 31 - i after j shifts is scalar bit 255 - 8i - j. */
  lemma ScalarBit(n: seq<Byte>, i: nat, j: nat)
    requires |n| == 32 && i < 32 && j < 8
    ensures Bit(LE(n), 255 - 8 * i - j) == n[31 - i] * Exp2(j) % 256 / 128
  {
    hide Exp2, LE;
    var m := 31 - i;
    LEByte(n, m);
    BitOfByte(LE(n) / Exp2(8 * m), n[m], j);
    Exp2Add(8 * m, 7 - j);
    DivDiv(LE(n), Exp2(8 * m), Exp2(7 - j));
  }

  /** `byte <<= 1`. */
  lemma ShiftByte(y: Byte, j: nat)
    ensures y * Exp2(j) % 256 * 2 % 256 == y * Exp2(j + 1) % 256
  {
    var v := y * Exp2(j);
    assert y * Exp2(j + 1) == 2 * v;
    ModUnique(2 * v, 256, 2 * (v / 256) + v % 256 * 2 / 256, v % 256 * 2 % 256);
  }

  /** Lines 319-327: one bit of the scalar. */
  method BitStep(bit: nat, x: array<nat>, z: array<nat>, xp: array<nat>, zp: array<nat>,
                 x2: array<nat>, z2: array<nat>, xp2: array<nat>, zp2: array<nat>, q: array<nat>)
    requires bit <= 1
    requires x2.Length == 5 && z2.Length == 5 && xp2.Length == 5 && zp2.Length == 5
    requires x.Length == 5 && z.Length == 5 && xp.Length == 5 && zp.Length == 5 && q.Length == 5
    requires Apart(x2, z2, xp2, zp2, x, z, xp, zp, q)
    requires Within(x[..], TWO51) && Within(z[..], TWO51) && Within(xp[..], TWO51) && Within(zp[..], TWO51)
    requires Within(q[..], TWO51)
    modifies x, z, xp, zp, x2, z2, xp2, zp2
    ensures Within(x2[..], TWO51) && Within(z2[..], TWO51) && Within(xp2[..], TWO51) && Within(zp2[..], TWO51)
    ensures Ladder(Fe(x2[..]), Fe(z2[..]), Fe(xp2[..]), Fe(zp2[..]))
         == Swap(bit, Step(Fe(q[..]), Swap(bit, old(Ladder(Fe(x[..]), Fe(z[..]), Fe(xp[..]), Fe(zp[..]))))))
  {
    hide Fe, Step;
    SwapConditional(x, xp, bit);
    SwapConditional(z, zp, bit);
    FMonty(x2, z2, xp2, zp2, x, z, xp, zp, q);
    SwapConditional(x2, xp2, bit);
    SwapConditional(z2, zp2, bit);
  }

  /** The ladder's start: the point at infinity and the base point. */
  function Start(u: int): Ladder {
    Ladder(1, 0, u, 1)
  }

  lemma SmallFe(a: nat, s: seq<nat>)
    requires a <= 1 && s == [a, 0, 0, 0, 0]
    ensures Fe(s) == a && Within(s, TWO51)
  {
  }

  /** The eight work vectors of cmult: all allocated here, all different. */
  ghost predicate Buffers(a: array<nat>, b: array<nat>, c: array<nat>, d: array<nat>,
                          e: array<nat>, f: array<nat>, g: array<nat>, h: array<nat>, q: array<nat>)
  {
    && a.Length == 5 && b.Length == 5 && c.Length == 5 && d.Length == 5
    && e.Length == 5 && f.Length == 5 && g.Length == 5 && h.Length == 5 && q.Length == 5
    && Apart(a, b, c, d, e, f, g, h, q)
  }

  /** Lines 315-335: the eight bits of one byte, exchanging the two halves of the
      buffers after each; eight exchanges leave every pointer where it was. */
  method ByteSteps(n: array<Byte>, i: nat, x0: array<nat>, z0: array<nat>, xp0: array<nat>, zp0: array<nat>,
                   x1: array<nat>, z1: array<nat>, xp1: array<nat>, zp1: array<nat>, q: array<nat>,
                   ghost s0: Ladder) returns (ghost st: Ladder)
    requires n.Length == 32 && i < 32
    requires Buffers(x1, z1, xp1, zp1, x0, z0, xp0, zp0, q)
    requires Within(x0[..], TWO51) && Within(z0[..], TWO51) && Within(xp0[..], TWO51) && Within(zp0[..], TWO51)
    requires Within(q[..], TWO51)
    requires s0 == Ladder(Fe(x0[..]), Fe(z0[..]), Fe(xp0[..]), Fe(zp0[..]))
    modifies x0, z0, xp0, zp0, x1, z1, xp1, zp1
    ensures Within(x0[..], TWO51) && Within(z0[..], TWO51) && Within(xp0[..], TWO51) && Within(zp0[..], TWO51)
    ensures st == Ladder(Fe(x0[..]), Fe(z0[..]), Fe(xp0[..]), Fe(zp0[..]))
    ensures Run(Fe(q[..]), LE(n[..]), 256 - 8 * i, s0) == Run(Fe(q[..]), LE(n[..]), 248 - 8 * i, st)
  {
    hide Fe, Step, LE, Exp2, Bit, Run, Within;
    ghost var u, k := Fe(q[..]), LE(n[..]);
    var nqx, nqz, nqpqx, nqpqz := x0, z0, xp0, zp0;
    var nqx2, nqz2, nqpqx2, nqpqz2 := x1, z1, xp1, zp1;
    st := s0;
    var byte: nat := n[31 - i];
    var j := 0;
    FirstShift(n[31 - i]);
    while j < 8
      invariant 0 <= j <= 8
      invariant byte == n[31 - i] * Exp2(j) % 256
      invariant j % 2 == 0 ==> (nqx, nqz, nqpqx, nqpqz) == (x0, z0, xp0, zp0)
      invariant j % 2 == 0 ==> (nqx2, nqz2, nqpqx2, nqpqz2) == (x1, z1, xp1, zp1)
      invariant j % 2 == 1 ==> (nqx, nqz, nqpqx, nqpqz) == (x1, z1, xp1, zp1)
      invariant j % 2 == 1 ==> (nqx2, nqz2, nqpqx2, nqpqz2) == (x0, z0, xp0, zp0)
      invariant Within(nqx[..], TWO51) && Within(nqz[..], TWO51) && Within(nqpqx[..], TWO51) && Within(nqpqz[..], TWO51)
      invariant st == Ladder(Fe(nqx[..]), Fe(nqz[..]), Fe(nqpqx[..]), Fe(nqpqz[..]))
      invariant Run(u, k, 256 - 8 * i - j, st) == Run(u, k, 256 - 8 * i, s0)
    {
      var bit := byte / 128;
      ScalarBit(n[..], i, j);
      RunStep(u, k, 256 - 8 * i - j, st);
      BitStep(bit, nqx, nqz, nqpqx, nqpqz, nqx2, nqz2, nqpqx2, nqpqz2, q);
      st := Swap(bit, Step(u, Swap(bit, st)));
      nqx, nqx2 := nqx2, nqx;
      nqz, nqz2 := nqz2, nqz;
      nqpqx, nqpqx2 := nqpqx2, nqpqx;
      nqpqz, nqpqz2 := nqpqz2, nqpqz;
      ShiftByte(n[31 - i], j);
      byte := byte * 2 % 256;
      j := j + 1;
    }
  }

  /** cmult: the ladder over all 256 bits of n, from the top. */
  method CMult(resultx: array<nat>, resultz: array<nat>, n: array<Byte>, q: array<nat>)
    requires resultx.Length == 5 && resultz.Length == 5 && resultx != resultz
    requires n.Length == 32 && q.Length == 5 && Within(q[..], TWO51)
    modifies resultx, resultz
    ensures Within(resultx[..], TWO51) && Within(resultz[..], TWO51)
    ensures var u := old(Fe(q[..]));
            var out := RfcLadder(u, LE(old(n[..])), 256, Start(u), 0);
            Fe(resultx[..]) == out.x2 && Fe(resultz[..]) == out.z2
  {
    hide Fe, Step, LE, Exp2, Bit, RfcLadder, Run, Within;
    var a, b := new nat[5][0, 0, 0, 0, 0], new nat[5][1, 0, 0, 0, 0];
    var c, d := new nat[5][1, 0, 0, 0, 0], new nat[5][0, 0, 0, 0, 0];
    var e, f := new nat[5][0, 0, 0, 0, 0], new nat[5][1, 0, 0, 0, 0];
    var g, h := new nat[5][0, 0, 0, 0, 0], new nat[5][1, 0, 0, 0, 0];
    Copy(a, q);
    ghost var u, k := Fe(q[..]), LE(n[..]);
    ghost var st := Start(u);
    SmallFe(1, c[..]); SmallFe(0, d[..]); SmallFe(1, b[..]);
    LazySwapIsEager(u, k, 256, st, 0);
    var i := 0;
    while i < 32
      invariant 0 <= i <= 32
      invariant Within(c[..], TWO51) && Within(d[..], TWO51) && Within(a[..], TWO51) && Within(b[..], TWO51)
      invariant st == Ladder(Fe(c[..]), Fe(d[..]), Fe(a[..]), Fe(b[..]))
      invariant Run(u, k, 256 - 8 * i, st) == RfcLadder(u, k, 256, Start(u), 0)
      invariant q[..] == old(q[..]) && n[..] == old(n[..])
    {
      st := ByteSteps(n, i, c, d, a, b, g, h, e, f, q, st);
      i := i + 1;
    }
    RunDone(u, k, st);
    Copy(resultx, c);
    Copy(resultz, d);
  }

  lemma FirstShift(y: Byte)
    ensures y * Exp2(0) % 256 == y
  {
  }

  lemma RunStep(u: int, k: nat, t: nat, s: Ladder)
    requires t > 0
    ensures Run(u, k, t, s) == Run(u, k, t - 1, Swap(Bit(k, t - 1), Step(u, Swap(Bit(k, t - 1), s))))
  {
    hide Step, Bit;
  }

  lemma RunDone(u: int, k: nat, s: Ladder)
    ensures Run(u, k, 0, s) == s
  {
    hide Step, Bit;
  }

  // ----- inversion ------------------------------------------------------------------

  /** z to the power e in the field. */
  function PowF(z: int, e: nat): int {
    Pow(z, e) % P
  }

  lemma MulPow(z: int, d: nat, e: nat)
    ensures Mul(PowF(z, d), PowF(z, e)) == PowF(z, d + e)
  {
    PowAdd(z, d, e);
    MulMod(Pow(z, d + e), Pow(z, d), Pow(z, e));
  }

  lemma SquarePow(z: int, e: nat, n: nat)
    ensures Pow(PowF(z, e), Exp2(n)) % P == PowF(z, e * Exp2(n))
  {
    PowPow(z, e, Exp2(n));
    PowMod(Pow(z, e * Exp2(n)), Pow(z, e), Exp2(n));
  }

  /** The doublings crecip asks for. */
  lemma ChainDoublings()
    ensures Exp2(1) == 2 && Exp2(2) == 4 && Exp2(5) == 32 && Exp2(10) == 1024
    ensures Exp2(20) == 0x100000 && Exp2(50) == 0x40000_00000000 && Exp2(100) == 0x10_00000000_00000000_00000000
  {
    hide Exp2;
    Exp2Small();
    Exp2Add(2, 3); Exp2Add(5, 5); Exp2Add(10, 10); Exp2Add(20, 20); Exp2Add(40, 10); Exp2Add(50, 50);
  }

  /** The limbs s are reduced and stand for v^e. */
  ghost predicate IsPow(s: seq<nat>, v: int, e: nat) {
    Within(s, TWO51) && Fe(s) == PowF(v, e)
  }

  lemma FirstPow(s: seq<nat>)
    requires Within(s, TWO51)
    ensures IsPow(s, Fe(s), 1)
  {
    ModCong(V(s));
    assert Pow(Fe(s), 1) == Fe(s) * Pow(Fe(s), 0);
  }

  /** fsquare_times as a step of the addition chain. */
  method SquareN(output: array<nat>, in1: array<nat>, count: nat, ghost v: int, ghost e: nat, ghost factor: nat)
    requires output.Length == 5 && in1.Length == 5 && 0 < count < TWO64
    requires IsPow(in1[..], v, e) && factor == Exp2(count)
    modifies output
    ensures IsPow(output[..], v, e * factor)
  {
    hide Pow, Exp2, Fe;
    SquarePow(v, e, count);
    FSquareTimes(output, in1, count);
  }

  /** fmul as a step of the addition chain. */
  method Times(output: array<nat>, x: array<nat>, y: array<nat>, ghost v: int, ghost d: nat, ghost e: nat)
    requires output.Length == 5 && x.Length == 5 && y.Length == 5
    requires IsPow(x[..], v, d) && IsPow(y[..], v, e)
    modifies output
    ensures IsPow(output[..], v, d + e)
  {
    hide Pow, PowF, Exp2, Fe;
    MulPow(v, d, e);
    FMul(output, x, y);
  }

  /** crecip: the inverse as the power P - 2. */
  method CRecip(out: array<nat>, z: array<nat>)
    requires out.Length == 5 && z.Length == 5 && Within(z[..], TWO51)
    modifies out
    ensures Within(out[..], TWO51)
    ensures Fe(out[..]) == PowF(old(Fe(z[..])), P - 2)
  {
    var a, t0, b, c := new nat[5], new nat[5], new nat[5], new nat[5];
    ghost var v := Fe(z[..]);
    FirstPow(z[..]);
    ChainDoublings();
    Chain(out, a, t0, b, c, z, v);
  }

  /** Lines 350-371: the addition chain for 2^255 - 21. */
  method Chain(out: array<nat>, a: array<nat>, t0: array<nat>, b: array<nat>, c: array<nat>, z: array<nat>,
      ghost v: int)
    requires out.Length == 5 && a.Length == 5 && b.Length == 5 && c.Length == 5 && t0.Length == 5 && z.Length == 5
    requires a !in {b, c, t0, z} && b !in {c, t0, z} && c !in {t0, z} && t0 != z
    requires IsPow(z[..], v, 1)
    modifies out, a, b, c, t0
    ensures IsPow(out[..], v, P - 2)
  {
    hide IsPow, Exp2;
    ChainDoublings();
    SquareN(a, z, 1, v, 0x1, 0x2);
    SquareN(t0, a, 2, v, 0x2, 0x4);
    Times(b, t0, z, v, 0x8, 0x1);
    Times(a, b, a, v, 0x9, 0x2);
    SquareN(t0, a, 1, v, 0xb, 0x2);
    Times(b, t0, b, v, 0x16, 0x9);
    SquareN(t0, b, 5, v, 0x1f, 0x20);
    Times(b, t0, b, v, 0x3e0, 0x1f);
    SquareN(t0, b, 10, v, 0x3ff, 0x400);
    Times(c, t0, b, v, 0xffc00, 0x3ff);
    SquareN(t0, c, 20, v, 0xfffff, 0x100000);
    Times(t0, t0, c, v, 0xff_fff00000, 0xfffff);
    SquareN(t0, t0, 10, v, 0xff_ffffffff, 0x400);
    Times(b, t0, b, v, 0x3ffff_fffffc00, 0x3ff);
    SquareN(t0, b, 50, v, 0x3ffff_ffffffff, 0x40000_00000000);
    Times(c, t0, b, v, 0xf_ffffffff_fffc0000_00000000, 0x3ffff_ffffffff);
    SquareN(t0, c, 100, v, 0xf_ffffffff_ffffffff_ffffffff, 0x10_00000000_00000000_00000000);
    Times(t0, t0, c, v, 0xff_ffffffff_ffffffff_fffffff0_00000000_00000000_00000000, 0xf_ffffffff_ffffffff_ffffffff);
    SquareN(t0, t0, 50, v, 0xff_ffffffff_ffffffff_ffffffff_ffffffff_ffffffff_ffffffff, 0x40000_00000000);
    Times(t0, t0, b, v, 0x3ffffff_ffffffff_ffffffff_ffffffff_ffffffff_ffffffff_fffc0000_00000000, 0x3ffff_ffffffff);
    SquareN(t0, t0, 5, v, 0x3ffffff_ffffffff_ffffffff_ffffffff_ffffffff_ffffffff_ffffffff_ffffffff, 0x20);
    Times(out, t0, a, v, 0x7fffffff_ffffffff_ffffffff_ffffffff_ffffffff_ffffffff_ffffffff_ffffffe0, 0xb);
  }

  // ----- the whole function -----------------------------------------------------------------

  /** The clamping of section 5 of RFC 7748: clear bits 0-2 and 255, set bit 254. */
  function Clamp(s: seq<Byte>): (e: seq<Byte>)
    requires |s| == 32
    ensures |e| == 32
  {
    AndBound(s[0], 248); AndBound(s[31], 127); OrBound(And(s[31], 127), 64, 7);
    [And(s[0], 248) as Byte] + s[1..31] + [Or(And(s[31], 127), 64) as Byte]
  }

  lemma {:induction false} OrBound(x: nat, y: nat, k: nat)
    requires x < Exp2(k) && y < Exp2(k)
    ensures Or(x, y) < Exp2(k)
  {
    if k == 0 || x == 0 || y == 0 {
    } else {
      OrBound(x / 2, y / 2, k - 1);
    }
  }

  lemma Exp2Seven()
    ensures Exp2(5) == 32 && Exp2(6) == 64 && Exp2(7) == 128
  {
    Exp2Small();
    hide Exp2;
    Exp2Add(1, 4); Exp2Add(2, 4); Exp2Add(3, 4);
  }

  lemma ClampBytes(lo: Byte, hi: Byte)
    ensures And(lo, 248) == lo - lo % 8
    ensures Or(And(hi, 127), 64) == 64 + hi % 64
  {
    hide And, Or, Exp2;
    Exp2Seven(); Exp2Small();
    HighBits(lo, lo / 8, lo % 8, 31, 248, 3);
    AndMask(lo / 8, 5);
    AndMask(hi, 7);
    HighBits(hi % 128, hi % 128 / 64, hi % 64, 1, 64, 6);
    OneOr(hi % 128 / 64);
  }

  lemma OneOr(b: nat)
    requires b <= 1
    ensures Or(b, 1) == 1
  {
  }

  const TWO254: nat := 0x40000000_00000000_00000000_00000000_00000000_00000000_00000000_00000000
  const TWO248: nat := 0x1000000_00000000_00000000_00000000_00000000_00000000_00000000_00000000

  /** Clamping keeps bits 3 to 253 of the scalar, clears the rest and sets bit 254. */
  lemma ClampValue(s: seq<Byte>)
    requires |s| == 32
    ensures LE(Clamp(s)) == TWO254 + LE(s) % TWO254 - LE(s) % 8
  {
    hide And, Or, Exp2, LE;
    var mid := s[1..31];
    ClampBytes(s[0], s[31]);
    var lo: Byte, hi: Byte := s[0] - s[0] % 8, 64 + s[31] % 64;
    assert Clamp(s) == [lo] + mid + [hi];
    assert s == [s[0]] + mid + [s[31]];
    hide Clamp;
    EndsValue(s[0], mid, s[31]);
    EndsValue(lo, mid, hi);
    ClampArith(s[0], LE(mid), s[31]);
  }

  lemma ClampArith(lo: Byte, m: nat, hi: Byte)
    requires 256 * m + 256 <= TWO248
    ensures var n := lo + 256 * m + TWO248 * hi;
            (lo - lo % 8) + 256 * m + TWO248 * (64 + hi % 64) == TWO254 + n % TWO254 - n % 8
  {
    var n := lo + 256 * m + TWO248 * hi;
    ModUnique(n, TWO254, hi / 64, lo + 256 * m + TWO248 * (hi % 64));
    ModUnique(n, 8, lo / 8 + 32 * m + TWO248 / 8 * hi, lo % 8);
  }

  lemma EndsValue(lo: Byte, mid: seq<Byte>, hi: Byte)
    requires |mid| == 30
    ensures LE([lo] + mid + [hi]) == lo + 256 * LE(mid) + TWO248 * hi
    ensures 256 * LE(mid) + 256 <= TWO248
  {
    hide Exp2, LE;
    Exp2Words(); Exp2Add(64, 64); Exp2Add(128, 64); Exp2Add(192, 48); Exp2Add(240, 8);
    LEBound(mid);
    LEConcat([lo], mid);
    LEConcat([lo] + mid, [hi]);
    OneByte(lo); OneByte(hi);
  }

  /** The value of the X25519 function of section 5 of RFC 7748, with the ladder
      run over all 256 bits: x2 * z2^(P - 2), as a number below P. */
  function Result(scalar: seq<Byte>, point: seq<Byte>): int
    requires |scalar| == 32 && |point| == 32
  {
    var u := LE(point) % TWO255 % P;
    var out := RfcLadder(u, LE(Clamp(scalar)), 256, Start(u), 0);
    Mul(out.x2, PowF(out.z2, P - 2))
  }

  /** X25519 as section 5 of RFC 7748 writes it: the ladder over bits 254 to 0. */
  function RfcResult(scalar: seq<Byte>, point: seq<Byte>): int
    requires |scalar| == 32 && |point| == 32
  {
    var u := LE(point) % TWO255 % P;
    var out := RfcLadder(u, LE(Clamp(scalar)), 255, Start(u), 0);
    Mul(out.x2, PowF(out.z2, P - 2))
  }

  lemma PowMul(a: int, b: int, e: nat)
    ensures PowF(Mul(a, b), e) == Mul(PowF(a, e), PowF(b, e))
  {
    ModCong(a * b);
    PowCong(a * b, Mul(a, b), e);
    PowProduct(a, b, e);
    MulMod(Pow(a * b, e), Pow(a, e), Pow(b, e));
  }

  /** A common factor whose (P - 1)-th power is 1 cancels in x * z^(P - 2). */
  lemma FactorCancels(c: int, m: nat, x: int, z: int)
    requires PowF(c, P - 1) == 1 && 0 <= x < P && 0 <= z < P
    ensures Mul(Mul(PowF(c, m), x), PowF(Mul(PowF(c, m), z), P - 2)) == Mul(x, PowF(z, P - 2))
  {
    var l := PowF(c, m);
    PowMul(l, z, P - 2);
    ScaleProduct(l, x, PowF(l, P - 2), PowF(z, P - 2));
    assert Mul(l, PowF(l, P - 2)) == 1 by {
      FirstPower(c, m);
      MulPow(l, 1, P - 2);
      FermatPower(c, m);
    }
    UnitLaw(Mul(x, PowF(z, P - 2)));
    ModTwice(x * PowF(z, P - 2));
  }

  lemma FirstPower(c: int, m: nat)
    ensures PowF(PowF(c, m), 1) == PowF(c, m)
  {
    SmallPow(PowF(c, m));
    ModTwice(Pow(c, m));
  }

  lemma FermatPower(c: int, m: nat)
    requires PowF(c, P - 1) == 1
    ensures PowF(PowF(c, m), P - 1) == 1
  {
    hide Pow;
    var e: nat := P - 1;
    PowPow(c, m, e);
    PowMod(Pow(c, m * e), Pow(c, m), e);
    PowPow(c, e, m);
    PowMod(Pow(c, e * m), Pow(c, e), m);
    MulCommutes(m, e);
    PowOne(m);
  }

  lemma MulCommutes(a: int, b: int)
    ensures a * b == b * a
  {
  }

  lemma UnitLaw(x: int)
    ensures 0 <= x < P ==> Mul(1, x) == x
  {
  }

  /** With u = 0 both points stay at z = 0 from the first step on. */
  lemma {:induction false} ZeroPoint(k: nat, t: nat, s: Ladder)
    requires s.z2 == 0 || s.x2 == 0
    requires s.z3 == 0 || s.x3 == 0
    ensures t > 0 ==> Run(0, k, t, s).z2 == 0
    decreases t
  {
    hide Bit;
    if t == 0 {
    } else {
      var kt := Bit(k, t - 1);
      ZeroStep(Swap(kt, s));
      hide Step;
      ZeroPoint(k, t - 1, Swap(kt, Step(0, Swap(kt, s))));
    }
  }

  lemma ZeroStep(s: Ladder)
    requires s.z2 == 0 || s.x2 == 0
    ensures Step(0, s).z2 == 0 && Step(0, s).z3 == 0
  {
    NegSquare(s.x2, s.z2);
    if s.x2 == 0 {
      AddMod(0, s.z2);
      assert Add(0, s.z2) == Sub(s.z2, 0);
    } else {
      assert Add(s.x2, 0) == Sub(s.x2, 0);
    }
    hide Mul, Add;
    var AA := Mul(Add(s.x2, s.z2), Add(s.x2, s.z2));
    assert Sub(AA, AA) == 0;
    ZeroField(Add(AA, Mul(A24, 0)));
    var DA, CB := Mul(Sub(s.x3, s.z3), Add(s.x2, s.z2)), Mul(Add(s.x3, s.z3), Sub(s.x2, s.z2));
    ZeroField(Mul(Sub(DA, CB), Sub(DA, CB)));
  }

  lemma TopBitCleared(scalar: seq<Byte>)
    requires |scalar| == 32
    ensures Bit(LE(Clamp(scalar)), 255) == 0
  {
    hide LE, Exp2, Clamp;
    ClampValue(scalar);
    Exp2Limb(); Exp2Add(204, 51);
    ModUnique(LE(Clamp(scalar)), TWO255, 0, LE(Clamp(scalar)));
  }

  lemma {:induction false} RunRange(u: int, k: nat, t: nat, s: Ladder)
    requires 0 <= s.x2 < P && 0 <= s.z2 < P && 0 <= s.x3 < P && 0 <= s.z3 < P
    ensures var o := Run(u, k, t, s); 0 <= o.x2 < P && 0 <= o.z2 < P
    decreases t
  {
    hide Bit;
    if t == 0 {
    } else {
      var kt := Bit(k, t - 1);
      StepRange(u, Swap(kt, s));
      hide Step;
      RunRange(u, k, t - 1, Swap(kt, Step(u, Swap(kt, s))));
    }
  }

  lemma StepRange(u: int, s: Ladder)
    ensures var o := Step(u, s); 0 <= o.x2 < P && 0 <= o.z2 < P && 0 <= o.x3 < P && 0 <= o.z3 < P
  {
    hide Add, Sub;
  }

  /** The code's 256-step ladder gives the RFC's value: always when u is 0, and
      otherwise whenever Fermat's little theorem holds of 4u modulo P. */
  lemma AgreesWithRfc(scalar: seq<Byte>, point: seq<Byte>)
    requires |scalar| == 32 && |point| == 32
    requires var u := LE(point) % TWO255 % P; u == 0 || PowF(4 * u, P - 1) == 1
    ensures Result(scalar, point) == RfcResult(scalar, point)
  {
    hide LE, Exp2, Clamp, Bit, PowF, Mul, Step, Run, RfcLadder;
    var u := LE(point) % TWO255 % P;
    var k := LE(Clamp(scalar));
    var c := 4 * u;
    LazySwapIsEager(u, k, 256, Start(u), 0);
    LazySwapIsEager(u, k, 255, Start(u), 0);
    if u == 0 {
      ZeroPoint(k, 256, Start(u));
      ZeroPoint(k, 255, Start(u));
      ZeroResult(Run(u, k, 256, Start(u)).x2);
      ZeroResult(Run(u, k, 255, Start(u)).x2);
    } else {
      TopBitCleared(scalar);
      RunStep(u, k, 256, Start(u));
      ClearedTopStep(u);
      var m, n := RunScales(u, k, 255, c, 0, 1, Start(u));
      RunRange(u, k, 255, Start(u));
      var rfc := Run(u, k, 255, Start(u));
      FactorCancels(c, m, rfc.x2, rfc.z2);
    }
  }

  lemma ZeroResult(x: int)
    ensures Mul(x, PowF(0, P - 2)) == 0
  {
    assert Pow(0, P - 2) == 0 * Pow(0, P - 3);
  }

  /** Lines 380-383: the private copy of the scalar, clamped. */
  method ClampCopy(e: array<Byte>, secret: array<Byte>)
    requires e.Length == 32 && secret.Length == 32 && e != secret
    modifies e
    ensures e[..] == Clamp(secret[..])
  {
    hide Or, And, Exp2;
    var i := 0;
    while i < 32
      invariant 0 <= i <= 32
      invariant forall k :: 0 <= k < i ==> e[k] == secret[k]
    {
      e[i] := secret[i];
      i := i + 1;
    }
    AndBound(e[0], 248); AndBound(e[31], 127);
    Exp2Seven();
    OrBound(And(e[31], 127), 64, 7);
    e[0] := And(e[0], 248);
    e[31] := And(e[31], 127);
    e[31] := Or(e[31], 64);
  }

  /** curve25519_donna. */
  method ScalarMult(mypublic: array<Byte>, secret: array<Byte>, basepoint: array<Byte>)
    requires mypublic.Length == 32 && secret.Length == 32 && basepoint.Length == 32
    modifies mypublic
    ensures LE(mypublic[..]) == old(Result(secret[..], basepoint[..]))
  {
    hide LE, PowF, Mul, RfcLadder, Clamp, V;
    var bp, x, z, zmone := new nat[5], new nat[5], new nat[5], new nat[5];
    var e := new Byte[32];
    ClampCopy(e, secret);
    FExpand(bp, basepoint);
    CMult(x, z, e, bp);
    CRecip(zmone, z);
    FMul(z, x, zmone);
    FContract(mypublic, z);
  }
}
