/** The field operations of kernel/crypto/x25519.c on limb arrays updated in
    place: 64- and 128-bit words, with every narrowing written out. */
module Limbs25519 {
  import opened Words
  import opened Field25519

  // ----- the carry chain shared by fmul and fsquare_times ---------------------

  /** Narrowing to 64 bits first does not change the low 51. */
  lemma LowLimb(t: nat)
    ensures t % TWO64 % TWO51 == t % TWO51
    ensures t == t % TWO51 + TWO51 * (t / TWO51)
  {
    var q, m := t / TWO64, t % TWO64;
    ModUnique(t, TWO51, 0x2000 * q + m / TWO51, m % TWO51);
  }

  /** One step of the chain: the low 51 bits of a 128-bit column and the rest of
      it narrowed to 64 bits; `lost` is what the narrowing drops. */
  method Narrow(t: nat) returns (r: nat, c: nat, ghost lost: nat)
    ensures r < TWO51 && c < TWO64
    ensures t == r + TWO51 * (c + TWO64 * lost)
  {
    r := t % TWO64 % TWO51;
    c := t / TWO51 % TWO64;
    lost := t / TWO51 / TWO64;
    LowLimb(t);
  }

  /** The columns' carries at full width, from the lowest column up. */
  function Carries(t0: nat, t1: nat, t2: nat, t3: nat, t4: nat): (nat, nat, nat, nat, nat) {
    var c0 := t0 / TWO51;
    var c1 := (t1 + c0) / TWO51;
    var c2 := (t2 + c1) / TWO51;
    var c3 := (t3 + c2) / TWO51;
    (c0, c1, c2, c3, (t4 + c3) / TWO51)
  }

  /** Every carry fits the 64-bit word it is narrowed to, and so does the limb
      that takes the last carry times 19. */
  predicate NoLoss(t0: nat, t1: nat, t2: nat, t3: nat, t4: nat) {
    var (c0, c1, c2, c3, c4) := Carries(t0, t1, t2, t3, t4);
    c0 < TWO64 && c1 < TWO64 && c2 < TWO64 && c3 < TWO64 && t0 % TWO51 + 19 * c4 < TWO64
  }

  /** What the chain drops, in units of 2^64, decides the result: a number below
      P in those units is a multiple of P only when it is zero. */
  lemma LossIsVisible(n: int)
    requires 0 <= n < P && Cong(TWO64 * n, 0)
    ensures n == 0
  {
    // INV64 * 2^64 == 1 + P * Q64
    var k := Gap(TWO64 * n, 0);
    assert n == INV64 * (TWO64 * n) - P * (Q64 * n);
    assert n == P * (INV64 * k - Q64 * n);
    SmallMultiple(P, INV64 * k - Q64 * n);
  }

  const INV64: nat := 0x435e50d7_9435e50d_7fffffff_ffffffff_ffffffff_ffffffff_ffffffff_fffffff6
  const Q64: nat := 0x86bca1af_286bca1b

  lemma CarryValue(t0: nat, t1: nat, t2: nat, t3: nat, t4: nat,
                   r0: nat, r1: nat, r2: nat, r3: nat, r4: nat,
                   c0: nat, c1: nat, c2: nat, c3: nat, c4: nat,
                   k0: nat, k1: nat, k2: nat, k3: nat, k4: nat, s: nat, m: nat)
    requires t0 == r0 + TWO51 * (c0 + TWO64 * k0)
    requires t1 + c0 == r1 + TWO51 * (c1 + TWO64 * k1)
    requires t2 + c1 == r2 + TWO51 * (c2 + TWO64 * k2)
    requires t3 + c2 == r3 + TWO51 * (c3 + TWO64 * k3)
    requires t4 + c3 == r4 + TWO51 * (c4 + TWO64 * k4)
    requires r0 + 19 * (c4 + TWO64 * k4) == s + TWO64 * m
    ensures Val(s, r1, r2, r3, r4) + TWO64 * Val(m, k0, k1, k2, k3) + P * (c4 + TWO64 * k4) == Val(t0, t1, t2, t3, t4)
  {
  }

  /** Nothing was dropped exactly when the full-width carries fit. */
  lemma LossIffCarries(t0: nat, t1: nat, t2: nat, t3: nat, t4: nat,
                       r0: nat, r1: nat, r2: nat, r3: nat, r4: nat,
                       c0: nat, c1: nat, c2: nat, c3: nat, c4: nat,
                       k0: nat, k1: nat, k2: nat, k3: nat, k4: nat, s: nat, m: nat)
    requires r0 < TWO51 && r1 < TWO51 && r2 < TWO51 && r3 < TWO51 && r4 < TWO51
    requires c0 < TWO64 && c1 < TWO64 && c2 < TWO64 && c3 < TWO64 && s < TWO64
    requires t0 == r0 + TWO51 * (c0 + TWO64 * k0)
    requires t1 + c0 == r1 + TWO51 * (c1 + TWO64 * k1)
    requires t2 + c1 == r2 + TWO51 * (c2 + TWO64 * k2)
    requires t3 + c2 == r3 + TWO51 * (c3 + TWO64 * k3)
    requires t4 + c3 == r4 + TWO51 * (c4 + TWO64 * k4)
    requires r0 + 19 * (c4 + TWO64 * k4) == s + TWO64 * m
    ensures NoLoss(t0, t1, t2, t3, t4) <==> Val(m, k0, k1, k2, k3) == 0
  {
    DivIs(t0, r0, c0 + TWO64 * k0);
    if k0 == 0 {
      DivIs(t1 + c0, r1, c1 + TWO64 * k1);
      if k1 == 0 {
        DivIs(t2 + c1, r2, c2 + TWO64 * k2);
        if k2 == 0 {
          DivIs(t3 + c2, r3, c3 + TWO64 * k3);
          if k3 == 0 {
            DivIs(t4 + c3, r4, c4 + TWO64 * k4);
          }
        }
      }
    }
  }

  lemma DivIs(t: nat, r: nat, c: nat)
    requires r < TWO51 && t == r + TWO51 * c
    ensures t / TWO51 == c && t % TWO51 == r
  {
  }

  /** Lines 109-111: the last carry comes back times 19 and ripples up to r2. */
  method FoldTop(q0: nat, q1: nat, q2: nat, carry: nat, ghost lost: nat)
    returns (r0: nat, r1: nat, r2: nat, ghost s: nat, ghost m: nat)
    requires q0 < TWO51 && q1 < TWO51 && q2 < TWO51 && carry < TWO64
    ensures r0 < TWO51 && r1 < TWO51 && r2 <= TWO51
    ensures s < TWO64 && q0 + 19 * (carry + TWO64 * lost) == s + TWO64 * m
    ensures r0 + TWO51 * r1 + TWO102 * r2 == s + TWO51 * q1 + TWO102 * q2
  {
    var c := carry;
    r0 := (q0 + c * 19 % TWO64) % TWO64;
    s, m := r0, (q0 + c * 19 % TWO64) / TWO64 + c * 19 / TWO64 + 19 * lost;
    c := r0 / TWO51; r0 := r0 % TWO51;
    r1 := Low64(q1 + c); c := r1 / TWO51; r1 := r1 % TWO51;
    r2 := Low64(q2 + c);
  }

  /** Lines 104-111 and 137-144: carry five 128-bit columns into five limbs. The
      limbs stand for the columns modulo P exactly when no carry was cut. */
  method Carry(c0: nat, c1: nat, c2: nat, c3: nat, c4: nat)
    returns (r0: nat, r1: nat, r2: nat, r3: nat, r4: nat)
    requires c0 < TWO120 && c1 < TWO120 && c2 < TWO120 && c3 < TWO120 && c4 < TWO120
    ensures r0 < TWO51 && r1 < TWO51 && r2 <= TWO51 && r3 < TWO51 && r4 < TWO51
    ensures NoLoss(c0, c1, c2, c3, c4) <==> Cong(Val(r0, r1, r2, r3, r4), Val(c0, c1, c2, c3, c4))
  {
    hide NoLoss, Carries, Cong;
    var q0, d0, k0 := Narrow(c0);
    var t1 := (c1 + d0) % TWO128; var q1, d1, k1 := Narrow(t1);
    var t2 := (c2 + d1) % TWO128; var q2, d2, k2 := Narrow(t2);
    var t3 := (c3 + d2) % TWO128; var q3, d3, k3 := Narrow(t3);
    var t4 := (c4 + d3) % TWO128; var q4, d4, k4 := Narrow(t4);
    ghost var s, m;
    r0, r1, r2, s, m := FoldTop(q0, q1, q2, d4, k4);
    r3, r4 := q3, q4;
    CarryValue(c0, c1, c2, c3, c4, q0, q1, q2, q3, q4, d0, d1, d2, d3, d4, k0, k1, k2, k3, k4, s, m);
    LossIffCarries(c0, c1, c2, c3, c4, q0, q1, q2, q3, q4, d0, d1, d2, d3, d4, k0, k1, k2, k3, k4, s, m);
    LossDecides(Val(r0, r1, r2, r3, r4), Val(c0, c1, c2, c3, c4), Val(m, k0, k1, k2, k3), d4 + TWO64 * k4);
  }

  const TWO120: nat := 0x1000000_00000000_00000000_00000000

  lemma LossDecides(out: int, exact: int, n: int, folded: int)
    requires 0 <= n < P && out + TWO64 * n + P * folded == exact
    ensures n == 0 <==> Cong(out, exact)
  {
    if Cong(out, exact) {
      assert TWO64 * n == P * (Gap(exact, out) - folded);
      CongBy(TWO64 * n, 0, Gap(exact, out) - folded);
      LossIsVisible(n);
    }
    if n == 0 {
      CongBy(exact, out, folded);
    }
  }

  // ----- multiplication and squaring -------------------------------------------

  const TWO60: nat := 0x10000000_00000000
  const TWO110: nat := 0x4000_00000000_00000000_00000000

  lemma ProdScaled(k: nat, a: nat, b: nat)
    ensures Prod(a * k, b) == k * Prod(a, b)
  {
  }

  lemma ProdBound(a: nat, b: nat)
    requires a <= TWO55 && b <= TWO55
    ensures Prod(a, b) <= TWO110
  {
    MulMono(a, TWO55, b, TWO55);
  }

  lemma MulMono(a: nat, m: nat, b: nat, n: nat)
    requires a <= m && b <= n
    ensures a * b <= m * n
  {
    assert a * b <= a * n <= m * n;
  }

  /** A value stored in a `uint128_t`. */
  function Low128(x: nat): nat {
    if x < TWO128 then x else x % TWO128
  }

  /** `(uint128_t) a * b`. */
  function Wide(a: nat, b: nat): (p: nat) {
    Low128(Prod(a, b))
  }

  /** The product columns of two limb vectors, folded modulo P. */
  function Columns(r: seq<nat>, s: seq<nat>): (nat, nat, nat, nat, nat)
    requires |r| == 5 && |s| == 5
  {
    (Prod(r[0], s[0]) + 19 * (Prod(r[4], s[1]) + Prod(r[1], s[4]) + Prod(r[2], s[3]) + Prod(r[3], s[2])),
     Prod(r[0], s[1]) + Prod(r[1], s[0]) + 19 * (Prod(r[4], s[2]) + Prod(r[2], s[4]) + Prod(r[3], s[3])),
     Prod(r[0], s[2]) + Prod(r[2], s[0]) + Prod(r[1], s[1]) + 19 * (Prod(r[4], s[3]) + Prod(r[3], s[4])),
     Prod(r[0], s[3]) + Prod(r[3], s[0]) + Prod(r[1], s[2]) + Prod(r[2], s[1]) + 19 * Prod(r[4], s[4]),
     Prod(r[0], s[4]) + Prod(r[4], s[0]) + Prod(r[3], s[1]) + Prod(r[1], s[3]) + Prod(r[2], s[2]))
  }

  /** No carry of the product is cut: decidable from the two inputs alone. */
  predicate Fits(r: seq<nat>, s: seq<nat>)
    requires |r| == 5 && |s| == 5
  {
    var (t0, t1, t2, t3, t4) := Columns(r, s);
    NoLoss(t0, t1, t2, t3, t4)
  }

  /** One row of products stays below 2^110. */
  lemma RowBounds(a: nat, s0: nat, s1: nat, s2: nat, s3: nat, s4: nat)
    requires a <= TWO55 && s0 <= TWO55 && s1 <= TWO55 && s2 <= TWO55 && s3 <= TWO55 && s4 <= TWO55
    ensures Prod(a, s0) <= TWO110 && Prod(a, s1) <= TWO110 && Prod(a, s2) <= TWO110 && Prod(a, s3) <= TWO110
    ensures Prod(a, s4) <= TWO110
  {
    hide Prod;
    ProdBound(a, s0); ProdBound(a, s1); ProdBound(a, s2); ProdBound(a, s3); ProdBound(a, s4);
  }

  /** A row entry times 19, as the code forms it: in the limb, before the product. */
  lemma Folded(a: nat, b: nat)
    requires a <= TWO55 && b <= TWO55
    ensures Wide(Low64(a * 19), b) == 19 * Prod(a, b) <= 19 * TWO110
  {
    ProdScaled(19, a, b);
    ProdBound(a, b);
    hide Prod;
  }

  /** The columns of r and s stand for the product of what r and s stand for. */
  lemma ColumnsCong(r: seq<nat>, s: seq<nat>)
    requires |r| == 5 && |s| == 5
    ensures var (t0, t1, t2, t3, t4) := Columns(r, s);
            Cong(Val(t0, t1, t2, t3, t4), V(r) * V(s))
  {
    ProductColumns(r[0], r[1], r[2], r[3], r[4], s[0], s[1], s[2], s[3], s[4]);
    var (t0, t1, t2, t3, t4) := Columns(r, s);
    CongBy(V(r) * V(s), Val(t0, t1, t2, t3, t4),
           Val(r[4] * s[1] + r[1] * s[4] + r[2] * s[3] + r[3] * s[2], r[4] * s[2] + r[2] * s[4] + r[3] * s[3],
               r[4] * s[3] + r[3] * s[4], r[4] * s[4], 0));
  }

  /** Lines 91-95: the low products of each column. */
  method LowColumns(r0: nat, r1: nat, r2: nat, r3: nat, r4: nat, s0: nat, s1: nat, s2: nat, s3: nat, s4: nat)
    returns (t0: nat, t1: nat, t2: nat, t3: nat, t4: nat)
    requires Within([r0, r1, r2, r3, r4], TWO55) && Within([s0, s1, s2, s3, s4], TWO55)
    ensures t0 == Prod(r0, s0) <= TWO110
    ensures t1 == Prod(r0, s1) + Prod(r1, s0) <= 2 * TWO110
    ensures t2 == Prod(r0, s2) + Prod(r2, s0) + Prod(r1, s1) <= 3 * TWO110
    ensures t3 == Prod(r0, s3) + Prod(r3, s0) + Prod(r1, s2) + Prod(r2, s1) <= 4 * TWO110
    ensures t4 == Prod(r0, s4) + Prod(r4, s0) + Prod(r3, s1) + Prod(r1, s3) + Prod(r2, s2) <= 5 * TWO110
  {
    hide Prod;
    RowBounds(r0, s0, s1, s2, s3, s4); RowBounds(r1, s0, s1, s2, s3, s4); RowBounds(r2, s0, s1, s2, s3, s4);
    RowBounds(r3, s0, s1, s2, s3, s4); RowBounds(r4, s0, s1, s2, s3, s4);
    t0 := Wide(r0, s0);
    t1 := Low128(Wide(r0, s1) + Wide(r1, s0));
    t2 := Low128(Wide(r0, s2) + Wide(r2, s0) + Wide(r1, s1));
    t3 := Low128(Wide(r0, s3) + Wide(r3, s0) + Wide(r1, s2) + Wide(r2, s1));
    t4 := Low128(Wide(r0, s4) + Wide(r4, s0) + Wide(r3, s1) + Wide(r1, s3) + Wide(r2, s2));
  }

  /** Lines 88-102: the five columns of the product, at 128 bits. */
  method MulColumns(in2: seq<nat>, in1: seq<nat>) returns (t0: nat, t1: nat, t2: nat, t3: nat, t4: nat)
    requires Within(in2, TWO55) && Within(in1, TWO55)
    ensures (t0, t1, t2, t3, t4) == Columns(in1, in2)
    ensures t0 < TWO120 && t1 < TWO120 && t2 < TWO120 && t3 < TWO120 && t4 < TWO120
  {
    hide Prod, Wide, Low64;
    var r0, r1, r2, r3, r4 := in1[0], in1[1], in1[2], in1[3], in1[4];
    var s0, s1, s2, s3, s4 := in2[0], in2[1], in2[2], in2[3], in2[4];
    t0, t1, t2, t3, t4 := LowColumns(r0, r1, r2, r3, r4, s0, s1, s2, s3, s4);

    Folded(r4, s1); Folded(r1, s4); Folded(r2, s3); Folded(r3, s2); Folded(r4, s2);
    Folded(r2, s4); Folded(r3, s3); Folded(r4, s3); Folded(r3, s4); Folded(r4, s4);
    r4, r1, r2, r3 := Low64(r4 * 19), Low64(r1 * 19), Low64(r2 * 19), Low64(r3 * 19);

    t0 := Low128(t0 + Wide(r4, s1) + Wide(r1, s4) + Wide(r2, s3) + Wide(r3, s2));
    t1 := Low128(t1 + Wide(r4, s2) + Wide(r2, s4) + Wide(r3, s3));
    t2 := Low128(t2 + Wide(r4, s3) + Wide(r3, s4));
    t3 := Low128(t3 + Wide(r4, s4));
  }

  lemma ProductResult(x: seq<nat>, y: seq<nat>, t0: nat, t1: nat, t2: nat, t3: nat, t4: nat, r: seq<nat>)
    requires |x| == 5 && |y| == 5 && |r| == 5 && (t0, t1, t2, t3, t4) == Columns(x, y)
    requires NoLoss(t0, t1, t2, t3, t4) <==> Cong(V(r), Val(t0, t1, t2, t3, t4))
    ensures Cong(V(r), V(y) * V(x)) <==> Fits(x, y)
  {
    ColumnsCong(x, y);
  }

  /** The bound under which the ladder works is enough for every column. */
  lemma LooseFits(r: seq<nat>, s: seq<nat>)
    requires Within(r, LOOSE) && Within(s, LOOSE)
    ensures Fits(r, s)
  {
    LooseRow(r[0], s); LooseRow(r[1], s); LooseRow(r[2], s); LooseRow(r[3], s); LooseRow(r[4], s);
    hide Prod;
    var (t0, t1, t2, t3, t4) := Columns(r, s);
    assert t0 <= 77 * LOOSE2 && t1 <= 59 * LOOSE2 && t2 <= 41 * LOOSE2 && t3 <= 23 * LOOSE2 && t4 <= 5 * LOOSE2;
    SmallColumnsFit(t0, t1, t2, t3, t4);
  }

  const LOOSE2: nat := LOOSE * LOOSE

  lemma LooseRow(a: nat, s: seq<nat>)
    requires a <= LOOSE && Within(s, LOOSE)
    ensures forall i :: 0 <= i < 5 ==> Prod(a, s[i]) <= LOOSE2
  {
    forall i | 0 <= i < 5 ensures Prod(a, s[i]) <= LOOSE2 { MulMono(a, LOOSE, s[i], LOOSE); }
  }

  lemma SmallColumnsFit(t0: nat, t1: nat, t2: nat, t3: nat, t4: nat)
    requires t0 <= 77 * LOOSE2 && t1 <= 59 * LOOSE2 && t2 <= 41 * LOOSE2 && t3 <= 23 * LOOSE2 && t4 <= 5 * LOOSE2
    ensures NoLoss(t0, t1, t2, t3, t4)
  {
  }

  /** output = in2 * in. Over the limbs the source's comment allows (below 2^55)
      the result is right exactly when no carry is cut. */
  method FMul(output: array<nat>, in2: array<nat>, in1: array<nat>)
    requires output.Length == 5 && in2.Length == 5 && in1.Length == 5
    requires Within(in2[..], TWO55) && Within(in1[..], TWO55)
    modifies output
    ensures Within(output[..], TWO51)
    ensures Cong(V(output[..]), old(V(in2[..])) * old(V(in1[..]))) <==> old(Fits(in1[..], in2[..]))
    ensures old(Within(in2[..], LOOSE)) && old(Within(in1[..], LOOSE)) ==>
              Fe(output[..]) == Mul(old(Fe(in2[..])), old(Fe(in1[..])))
  {
    hide Fits, Columns, NoLoss, Prod, Carries, Val, Cong;
    var t0, t1, t2, t3, t4 := MulColumns(in2[..], in1[..]);
    var r0, r1, r2, r3, r4 := Carry(t0, t1, t2, t3, t4);
    ProductResult(in1[..], in2[..], t0, t1, t2, t3, t4, [r0, r1, r2, r3, r4]);
    if Within(in2[..], LOOSE) && Within(in1[..], LOOSE) {
      LooseFits(in1[..], in2[..]);
      MulMod(V([r0, r1, r2, r3, r4]), V(in2[..]), V(in1[..]));
    }
    output[0], output[1], output[2], output[3], output[4] := r0, r1, r2, r3, r4;
    assert output[..] == [r0, r1, r2, r3, r4];
  }

  /** The comment above fmul admits limbs below 2^55. That is too much: with every
      limb at 2^55 - 1 the first carry is cut and the result is wrong. */
  lemma DocumentedBoundIsTooWide()
    ensures var s := seq(5, i => TWO55 - 1); Within(s, TWO55 - 1) && !Fits(s, s)
  {
    var s: seq<nat> := seq(5, i => TWO55 - 1);
    var (t0, _, _, _, _) := Columns(s, s);
    assert t0 == 77 * ((TWO55 - 1) * (TWO55 - 1));
  }

  // ----- squaring ------------------------------------------------------------------

  /** A limb scaled by a small constant before the product, as lines 125-135 do. */
  lemma Scaled(k: nat, a: nat, b: nat)
    requires k <= 38 && a <= TWO55 && b <= TWO55
    ensures Low64(a * k) == a * k && Wide(a * k, b) == k * Prod(a, b) <= k * TWO110
  {
    MulMono(a, TWO55, k, 38);
    ProdScaled(k, a, b);
    ProdBound(a, b);
    MulMono(k, 38, Prod(a, b), TWO110);
    MulMono(k, k, Prod(a, b), TWO110);
  }

  lemma ProdCommutes(a: nat, b: nat)
    ensures Prod(a, b) == Prod(b, a)
  {
  }

  /** Lines 125-135: the five columns of the square. */
  method SquareColumns(r0: nat, r1: nat, r2: nat, r3: nat, r4: nat)
    returns (t0: nat, t1: nat, t2: nat, t3: nat, t4: nat)
    requires Within([r0, r1, r2, r3, r4], TWO55)
    ensures (t0, t1, t2, t3, t4) == Columns([r0, r1, r2, r3, r4], [r0, r1, r2, r3, r4])
    ensures t0 < TWO120 && t1 < TWO120 && t2 < TWO120 && t3 < TWO120 && t4 < TWO120
  {
    hide Prod, Wide, Low64;
    var d0 := Low64(r0 * 2);
    var d1 := Low64(r1 * 2);
    var d2 := Low64(Low64(r2 * 2) * 19);
    var d419 := Low64(r4 * 19);
    var d4 := Low64(d419 * 2);
    Scaled(1, r0, r0); Scaled(38, r4, r1); Scaled(38, r2, r3);
    Scaled(2, r0, r1); Scaled(38, r4, r2); Scaled(19, r3, r3);
    Scaled(2, r0, r2); Scaled(1, r1, r1); Scaled(38, r4, r3);
    Scaled(2, r0, r3); Scaled(2, r1, r2); Scaled(19, r4, r4);
    Scaled(2, r0, r4); Scaled(2, r1, r3); Scaled(1, r2, r2); Scaled(2, r2, 0);
    t0 := Low128(Wide(r0, r0) + Wide(d4, r1) + Wide(d2, r3));
    t1 := Low128(Wide(d0, r1) + Wide(d4, r2) + Wide(r3, Low64(r3 * 19)));
    t2 := Low128(Wide(d0, r2) + Wide(r1, r1) + Wide(d4, r3));
    t3 := Low128(Wide(d0, r3) + Wide(d1, r2) + Wide(r4, d419));
    t4 := Low128(Wide(d0, r4) + Wide(d1, r3) + Wide(r2, r2));
    WideCommutes(r3, r3 * 19); WideCommutes(r4, r4 * 19);
    SymmetricColumns(r0, r1, r2, r3, r4);
  }

  lemma WideCommutes(a: nat, b: nat)
    ensures Wide(a, b) == Wide(b, a)
  {
  }

  lemma SymmetricColumns(r0: nat, r1: nat, r2: nat, r3: nat, r4: nat)
    ensures Columns([r0, r1, r2, r3, r4], [r0, r1, r2, r3, r4]) ==
      (Prod(r0, r0) + 38 * Prod(r4, r1) + 38 * Prod(r2, r3),
       2 * Prod(r0, r1) + 38 * Prod(r4, r2) + 19 * Prod(r3, r3),
       2 * Prod(r0, r2) + Prod(r1, r1) + 38 * Prod(r4, r3),
       2 * Prod(r0, r3) + 2 * Prod(r1, r2) + 19 * Prod(r4, r4),
       2 * Prod(r0, r4) + 2 * Prod(r1, r3) + Prod(r2, r2))
  {
    ProdCommutes(r0, r1); ProdCommutes(r0, r2); ProdCommutes(r0, r3); ProdCommutes(r0, r4); ProdCommutes(r1, r2);
    ProdCommutes(r1, r3); ProdCommutes(r1, r4); ProdCommutes(r2, r3); ProdCommutes(r2, r4); ProdCommutes(r3, r4);
    hide Prod;
  }

  /** The passes of the do-while loop, whose counter is a 64-bit word. */
  function Rounds(count: nat): nat {
    if count == 0 then TWO64 else count
  }

  lemma SquareStart(v: int)
    ensures Cong(v, Pow(v, Exp2(0)))
  {
    assert Pow(v, 1) == v * Pow(v, 0);
  }

  lemma SquareStep(v: int, before: int, done: nat, after: int)
    requires Cong(before, Pow(v, Exp2(done))) && Cong(after, before * before)
    ensures Cong(after, Pow(v, Exp2(done + 1)))
  {
    var p := Pow(v, Exp2(done));
    CongMul(before, p, before, p);
    PowAdd(v, Exp2(done), Exp2(done));
    assert Exp2(done + 1) == Exp2(done) + Exp2(done);
  }

  /** output = in ^ (2 ^ count). */
  method FSquareTimes(output: array<nat>, in1: array<nat>, count: nat)
    requires output.Length == 5 && in1.Length == 5 && count < TWO64
    requires Within(in1[..], LOOSE)
    modifies output
    ensures Within(output[..], TWO51)
    ensures Fe(output[..]) == Pow(old(Fe(in1[..])), Exp2(Rounds(count))) % P
  {
    hide Fits, Columns, NoLoss, Carries, Prod, Val, Cong, Pow, Exp2;
    var r0, r1, r2, r3, r4 := in1[0], in1[1], in1[2], in1[3], in1[4];
    ghost var v := V(in1[..]);
    assert in1[..] == [r0, r1, r2, r3, r4];
    SquareStart(v);
    var left := count;
    ghost var done := 0;
    while true
      invariant 0 <= done < Rounds(count)
      invariant left == if count == 0 && done == 0 then 0 else Rounds(count) - done
      invariant Within([r0, r1, r2, r3, r4], LOOSE)
      invariant Cong(V([r0, r1, r2, r3, r4]), Pow(v, Exp2(done)))
      decreases Rounds(count) - done
    {
      ghost var before := [r0, r1, r2, r3, r4];
      var t0, t1, t2, t3, t4 := SquareColumns(r0, r1, r2, r3, r4);
      r0, r1, r2, r3, r4 := Carry(t0, t1, t2, t3, t4);
      LooseFits(before, before);
      ProductResult(before, before, t0, t1, t2, t3, t4, [r0, r1, r2, r3, r4]);
      SquareStep(v, V(before), done, V([r0, r1, r2, r3, r4]));
      done := done + 1;
      left := (left - 1) % TWO64;
      if left == 0 { break; }
    }
    PowMod(V([r0, r1, r2, r3, r4]), v, Exp2(Rounds(count)));
    output[0], output[1], output[2], output[3], output[4] := r0, r1, r2, r3, r4;
    assert output[..] == [r0, r1, r2, r3, r4];
  }

  // ----- sums, differences, scaling ---------------------------------------------------

  /** output += in: limbs wrap at 64 bits, so the sum is exact below that. */
  method FSum(output: array<nat>, in1: array<nat>)
    requires output.Length == 5 && in1.Length == 5
    requires Within(output[..], TWO60) && Within(in1[..], TWO60)
    modifies output
    ensures forall i :: 0 <= i < 5 ==> output[i] == old(output[i]) + old(in1[i])
    ensures Fe(output[..]) == Add(old(Fe(output[..])), old(Fe(in1[..])))
  {
    hide Fe, Add;
    ghost var was, more := output[..], in1[..];
    output[0] := Low64(output[0] + in1[0]);
    output[1] := Low64(output[1] + in1[1]);
    output[2] := Low64(output[2] + in1[2]);
    output[3] := Low64(output[3] + in1[3]);
    output[4] := Low64(output[4] + in1[4]);
    SumFe(output[..], was, more);
  }

  lemma SumFe(out: seq<nat>, a: seq<nat>, b: seq<nat>)
    requires |out| == 5 && |a| == 5 && |b| == 5
    requires forall i :: 0 <= i < 5 ==> out[i] == a[i] + b[i]
    ensures Fe(out) == Add(Fe(a), Fe(b))
  {
    AddMod(V(a), V(b));
  }

  const TWO52: nat := 0x10_0000_0000_0000

  /** One limb of the difference. */
  function Minus(x: nat, y: nat, k: nat): (r: nat)
    requires x <= TWO60 && y <= TWO52 && TWO54 - 152 <= k <= TWO54
    ensures r == x + k - y
  {
    (x + k - y) % TWO64
  }

  /** out = in - out, kept positive by adding eight times P limb by limb. */
  method FDifferenceBackwards(out: array<nat>, in1: array<nat>)
    requires out.Length == 5 && in1.Length == 5 && out != in1
    requires Within(out[..], TWO52) && Within(in1[..], TWO60)
    modifies out
    ensures forall i :: 0 <= i < 5 ==> out[i] <= old(in1[i]) + TWO54
    ensures Fe(out[..]) == Sub(old(Fe(in1[..])), old(Fe(out[..])))
  {
    AddMod(V(in1[..]), V(out[..]));
    hide Cong, Minus, Sub, Fe;
    ghost var was := V(out[..]);
    out[0] := Minus(in1[0], out[0], TWO54 - 152);
    out[1] := Minus(in1[1], out[1], TWO54 - 8);
    out[2] := Minus(in1[2], out[2], TWO54 - 8);
    out[3] := Minus(in1[3], out[3], TWO54 - 8);
    out[4] := Minus(in1[4], out[4], TWO54 - 8);
    DiffFe(out[..], V(in1[..]) - was);
  }

  lemma DiffFe(out: seq<nat>, d: int)
    requires |out| == 5 && V(out) == d + 8 * P
    ensures Fe(out) == d % P
  {
    CongBy(V(out), d, 8);
  }

  lemma ScaledValue(a: seq<nat>, k: nat)
    requires |a| == 5
    ensures Val(Prod(a[0], k), Prod(a[1], k), Prod(a[2], k), Prod(a[3], k), Prod(a[4], k)) == V(a) * k
  {
  }

  lemma ScalarRow(a: nat, k: nat)
    requires a <= LOOSE && k < TWO51
    ensures Prod(a, k) <= TWO51 * (9 * k) < TWO120
  {
    MulMono(a, LOOSE, k, k);
  }

  /** One row of fscalar_product: a product plus the carry narrowed to a limb. */
  method ScalarStep(a: nat, k: nat, carry: nat) returns (r: nat, c: nat)
    requires a <= LOOSE && k < TWO51 && carry <= 9 * k + 9
    ensures r < TWO51 && c <= 9 * k + 9
    ensures Prod(a, k) + carry == r + TWO51 * c
  {
    ScalarRow(a, k);
    hide Prod;
    var t := Low128(Wide(a, k) + carry);
    r := t % TWO64 % TWO51;
    c := t / TWO51;
    LowLimb(t);
  }

  /** output = in * scalar, with the top carry folded back times 19. */
  method FScalarProduct(output: array<nat>, in1: array<nat>, scalar: nat)
    requires output.Length == 5 && in1.Length == 5 && output != in1
    requires Within(in1[..], LOOSE) && scalar < TWO51
    modifies output
    ensures Within(output[..], TWO51 + 19 * (9 * scalar + 9))
    ensures Fe(output[..]) == Mul(Fe(in1[..]), scalar)
  {
    hide Prod, Cong, Val, Fe, Mul;
    var r0, c0 := ScalarStep(in1[0], scalar, 0);
    output[0] := r0;
    var r1, c1 := ScalarStep(in1[1], scalar, Low64(c0));
    output[1] := r1;
    var r2, c2 := ScalarStep(in1[2], scalar, Low64(c1));
    output[2] := r2;
    var r3, c3 := ScalarStep(in1[3], scalar, Low64(c2));
    output[3] := r3;
    var r4, c4 := ScalarStep(in1[4], scalar, Low64(c3));
    output[4] := r4;
    output[0] := Low64(output[0] + Low128(c4 * 19));
    assert output[..] == [r0 + 19 * c4, r1, r2, r3, r4];
    ScalarFe(in1[..], scalar, r0, r1, r2, r3, r4, c0, c1, c2, c3, c4);
  }

  lemma ScalarGap(p0: nat, p1: nat, p2: nat, p3: nat, p4: nat, r0: nat, r1: nat, r2: nat, r3: nat, r4: nat,
                  c0: nat, c1: nat, c2: nat, c3: nat, c4: nat)
    requires p0 == r0 + TWO51 * c0 && p1 + c0 == r1 + TWO51 * c1 && p2 + c1 == r2 + TWO51 * c2
    requires p3 + c2 == r3 + TWO51 * c3 && p4 + c3 == r4 + TWO51 * c4
    ensures Cong(Val(r0 + 19 * c4, r1, r2, r3, r4), Val(p0, p1, p2, p3, p4))
  {
    CongBy(Val(p0, p1, p2, p3, p4), Val(r0 + 19 * c4, r1, r2, r3, r4), c4);
  }

  lemma ScalarFe(a: seq<nat>, k: nat, r0: nat, r1: nat, r2: nat, r3: nat, r4: nat,
                 c0: nat, c1: nat, c2: nat, c3: nat, c4: nat)
    requires |a| == 5 && k < TWO51
    requires Prod(a[0], k) == r0 + TWO51 * c0 && Prod(a[1], k) + c0 == r1 + TWO51 * c1
    requires Prod(a[2], k) + c1 == r2 + TWO51 * c2 && Prod(a[3], k) + c2 == r3 + TWO51 * c3
    requires Prod(a[4], k) + c3 == r4 + TWO51 * c4
    ensures Fe([r0 + 19 * c4, r1, r2, r3, r4]) == Mul(Fe(a), k)
  {
    hide Prod, Val, Cong;
    ScaledValue(a, k);
    ScalarGap(Prod(a[0], k), Prod(a[1], k), Prod(a[2], k), Prod(a[3], k), Prod(a[4], k),
              r0, r1, r2, r3, r4, c0, c1, c2, c3, c4);
    assert k % P == k;
    MulMod(V([r0 + 19 * c4, r1, r2, r3, r4]), V(a), k);
  }
}
