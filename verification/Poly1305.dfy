/** The Poly1305 authenticator (kernel/crypto/poly1305.c): 26-bit limbs, 32- and
    64-bit words, one delayed carry, against section 2.5.1 of RFC 8439. */
module Poly1305 {
  import opened Words

  const TWO26: nat := 0x400_0000
  const TWO52: nat := 0x10_0000_0000_0000
  const TWO78: nat := 0x4000_00000000_00000000
  const TWO104: nat := 0x100_00000000_00000000_00000000
  const TWO128P: nat := 0x1_00000000_00000000_00000000_00000000
  const TWO130: nat := 0x4_00000000_00000000_00000000_00000000

  /** The prime 2^130 - 5. */
  const Q: nat := TWO130 - 5

  // ----- the reference ---------------------------------------------------------------

  /** The RFC's clamp mask for r. */
  const R_MASK: nat := 0x0ffffffc_0ffffffc_0ffffffc_0fffffff

  function ClampR(key: seq<Byte>): nat
    requires |key| == 32
  {
    And(LE(key[..16]), R_MASK)
  }

  /** A block with its terminating 1 byte, as a number. */
  function Block(b: seq<Byte>): nat {
    LE(b + [1])
  }

  /** The accumulator after the blocks of m, starting from a. */
  function Accumulate(a: nat, r: nat, m: seq<Byte>): nat
    decreases |m|
  {
    if m == [] then a
    else if |m| < 16 then (a + Block(m)) * r % Q
    else Accumulate((a + Block(m[..16])) * r % Q, r, m[16..])
  }

  /** The tag of section 2.5.1 of RFC 8439, as a number below 2^128. */
  function Tag(m: seq<Byte>, key: seq<Byte>): nat
    requires |key| == 32
  {
    (Accumulate(0, ClampR(key), m) + LE(key[16..])) % TWO128P
  }

  // ----- limbs ------------------------------------------------------------------------

  function Val(h0: int, h1: int, h2: int, h3: int, h4: int): int {
    h0 + TWO26 * h1 + TWO52 * h2 + TWO78 * h3 + TWO104 * h4
  }

  function Low32(x: nat): nat {
    if x < TWO32 then x else x % TWO32
  }

  /** The bounds of the clamped multiplier's limbs. */
  predicate Multiplier(r0: nat, r1: nat, r2: nat, r3: nat, r4: nat) {
    r0 <= 0x3ffffff && r1 <= 0x3ffff03 && r2 <= 0x3ffc0ff && r3 <= 0x3f03fff && r4 <= 0x00fffff
  }

  /** A bound on the h0 that the delayed carry leaves: above 2^31, below 2^32. */
  const H0_MAX: nat := 2_800_000_000

  /** Between blocks: h1 to h4 are carried, h0 is not. */
  predicate Carried(h0: nat, h1: nat, h2: nat, h3: nat, h4: nat) {
    h0 <= H0_MAX && h1 < TWO26 && h2 < TWO26 && h3 < TWO26 && h4 < TWO26
  }

  /** After adding a block. */
  predicate Added(h0: nat, h1: nat, h2: nat, h3: nat, h4: nat) {
    h0 < H0_MAX + TWO26 && h1 < 2 * TWO26 && h2 < 2 * TWO26 && h3 < 2 * TWO26 && h4 < TWO26 + 0x200_0000
  }

  /** The five columns of h * r, with what passes 2^130 folded in times 5. */
  lemma ProductColumns(h0: int, h1: int, h2: int, h3: int, h4: int, r0: int, r1: int, r2: int, r3: int, r4: int)
    ensures Val(h0, h1, h2, h3, h4) * Val(r0, r1, r2, r3, r4)
         == Val(h0 * r0 + h1 * (5 * r4) + h2 * (5 * r3) + h3 * (5 * r2) + h4 * (5 * r1),
                h0 * r1 + h1 * r0 + h2 * (5 * r4) + h3 * (5 * r3) + h4 * (5 * r2),
                h0 * r2 + h1 * r1 + h2 * r0 + h3 * (5 * r4) + h4 * (5 * r3),
                h0 * r3 + h1 * r2 + h2 * r1 + h3 * r0 + h4 * (5 * r4),
                h0 * r4 + h1 * r3 + h2 * r2 + h3 * r1 + h4 * r0)
          + Q * Val(h1 * r4 + h2 * r3 + h3 * r2 + h4 * r1, h2 * r4 + h3 * r3 + h4 * r2, h3 * r4 + h4 * r3, h4 * r4, 0)
  {
  }

  lemma MulMono(a: nat, m: nat, b: nat, n: nat)
    requires a <= m && b <= n
    ensures Prod(a, b) <= m * n
  {
    assert a * b <= a * n <= m * n;
  }

  // ----- one multiplication ------------------------------------------------------------

  predicate ColumnBounds(t0: nat, t1: nat, t2: nat, t3: nat, t4: nat) {
    && t0 <= 316257447085564929 && t1 <= 280230761025622029 && t2 <= 244337703338271753
    && t3 <= 216996172808283141 && t4 <= 36642638159111169
  }

  function Columns(h0: nat, h1: nat, h2: nat, h3: nat, h4: nat, r0: nat, r1: nat, r2: nat, r3: nat, r4: nat):
    (nat, nat, nat, nat, nat)
  {
    (Prod(h0, r0) + Prod(h1, 5 * r4) + Prod(h2, 5 * r3) + Prod(h3, 5 * r2) + Prod(h4, 5 * r1),
     Prod(h0, r1) + Prod(h1, r0) + Prod(h2, 5 * r4) + Prod(h3, 5 * r3) + Prod(h4, 5 * r2),
     Prod(h0, r2) + Prod(h1, r1) + Prod(h2, r0) + Prod(h3, 5 * r4) + Prod(h4, 5 * r3),
     Prod(h0, r3) + Prod(h1, r2) + Prod(h2, r1) + Prod(h3, r0) + Prod(h4, 5 * r4),
     Prod(h0, r4) + Prod(h1, r3) + Prod(h2, r2) + Prod(h3, r1) + Prod(h4, r0))
  }

  lemma ColumnsBounded(h0: nat, h1: nat, h2: nat, h3: nat, h4: nat, r0: nat, r1: nat, r2: nat, r3: nat, r4: nat)
    requires Added(h0, h1, h2, h3, h4) && Multiplier(r0, r1, r2, r3, r4)
    ensures var (t0, t1, t2, t3, t4) := Columns(h0, h1, h2, h3, h4, r0, r1, r2, r3, r4);
            ColumnBounds(t0, t1, t2, t3, t4)
  {
    var m0, m, m4 := H0_MAX + TWO26 - 1, 2 * TWO26 - 1, TWO26 + 0x1ff_ffff;
    RowBounds(h0, m0, r0, r1, r2, r3, r4);
    RowBounds(h1, m, r0, r1, r2, r3, r4);
    RowBounds(h2, m, r0, r1, r2, r3, r4);
    RowBounds(h3, m, r0, r1, r2, r3, r4);
    RowBounds(h4, m4, r0, r1, r2, r3, r4);
    hide Prod;
  }

  lemma RowBounds(h: nat, m: nat, r0: nat, r1: nat, r2: nat, r3: nat, r4: nat)
    requires h <= m && Multiplier(r0, r1, r2, r3, r4)
    ensures Prod(h, r0) <= m * 0x3ffffff && Prod(h, r1) <= m * 0x3ffff03 && Prod(h, r2) <= m * 0x3ffc0ff
    ensures Prod(h, r3) <= m * 0x3f03fff && Prod(h, r4) <= m * 0xfffff
    ensures Prod(h, 5 * r1) <= m * (5 * 0x3ffff03) && Prod(h, 5 * r2) <= m * (5 * 0x3ffc0ff)
    ensures Prod(h, 5 * r3) <= m * (5 * 0x3f03fff) && Prod(h, 5 * r4) <= m * (5 * 0xfffff)
  {
    hide Prod;
    MulMono(h, m, r0, 0x3ffffff); MulMono(h, m, r1, 0x3ffff03); MulMono(h, m, r2, 0x3ffc0ff);
    MulMono(h, m, r3, 0x3f03fff); MulMono(h, m, r4, 0xfffff);
    MulMono(h, m, 5 * r1, 5 * 0x3ffff03); MulMono(h, m, 5 * r2, 5 * 0x3ffc0ff);
    MulMono(h, m, 5 * r3, 5 * 0x3f03fff); MulMono(h, m, 5 * r4, 5 * 0xfffff);
  }

  /** `(uint32_t)t & 0x3ffffff`, and the rest of t. */
  lemma LowLimb(t: nat)
    ensures t % TWO32 % TWO26 == t % TWO26
    ensures t == t % TWO26 + TWO26 * (t / TWO26)
  {
    ModUnique(t, TWO26, 64 * (t / TWO32) + t % TWO32 / TWO26, t % TWO32 % TWO26);
  }

  /** Lines 87-92: carry the columns; only c, the first carry, is kept at 64 bits. */
  method CarryChain(c0: nat, c1: nat, c2: nat, c3: nat, c4: nat)
    returns (h0: nat, h1: nat, h2: nat, h3: nat, h4: nat, ghost top: nat)
    requires ColumnBounds(c0, c1, c2, c3, c4)
    ensures Carried(h0, h1, h2, h3, h4)
    ensures Val(c0, c1, c2, c3, c4) == Val(h0, h1, h2, h3, h4) + Q * top
  {
    LowLimb(c0);
    h0 := c0 % TWO32 % TWO26; var c := c0 / TWO26;
    var t1 := Low64(c1 + c); LowLimb(t1);
    h1 := t1 % TWO32 % TWO26; var b := Low32(t1 / TWO26);
    var t2 := Low64(c2 + b); LowLimb(t2);
    h2 := t2 % TWO32 % TWO26; b := Low32(t2 / TWO26);
    var t3 := Low64(c3 + b); LowLimb(t3);
    h3 := t3 % TWO32 % TWO26; b := Low32(t3 / TWO26);
    var t4 := Low64(c4 + b); LowLimb(t4);
    h4 := t4 % TWO32 % TWO26; b := Low32(t4 / TWO26);
    top := b;
    h0 := Low32(h0 + Low32(b * 5));
  }

  /** Lines 81-92: h := h * r modulo Q, h0 left with its carry. */
  method Multiply(g0: nat, g1: nat, g2: nat, g3: nat, g4: nat, r0: nat, r1: nat, r2: nat, r3: nat, r4: nat,
                  s1: nat, s2: nat, s3: nat, s4: nat)
    returns (h0: nat, h1: nat, h2: nat, h3: nat, h4: nat)
    requires Added(g0, g1, g2, g3, g4) && Multiplier(r0, r1, r2, r3, r4)
    requires s1 == 5 * r1 && s2 == 5 * r2 && s3 == 5 * r3 && s4 == 5 * r4
    ensures Carried(h0, h1, h2, h3, h4)
    ensures Val(h0, h1, h2, h3, h4) % Q == Val(g0, g1, g2, g3, g4) * Val(r0, r1, r2, r3, r4) % Q
  {
    hide Val, Carried, Prod;
    ColumnsBounded(g0, g1, g2, g3, g4, r0, r1, r2, r3, r4);
    var t0 := Low64(Prod(g0, r0) + Prod(g1, s4) + Prod(g2, s3) + Prod(g3, s2) + Prod(g4, s1));
    var t1 := Low64(Prod(g0, r1) + Prod(g1, r0) + Prod(g2, s4) + Prod(g3, s3) + Prod(g4, s2));
    var t2 := Low64(Prod(g0, r2) + Prod(g1, r1) + Prod(g2, r0) + Prod(g3, s4) + Prod(g4, s3));
    var t3 := Low64(Prod(g0, r3) + Prod(g1, r2) + Prod(g2, r1) + Prod(g3, r0) + Prod(g4, s4));
    var t4 := Low64(Prod(g0, r4) + Prod(g1, r3) + Prod(g2, r2) + Prod(g3, r1) + Prod(g4, r0));
    ghost var top;
    h0, h1, h2, h3, h4, top := CarryChain(t0, t1, t2, t3, t4);
    ColumnsValue(g0, g1, g2, g3, g4, r0, r1, r2, r3, r4, Val(h0, h1, h2, h3, h4), top);
  }

  /** What the folded columns leave out, as a multiple of Q. */
  function Fold(g1: nat, g2: nat, g3: nat, g4: nat, r1: nat, r2: nat, r3: nat, r4: nat): int {
    Val(g1 * r4 + g2 * r3 + g3 * r2 + g4 * r1, g2 * r4 + g3 * r3 + g4 * r2, g3 * r4 + g4 * r3, g4 * r4, 0)
  }

  lemma ColumnsProduct(g0: nat, g1: nat, g2: nat, g3: nat, g4: nat, r0: nat, r1: nat, r2: nat, r3: nat, r4: nat)
    ensures var (t0, t1, t2, t3, t4) := Columns(g0, g1, g2, g3, g4, r0, r1, r2, r3, r4);
            Val(g0, g1, g2, g3, g4) * Val(r0, r1, r2, r3, r4)
            == Val(t0, t1, t2, t3, t4) + Q * Fold(g1, g2, g3, g4, r1, r2, r3, r4)
  {
    ProductColumns(g0, g1, g2, g3, g4, r0, r1, r2, r3, r4);
    hide Val;
  }

  lemma ColumnsValue(g0: nat, g1: nat, g2: nat, g3: nat, g4: nat, r0: nat, r1: nat, r2: nat, r3: nat, r4: nat,
                     h: int, top: nat)
    requires var (t0, t1, t2, t3, t4) := Columns(g0, g1, g2, g3, g4, r0, r1, r2, r3, r4);
             Val(t0, t1, t2, t3, t4) == h + Q * top
    ensures h % Q == Val(g0, g1, g2, g3, g4) * Val(r0, r1, r2, r3, r4) % Q
  {
    hide Val, Prod, Fold, Columns;
    ColumnsProduct(g0, g1, g2, g3, g4, r0, r1, r2, r3, r4);
    var v := Val(g0, g1, g2, g3, g4) * Val(r0, r1, r2, r3, r4);
    SameRemainder(v, h, top + Fold(g1, g2, g3, g4, r1, r2, r3, r4));
  }

  lemma SameRemainder(a: int, b: int, k: int)
    requires a == b + Q * k
    ensures a % Q == b % Q
  {
  }

  // ----- loading ---------------------------------------------------------------------------

  /** U8TO32_LE. */
  function Load32(b: seq<Byte>): nat
    requires |b| == 4
  {
    Or(Or(Or(b[0], Shl(b[1], TWO8)), Shl(b[2], TWO16)), Shl(b[3], 0x100_0000))
  }

  lemma Load32IsLE(b: seq<Byte>)
    requires |b| == 4
    ensures Load32(b) == LE(b) < TWO32
  {
    hide Or, Exp2, LE;
    Exp2Words();
    OneByte(b[0]);
    assert b[..1] == [b[0]];
    OrAppend(b[0], b[..1], b[1]); assert b[..1] + [b[1]] == b[..2];
    OrAppend(LE(b[..2]), b[..2], b[2]); assert b[..2] + [b[2]] == b[..3];
    OrAppend(LE(b[..3]), b[..3], b[3]); assert b[..3] + [b[3]] == b;
    LEBound(b);
  }

  /** Sixteen bytes as four little-endian words. */
  lemma FourWords(b: seq<Byte>)
    requires |b| == 16
    ensures LE(b) == Load32(b[..4]) + TWO32 * (Load32(b[4..8]) + TWO32 * (Load32(b[8..12]) + TWO32 * Load32(b[12..])))
    ensures Load32(b[..4]) < TWO32 && Load32(b[4..8]) < TWO32 && Load32(b[8..12]) < TWO32 && Load32(b[12..]) < TWO32
  {
    hide LE, Load32, Exp2;
    Load32IsLE(b[..4]); Load32IsLE(b[4..8]); Load32IsLE(b[8..12]); Load32IsLE(b[12..]);
    assert b == b[..4] + (b[4..8] + (b[8..12] + b[12..]));
    Quads(b[..4], b[4..8], b[8..12], b[12..]);
  }

  /** The 26-bit digits of a 128-bit number held in four words, as lines 74-78 cut them. */
  lemma Digits(t0: nat, t1: nat, t2: nat, t3: nat)
    requires t0 < TWO32 && t1 < TWO32 && t2 < TWO32 && t3 < TWO32
    ensures Val(t0 % TWO26, (t1 * TWO32 + t0) / TWO26 % TWO26, (t2 * TWO32 + t1) / 0x10_0000 % TWO26,
                (t3 * TWO32 + t2) / 0x4000 % TWO26, t3 / 0x100)
         == t0 + TWO32 * (t1 + TWO32 * (t2 + TWO32 * t3))
  {
    Digit(t0, t1, 0x40, 0x10_0000);
    Digit(t1, t2, 0x1000, 0x4000);
    Digit(t2, t3, 0x4_0000, 0x100);
  }

  /** A digit that takes the bits of lo from 64c up and the bits of hi below c. */
  lemma Digit(lo: nat, hi: nat, b: nat, c: nat)
    requires lo < TWO32 && c > 0 && b * c == TWO26
    ensures (hi * TWO32 + lo) / (64 * c) % TWO26 == lo / (64 * c) + b * (hi % c)
  {
    var a := 64 * c;
    var q := lo / a;
    QuotientBelow(lo, a, b);
    AboveDigit(lo, hi, a, b);
    LowDigit(hi, q, b, c);
  }

  lemma AboveDigit(lo: nat, hi: nat, a: nat, b: nat)
    requires a > 0 && a * b == TWO32
    ensures (hi * TWO32 + lo) / a == b * hi + lo / a
  {
    var q, r := lo / a, lo % a;
    MulAssociates(a, b, hi);
    Distribute(a, b * hi, q);
    ModUnique(hi * TWO32 + lo, a, b * hi + q, r);
  }

  lemma QuotientBelow(lo: nat, a: nat, b: nat)
    requires a > 0 && lo < TWO32 && a * b == TWO32
    ensures lo / a < b
  {
    if lo / a >= b { MulMonotone(a, b, lo / a); }
  }

  lemma LowDigit(hi: nat, q: nat, b: nat, c: nat)
    requires c > 0 && b * c == TWO26 && q < b
    ensures (b * hi + q) % TWO26 == q + b * (hi % c)
  {
    var k, m := hi / c, hi % c;
    Distribute(b, c * k, m); MulAssociates(b, c, k);
    MulMonotone(b, m + 1, c); Distribute(b, m, 1);
    ModUnique(b * hi + q, TWO26, k, q + b * m);
  }

  /** Lines 69-78 and 105-114: add a block of sixteen bytes; hibit is 2^24 or 0. */
  method AddBlock(g0: nat, g1: nat, g2: nat, g3: nat, g4: nat, b: seq<Byte>, hibit: nat)
    returns (h0: nat, h1: nat, h2: nat, h3: nat, h4: nat)
    requires |b| == 16 && Carried(g0, g1, g2, g3, g4) && (hibit == 0 || hibit == 0x100_0000)
    ensures Added(h0, h1, h2, h3, h4)
    ensures Val(h0, h1, h2, h3, h4) == Val(g0, g1, g2, g3, g4) + LE(b) + TWO104 * hibit
  {
    hide LE, Load32, Or, Exp2, Val;
    var t0, t1, t2, t3 := Load32(b[..4]), Load32(b[4..8]), Load32(b[8..12]), Load32(b[12..]);
    FourWords(b);
    Digits(t0, t1, t2, t3);
    OrHibit(t3 / 0x100, hibit);
    OrPair(t0, t1); OrPair(t1, t2); OrPair(t2, t3);
    var d1 := Or(Shl(t1, TWO32), t0) / TWO26 % TWO26;
    var d2 := Or(Shl(t2, TWO32), t1) / 0x10_0000 % TWO26;
    var d3 := Or(Shl(t3, TWO32), t2) / 0x4000 % TWO26;
    var d4 := Or(t3 / 0x100, hibit);
    h0 := Low32(g0 + t0 % TWO26);
    h1 := Low32(g1 + d1);
    h2 := Low32(g2 + d2);
    h3 := Low32(g3 + d3);
    h4 := Low32(g4 + d4);
    AddLimbs(g0, g1, g2, g3, g4, t0 % TWO26, d1, d2, d3, t3 / 0x100, hibit);
  }

  lemma AddLimbs(g0: nat, g1: nat, g2: nat, g3: nat, g4: nat, d0: nat, d1: nat, d2: nat, d3: nat, d4: nat, top: nat)
    ensures Val(g0 + d0, g1 + d1, g2 + d2, g3 + d3, g4 + (d4 + top))
         == Val(g0, g1, g2, g3, g4) + Val(d0, d1, d2, d3, d4) + TWO104 * top
  {
  }

  lemma OrHibit(x: nat, hibit: nat)
    requires x < 0x100_0000 && (hibit == 0 || hibit == 0x100_0000)
    ensures Or(x, hibit) == x + hibit
  {
    hide Exp2;
    Exp2Words();
    OrDisjoint(x, hibit / 0x100_0000, 24);
  }

  lemma OrPair(lo: nat, hi: nat)
    requires lo < TWO32
    ensures Or(Shl(hi, TWO32), lo) == hi * TWO32 + lo
  {
    hide Exp2, Or;
    Exp2Words();
    OrDisjoint(lo, hi, 32);
    OrCommutes(lo, Shl(hi, TWO32));
  }

  // ----- the multiplier ---------------------------------------------------------------------

  /** Lines 43-53: the limbs of the clamped key. */
  method KeyLimbs(key: seq<Byte>) returns (r0: nat, r1: nat, r2: nat, r3: nat, r4: nat)
    requires |key| == 32
    ensures Multiplier(r0, r1, r2, r3, r4)
    ensures Val(r0, r1, r2, r3, r4) == ClampR(key)
  {
    hide LE, Load32, Or, And, Exp2;
    var k := key[..16];
    assert key[..4] == k[..4] && key[4..8] == k[4..8] && key[8..12] == k[8..12] && key[12..16] == k[12..];
    FourWords(k);
    var t0, t1, t2, t3 := Load32(key[..4]), Load32(key[4..8]), Load32(key[8..12]), Load32(key[12..16]);
    ghost var w0, w1, w2, w3 := t0, t1, t2, t3;
    r0 := And(t0, 0x3ffffff); t0 := Or(t0 / TWO26, Low32(Shl(t1, 0x40)));
    r1 := And(t0, 0x3ffff03); t1 := Or(t1 / 0x10_0000, Low32(Shl(t2, 0x1000)));
    r2 := And(t1, 0x3ffc0ff); t2 := Or(t2 / 0x4000, Low32(Shl(t3, 0x4_0000)));
    r3 := And(t2, 0x3f03fff); t3 := t3 / 0x100;
    r4 := And(t3, 0x00fffff);
    Exp2TwentySix();
    AndBound(w0, 0x3ffffff); AndBound(t0, 0x3ffff03); AndBound(t1, 0x3ffc0ff); AndBound(t2, 0x3f03fff);
    AndBound(t3, 0x00fffff);
    KeyDigit(w0, w1, 0x40, 0x10_0000, 6, 0x3ffff03);
    KeyDigit(w1, w2, 0x1000, 0x4000, 12, 0x3ffc0ff);
    KeyDigit(w2, w3, 0x4_0000, 0x100, 18, 0x3f03fff);
    LowMask(w0, 0x3ffffff);
    Digits(w0, w1, w2, w3);
    ClampDigits(w0 % TWO26, (w1 * TWO32 + w0) / TWO26 % TWO26, (w2 * TWO32 + w1) / 0x10_0000 % TWO26,
                (w3 * TWO32 + w2) / 0x4000 % TWO26, w3 / 0x100);
  }

  /** Only the low 26 bits meet a 26-bit mask. */
  lemma LowMask(x: nat, mask: nat)
    requires mask < TWO26
    ensures And(x, mask) == And(x % TWO26, mask)
  {
    hide And, Exp2;
    Exp2TwentySix();
    AndSplit(x, x / TWO26, x % TWO26, mask, 0, mask, 26);
    AndZero(x / TWO26);
  }

  lemma AndZero(x: nat)
    ensures And(x, 0) == 0
  {
  }

  lemma Exp2TwentySix()
    ensures Exp2(26) == TWO26 && Exp2(6) == 0x40 && Exp2(12) == 0x1000 && Exp2(18) == 0x4_0000
  {
    hide Exp2;
    Exp2Small(); Exp2Words();
    Exp2Add(24, 2); Exp2Add(4, 2); Exp2Add(8, 4); Exp2Add(16, 2);
  }

  /** The 32-bit word the key schedule builds agrees with the digit under the mask. */
  lemma KeyDigit(lo: nat, hi: nat, b: nat, c: nat, k: nat, mask: nat)
    requires lo < TWO32 && hi < TWO32 && c > 0 && b * c == TWO26 && mask < TWO26 && b == Exp2(k)
    ensures And(Or(lo / (64 * c), Low32(Shl(hi, b))), mask) == And((hi * TWO32 + lo) / (64 * c) % TWO26, mask)
  {
    hide And, Or, Exp2, Low32, Shl;
    var a := 64 * c;
    var q := lo / a;
    QuotientBelow(lo, a, b);
    var kept := hi % a;
    ShiftedWord(hi, a, b);
    OrDisjoint(q, kept, k);
    LowMask(q + b * kept, mask);
    LowDigit(kept, q, b, c);
    KeptLow(hi, c);
    Digit(lo, hi, b, c);
  }

  /** A left shift in a 32-bit word drops the bits from a up. */
  lemma ShiftedWord(hi: nat, a: nat, b: nat)
    requires a > 0 && a * b == TWO32
    ensures Low32(Shl(hi, b)) == hi % a * b
  {
    var q, kept := hi / a, hi % a;
    Distribute(b, a * q, kept); MulAssociates(b, a, q);
    MulMonotone(b, kept + 1, a); Distribute(b, kept, 1);
    ModUnique(hi * b, TWO32, q, kept * b);
  }

  lemma KeptLow(hi: nat, c: nat)
    requires c > 0
    ensures hi % (64 * c) % c == hi % c
  {
    var a := 64 * c;
    var q, r := hi / a, hi % a;
    MulAssociates(c, 64, q);
    Distribute(c, 64 * q, r / c);
    ModUnique(hi, c, 64 * q + r / c, r % c);
  }

  /** The clamp mask acts on each 26-bit digit by itself. */
  lemma ClampDigits(d0: nat, d1: nat, d2: nat, d3: nat, d4: nat)
    requires d0 < TWO26 && d1 < TWO26 && d2 < TWO26 && d3 < TWO26
    ensures And(Val(d0, d1, d2, d3, d4), R_MASK)
         == Val(And(d0, 0x3ffffff), And(d1, 0x3ffff03), And(d2, 0x3ffc0ff), And(d3, 0x3f03fff), And(d4, 0x00fffff))
  {
    hide And, Exp2;
    Exp2TwentySix();
    var x3 := TWO26 * d4 + d3;
    var x2 := TWO26 * x3 + d2;
    var x1 := TWO26 * x2 + d1;
    var m3 := TWO26 * 0x00fffff + 0x3f03fff;
    var m2 := TWO26 * m3 + 0x3ffc0ff;
    var m1 := TWO26 * m2 + 0x3ffff03;
    assert R_MASK == TWO26 * m1 + 0x3ffffff;
    AndSplit(x3, d4, d3, m3, 0x00fffff, 0x3f03fff, 26);
    AndSplit(x2, x3, d2, m2, m3, 0x3ffc0ff, 26);
    AndSplit(x1, x2, d1, m1, m2, 0x3ffff03, 26);
    AndSplit(TWO26 * x1 + d0, x1, d0, R_MASK, m1, 0x3ffffff, 26);
  }

  // ----- finishing -------------------------------------------------------------------------

  /** Lines 119-125: two carry passes. If the second reaches h1 then the first left
      h1 below 64, so h1 stays below 2^26. */
  method Settle(g0: nat, g1: nat, g2: nat, g3: nat, g4: nat)
    returns (h0: nat, h1: nat, h2: nat, h3: nat, h4: nat)
    requires Carried(g0, g1, g2, g3, g4)
    ensures h0 < TWO26 && h1 < TWO26 && h2 < TWO26 && h3 < TWO26 && h4 < TWO26
    ensures Val(h0, h1, h2, h3, h4) % Q == Val(g0, g1, g2, g3, g4) % Q
  {
    hide Val;
    var b := g0 / TWO26; h0 := g0 % TWO26;
    h1 := Low32(g1 + b); b := h1 / TWO26; h1 := h1 % TWO26;
    h2 := Low32(g2 + b); b := h2 / TWO26; h2 := h2 % TWO26;
    h3 := Low32(g3 + b); b := h3 / TWO26; h3 := h3 % TWO26;
    h4 := Low32(g4 + b); b := h4 / TWO26; h4 := h4 % TWO26;
    ghost var k, p0, p1 := b, h0, h1;
    assert k <= 1 && (k == 1 ==> h1 < 64);
    SettlePass(g0, g1, g2, g3, g4, h0, h1, h2, h3, h4, k);
    h0 := Low32(h0 + Low32(b * 5)); b := h0 / TWO26; h0 := h0 % TWO26;
    h1 := Low32(h1 + b);
    SettleTail(p0, p1, h0, h1, h2, h3, h4, k, b);
    SameRemainder(Val(g0, g1, g2, g3, g4), Val(h0, h1, h2, h3, h4), k);
  }

  lemma SettlePass(g0: nat, g1: nat, g2: nat, g3: nat, g4: nat, h0: nat, h1: nat, h2: nat, h3: nat, h4: nat, k: nat)
    requires var c0 := g0 / TWO26; var c1 := (g1 + c0) / TWO26;
             var c2 := (g2 + c1) / TWO26; var c3 := (g3 + c2) / TWO26;
             && h0 == g0 % TWO26 && h1 == (g1 + c0) % TWO26 && h2 == (g2 + c1) % TWO26 && h3 == (g3 + c2) % TWO26
             && h4 == (g4 + c3) % TWO26 && k == (g4 + c3) / TWO26
    ensures Val(g0, g1, g2, g3, g4) == Val(h0, h1, h2, h3, h4) + TWO130 * k
  {
  }

  lemma SettleTail(p0: nat, p1: nat, h0: nat, h1: nat, h2: nat, h3: nat, h4: nat, k: nat, b: nat)
    requires p0 + 5 * k == h0 + TWO26 * b && h1 == p1 + b
    ensures Val(p0, p1, h2, h3, h4) + TWO130 * k == Val(h0, h1, h2, h3, h4) + Q * k
  {
  }

  /** `(x & keep) | (y & take)` with complementary all-ones and all-zeros masks. */
  lemma Select(x: nat, y: nat, take: bool)
    requires x < TWO32 && y < TWO32
    ensures var b := if take then TWO32 - 1 else 0;
            Or(And(x, TWO32 - 1 - b), And(y, b)) == if take then y else x
  {
    hide And, Exp2;
    Exp2Words();
    AndMask(x, 32); AndMask(y, 32);
    AndZero(x); AndZero(y);
    OrZero(x); OrZero(y);
  }

  lemma OrZero(x: nat)
    ensures Or(x, 0) == x && Or(0, x) == x
  {
  }

  /** Lines 127-139: subtract Q when h is at least Q, chosen by masks. */
  method Freeze(g0: nat, g1: nat, g2: nat, g3: nat, g4: nat)
    returns (h0: nat, h1: nat, h2: nat, h3: nat, h4: nat)
    requires g0 < TWO26 && g1 < TWO26 && g2 < TWO26 && g3 < TWO26 && g4 < TWO26
    ensures h0 < TWO26 && h1 < TWO26 && h2 < TWO26 && h3 < TWO26 && h4 < TWO26
    ensures Val(h0, h1, h2, h3, h4) == Val(g0, g1, g2, g3, g4) % Q
  {
    hide Val, And, Or;
    var f0 := Low32(g0 + 5); var b := f0 / TWO26; f0 := f0 % TWO26;
    var f1 := Low32(g1 + b); b := f1 / TWO26; f1 := f1 % TWO26;
    var f2 := Low32(g2 + b); b := f2 / TWO26; f2 := f2 % TWO26;
    var f3 := Low32(g3 + b); b := f3 / TWO26; f3 := f3 % TWO26;
    ghost var top := g4 + b;
    var f4 := (g4 + b + (TWO32 - TWO26)) % TWO32;
    b := (f4 / 0x8000_0000 + (TWO32 - 1)) % TWO32;
    var nb := TWO32 - 1 - b;
    ghost var take := top >= TWO26;
    SelectMask(top);
    Select(g0, f0, take); Select(g1, f1, take); Select(g2, f2, take); Select(g3, f3, take); Select(g4, f4, take);
    h0 := Or(And(g0, nb), And(f0, b));
    h1 := Or(And(g1, nb), And(f1, b));
    h2 := Or(And(g2, nb), And(f2, b));
    h3 := Or(And(g3, nb), And(f3, b));
    h4 := Or(And(g4, nb), And(f4, b));
    FreezeValue(g0, g1, g2, g3, g4, f0, f1, f2, f3, top);
  }

  lemma FreezeValue(g0: nat, g1: nat, g2: nat, g3: nat, g4: nat, f0: nat, f1: nat, f2: nat, f3: nat, top: nat)
    requires g0 < TWO26 && g1 < TWO26 && g2 < TWO26 && g3 < TWO26 && g4 < TWO26
    requires var c0 := (g0 + 5) / TWO26; var c1 := (g1 + c0) / TWO26; var c2 := (g2 + c1) / TWO26;
             && f0 == (g0 + 5) % TWO26 && f1 == (g1 + c0) % TWO26 && f2 == (g2 + c1) % TWO26
             && f3 == (g3 + c2) % TWO26 && top == g4 + (g3 + c2) / TWO26
    ensures top <= TWO26
    ensures Val(g0, g1, g2, g3, g4) % Q
         == if top >= TWO26 then Val(f0, f1, f2, f3, top - TWO26) else Val(g0, g1, g2, g3, g4)
  {
    var v, f := Val(g0, g1, g2, g3, g4), Val(f0, f1, f2, f3, top);
    assert v + 5 == f && 0 <= v < TWO130;
    assert f >= TWO130 <==> top >= TWO26;
    if top >= TWO26 {
      assert Val(f0, f1, f2, f3, top - TWO26) == f - TWO130;
      ModUnique(v, Q, 1, v - Q);
    } else {
      ModUnique(v, Q, 0, v);
    }
  }

  /** The select mask: all ones when the subtraction did not borrow. */
  lemma SelectMask(top: nat)
    requires top <= TWO26
    ensures var f4 := (top + (TWO32 - TWO26)) % TWO32;
            && (f4 / 0x8000_0000 + (TWO32 - 1)) % TWO32 == (if top >= TWO26 then TWO32 - 1 else 0)
            && (top >= TWO26 ==> f4 == top - TWO26)
  {
  }

  /** Lines 141-144: the low 128 bits of the limbs as four 32-bit words. */
  lemma PackWords(h0: nat, h1: nat, h2: nat, h3: nat, h4: nat)
    requires h0 < TWO26 && h1 < TWO26 && h2 < TWO26 && h3 < TWO26 && h4 < TWO26
    ensures var w0 := Or(h0, Low32(Shl(h1, TWO26)));
            var w1 := Or(h1 / 0x40, Low32(Shl(h2, 0x10_0000)));
            var w2 := Or(h2 / 0x1000, Low32(Shl(h3, 0x4000)));
            var w3 := Or(h3 / 0x4_0000, Low32(Shl(h4, 0x100)));
            && w0 < TWO32 && w1 < TWO32 && w2 < TWO32 && w3 < TWO32
            && w0 + TWO32 * (w1 + TWO32 * (w2 + TWO32 * w3)) == Val(h0, h1, h2, h3, h4) % TWO128P
  {
    hide Or, Exp2, Low32, Shl;
    Exp2TwentySix(); Exp2Words(); Exp2Small();
    Exp2Add(16, 4); Exp2Add(12, 2);
    ShiftedWord(h1, 0x40, TWO26); ShiftedWord(h2, 0x1000, 0x10_0000);
    ShiftedWord(h3, 0x4_0000, 0x4000); ShiftedWord(h4, 0x100_0000, 0x100);
    OrDisjoint(h0, h1 % 0x40, 26);
    OrDisjoint(h1 / 0x40, h2 % 0x1000, 20);
    OrDisjoint(h2 / 0x1000, h3 % 0x4_0000, 14);
    OrDisjoint(h3 / 0x4_0000, h4 % 0x100_0000, 8);
    PackSum(h0, h1, h2, h3, h4);
  }

  lemma PackSum(h0: nat, h1: nat, h2: nat, h3: nat, h4: nat)
    requires h0 < TWO26 && h1 < TWO26 && h2 < TWO26 && h3 < TWO26 && h4 < TWO26
    ensures h0 + h1 % 0x40 * TWO26
            + TWO32 * (h1 / 0x40 + h2 % 0x1000 * 0x10_0000
            + TWO32 * (h2 / 0x1000 + h3 % 0x4_0000 * 0x4000
            + TWO32 * (h3 / 0x4_0000 + h4 % 0x100_0000 * 0x100))) == Val(h0, h1, h2, h3, h4) % TWO128P
  {
    ModUnique(Val(h0, h1, h2, h3, h4), TWO128P, h4 / 0x100_0000, Val(h0, h1, h2, h3, h4 % 0x100_0000));
  }

  /** U32TO8_LE at position 4i. */
  method Store32(out: array<Byte>, at: nat, v: nat)
    requires at + 4 <= out.Length
    modifies out
    ensures out[..] == old(out[..at]) + LowBytes(v, 4) + old(out[at + 4..])
  {
    FourBytes(v);
    hide LowBytes;
    var b0, b1, b2, b3 := v % 256, v / TWO8 % 256, v / TWO16 % 256, v / 0x100_0000 % 256;
    assert LowBytes(v, 4) == [b0, b1, b2, b3];
    out[at], out[at + 1], out[at + 2], out[at + 3] := b0, b1, b2, b3;
  }

  lemma FourBytes(v: nat)
    ensures LowBytes(v, 4) == [v % 256, v / TWO8 % 256, v / TWO16 % 256, v / 0x100_0000 % 256]
  {
    DivDiv(v, TWO8, TWO8); DivDiv(v, TWO16, TWO8);
    assert LowBytes(v, 4) == [v % 256] + LowBytes(v / 256, 3);
    assert LowBytes(v / 256, 3) == [v / 256 % 256] + LowBytes(v / 256 / 256, 2);
    assert LowBytes(v / 256 / 256, 2) == [v / 256 / 256 % 256] + LowBytes(v / 256 / 256 / 256, 1);
    assert LowBytes(v / 256 / 256 / 256, 1) == [v / 256 / 256 / 256 % 256] + LowBytes(v / 256 / 256 / 256 / 256, 0);
  }

  /** The value of four words. */
  function Four(w0: nat, w1: nat, w2: nat, w3: nat): nat {
    w0 + TWO32 * (w1 + TWO32 * (w2 + TWO32 * w3))
  }

  /** Adding word by word, each with the carry of the one before. */
  lemma AddWords(w0: nat, w1: nat, w2: nat, w3: nat, k0: nat, k1: nat, k2: nat, k3: nat, f0: nat, f1: nat, f2: nat,
      f3: nat)
    requires f0 == w0 + k0 && f1 == w1 + k1 + f0 / TWO32 && f2 == w2 + k2 + f1 / TWO32 && f3 == w3 + k3 + f2 / TWO32
    ensures Four(f0 % TWO32, f1 % TWO32, f2 % TWO32, f3 % TWO32) ==
        (Four(w0, w1, w2, w3) + Four(k0, k1, k2, k3)) % TWO128P
  {
    hide Four;
    var low := Four(f0 % TWO32, f1 % TWO32, f2 % TWO32, f3 % TWO32);
    SumDigits(w0, w1, w2, w3, k0, k1, k2, k3, f0 / TWO32, f1 / TWO32, f2 / TWO32, f3 / TWO32,
              f0 % TWO32, f1 % TWO32, f2 % TWO32, f3 % TWO32);
    ModUnique(Four(w0, w1, w2, w3) + Four(k0, k1, k2, k3), TWO128P, f3 / TWO32, low);
  }

  lemma SumDigits(w0: nat, w1: nat, w2: nat, w3: nat, k0: nat, k1: nat, k2: nat, k3: nat,
                  q0: nat, q1: nat, q2: nat, q3: nat, r0: nat, r1: nat, r2: nat, r3: nat)
    requires w0 + k0 == TWO32 * q0 + r0 && w1 + k1 + q0 == TWO32 * q1 + r1
    requires w2 + k2 + q1 == TWO32 * q2 + r2 && w3 + k3 + q2 == TWO32 * q3 + r3
    requires r0 < TWO32 && r1 < TWO32 && r2 < TWO32 && r3 < TWO32
    ensures Four(w0, w1, w2, w3) + Four(k0, k1, k2, k3) == Four(r0, r1, r2, r3) + TWO128P * q3
    ensures Four(r0, r1, r2, r3) < TWO128P
  {
  }

  lemma StoredWords(f0: nat, f1: nat, f2: nat, f3: nat)
    ensures LE(LowBytes(f0, 4) + (LowBytes(f1, 4) + (LowBytes(f2, 4) + LowBytes(f3, 4))))
         == Four(f0 % TWO32, f1 % TWO32, f2 % TWO32, f3 % TWO32)
  {
    hide LE, Exp2, LowBytes;
    Exp2Words();
    LowBytesMod(f0, 4); LowBytesMod(f1, 4); LowBytesMod(f2, 4); LowBytesMod(f3, 4);
    Quads(LowBytes(f0, 4), LowBytes(f1, 4), LowBytes(f2, 4), LowBytes(f3, 4));
  }

  lemma Quads(a: seq<Byte>, b: seq<Byte>, c: seq<Byte>, d: seq<Byte>)
    requires |a| == 4 && |b| == 4 && |c| == 4
    ensures LE(a + (b + (c + d))) == LE(a) + TWO32 * (LE(b) + TWO32 * (LE(c) + TWO32 * LE(d)))
  {
    hide LE, Exp2;
    Exp2Words();
    LEConcat(c, d);
    LEConcat(b, c + d);
    LEConcat(a, b + (c + d));
  }

  /** Lines 141-149 after packing: add the key's second half, word by word. */
  method StoreSum(out: array<Byte>, w0: nat, w1: nat, w2: nat, w3: nat, key: seq<Byte>)
    requires out.Length == 16 && |key| == 32
    requires w0 < TWO32 && w1 < TWO32 && w2 < TWO32 && w3 < TWO32
    modifies out
    ensures LE(out[..]) == (Four(w0, w1, w2, w3) + LE(key[16..])) % TWO128P
  {
    hide LE, Load32, LowBytes, Four;
    ghost var s := key[16..];
    assert key[16..20] == s[..4] && key[20..24] == s[4..8] && key[24..28] == s[8..12] && key[28..] == s[12..];
    KeyWords(s);
    var k0, k1, k2, k3 := Load32(key[16..20]), Load32(key[20..24]), Load32(key[24..28]), Load32(key[28..]);
    var f0, f1, f2, f3 := Low64(w0 + k0), Low64(w1 + k1), Low64(w2 + k2), Low64(w3 + k3);
    f1 := Low64(f1 + f0 / TWO32);
    f2 := Low64(f2 + f1 / TWO32);
    f3 := Low64(f3 + f2 / TWO32);
    AddWords(w0, w1, w2, w3, k0, k1, k2, k3, f0, f1, f2, f3);
    StoreFour(out, f0, f1, f2, f3);
  }

  lemma KeyWords(s: seq<Byte>)
    requires |s| == 16
    ensures LE(s) == Four(Load32(s[..4]), Load32(s[4..8]), Load32(s[8..12]), Load32(s[12..]))
    ensures Load32(s[..4]) < TWO32 && Load32(s[4..8]) < TWO32 && Load32(s[8..12]) < TWO32 && Load32(s[12..]) < TWO32
  {
    hide LE, Load32;
    FourWords(s);
  }

  method StoreFour(out: array<Byte>, f0: nat, f1: nat, f2: nat, f3: nat)
    requires out.Length == 16
    modifies out
    ensures LE(out[..]) == Four(f0 % TWO32, f1 % TWO32, f2 % TWO32, f3 % TWO32)
  {
    hide LE, LowBytes, Four;
    Store32(out, 0, f0);
    Store32(out, 4, f1);
    Store32(out, 8, f2);
    Store32(out, 12, f3);
    assert out[..] == LowBytes(f0, 4) + (LowBytes(f1, 4) + (LowBytes(f2, 4) + LowBytes(f3, 4)));
    StoredWords(f0, f1, f2, f3);
  }

  /** Lines 141-149: add the key's second half and store the low 128 bits. */
  method Emit(out: array<Byte>, h0: nat, h1: nat, h2: nat, h3: nat, h4: nat, key: seq<Byte>)
    requires out.Length == 16 && |key| == 32
    requires h0 < TWO26 && h1 < TWO26 && h2 < TWO26 && h3 < TWO26 && h4 < TWO26
    modifies out
    ensures LE(out[..]) == (Val(h0, h1, h2, h3, h4) + LE(key[16..])) % TWO128P
  {
    hide LE, Or, Val, Low32, Shl;
    PackWords(h0, h1, h2, h3, h4);
    var w0 := Or(h0, Low32(Shl(h1, TWO26)));
    var w1 := Or(h1 / 0x40, Low32(Shl(h2, 0x10_0000)));
    var w2 := Or(h2 / 0x1000, Low32(Shl(h3, 0x4000)));
    var w3 := Or(h3 / 0x4_0000, Low32(Shl(h4, 0x100)));
    StoreSum(out, w0, w1, w2, w3, key);
    AddLow128(Val(h0, h1, h2, h3, h4), LE(key[16..]));
  }

  lemma AddLow128(v: int, s: nat)
    ensures (v % TWO128P + s) % TWO128P == (v + s) % TWO128P
  {
  }

  // ----- the whole function ---------------------------------------------------------------

  /** Lines 100-102: the last block, ended by a 1 byte and zero-filled. */
  method PadBlock(m: seq<Byte>) returns (mp: array<Byte>)
    requires 0 < |m| < 16
    ensures fresh(mp) && mp.Length == 16
    ensures LE(mp[..]) == Block(m)
  {
    hide LE;
    mp := new Byte[16];
    var j := 0;
    while j < |m|
      invariant 0 <= j <= |m| && forall i :: 0 <= i < j ==> mp[i] == m[i]
    {
      mp[j] := m[j];
      j := j + 1;
    }
    mp[j] := 1;
    j := j + 1;
    while j < 16
      invariant |m| + 1 <= j <= 16 && mp[|m|] == 1 && forall i :: 0 <= i < |m| ==> mp[i] == m[i]
      invariant forall i :: |m| + 1 <= i < j ==> mp[i] == 0
    {
      mp[j] := 0;
      j := j + 1;
    }
    var tail := mp[|m| + 1..];
    assert mp[..] == (m + [1]) + tail;
    LEConcat(m + [1], tail);
    ZeroTail(tail);
  }

  lemma {:induction false} ZeroTail(t: seq<Byte>)
    requires forall i :: 0 <= i < |t| ==> t[i] == 0
    ensures LE(t) == 0
  {
    if t == [] {
    } else {
      ZeroTail(t[1..]);
    }
  }

  /** A full block's terminating byte is bit 128. */
  lemma FullBlock(b: seq<Byte>)
    requires |b| == 16
    ensures Block(b) == LE(b) + TWO104 * 0x100_0000
  {
    hide LE, Exp2;
    LEConcat(b, [1]);
    OneByte(1);
    Exp2Words(); Exp2Add(64, 64);
  }

  /** Adding a block and multiplying keeps step with the reference. */
  lemma StepRemainder(h: int, a: int, n: int, r: int, next: int)
    requires h % Q == a % Q && next % Q == (h + n) * r % Q
    ensures next % Q == (a + n) * r % Q
  {
    var k := h / Q - a / Q;
    assert h == a + Q * k;
    assert (h + n) * r == (a + n) * r + Q * (k * r) by { Distribute(r, a + n, Q * k); MulAssociates(Q, k, r); }
    SameRemainder((h + n) * r, (a + n) * r, k * r);
  }

  /** poly1305_auth. */
  method Auth(out: array<Byte>, m: seq<Byte>, key: seq<Byte>)
    requires out.Length == 16 && |key| == 32
    modifies out
    ensures LE(out[..]) == Tag(m, key)
  {
    hide LE, ClampR, Val, Block, Accumulate, Carried, Added, Multiplier;
    var r0, r1, r2, r3, r4 := KeyLimbs(key);
    ghost var r := ClampR(key);
    Fives(r0, r1, r2, r3, r4);
    var s1, s2, s3, s4 := Low32(r1 * 5), Low32(r2 * 5), Low32(r3 * 5), Low32(r4 * 5);
    var h0, h1, h2, h3, h4 := 0, 0, 0, 0, 0;
    Zero();
    ghost var a := 0;
    var rest := m;
    while |rest| >= 16
      invariant Carried(h0, h1, h2, h3, h4)
      invariant 0 <= a && Val(h0, h1, h2, h3, h4) % Q == a % Q
      invariant Accumulate(a, r, rest) == Accumulate(0, r, m)
      invariant a < Q
      decreases |rest|
    {
      ghost var v := Val(h0, h1, h2, h3, h4);
      FullBlock(rest[..16]);
      h0, h1, h2, h3, h4 := AddBlock(h0, h1, h2, h3, h4, rest[..16], 0x100_0000);
      h0, h1, h2, h3, h4 := Multiply(h0, h1, h2, h3, h4, r0, r1, r2, r3, r4, s1, s2, s3, s4);
      StepRemainder(v, a, Block(rest[..16]), r, Val(h0, h1, h2, h3, h4));
      AccumulateFull(a, r, rest);
      a := (a + Block(rest[..16])) * r % Q;
      rest := rest[16..];
      RemainderTwice(a);
    }
    AccumulateLast(a, r, rest);
    if |rest| != 0 {
      ghost var v := Val(h0, h1, h2, h3, h4);
      var mp := PadBlock(rest);
      h0, h1, h2, h3, h4 := AddBlock(h0, h1, h2, h3, h4, mp[..], 0);
      h0, h1, h2, h3, h4 := Multiply(h0, h1, h2, h3, h4, r0, r1, r2, r3, r4, s1, s2, s3, s4);
      StepRemainder(v, a, Block(rest), r, Val(h0, h1, h2, h3, h4));
      a := (a + Block(rest)) * r % Q;
      RemainderTwice(a);
    }
    h0, h1, h2, h3, h4 := Settle(h0, h1, h2, h3, h4);
    h0, h1, h2, h3, h4 := Freeze(h0, h1, h2, h3, h4);
    RemainderTwice(a);
    Emit(out, h0, h1, h2, h3, h4, key);
  }

  lemma Fives(r0: nat, r1: nat, r2: nat, r3: nat, r4: nat)
    requires Multiplier(r0, r1, r2, r3, r4)
    ensures Low32(r1 * 5) == 5 * r1 && Low32(r2 * 5) == 5 * r2 && Low32(r3 * 5) == 5 * r3 && Low32(r4 * 5) == 5 * r4
  {
  }

  lemma Zero()
    ensures Carried(0, 0, 0, 0, 0) && Val(0, 0, 0, 0, 0) == 0
  {
  }

  lemma RemainderTwice(a: nat)
    ensures a < Q ==> a % Q == a
  {
  }

  lemma AccumulateFull(a: nat, r: nat, m: seq<Byte>)
    requires |m| >= 16
    ensures 0 <= (a + Block(m[..16])) * r % Q < Q
    ensures Accumulate(a, r, m) == Accumulate((a + Block(m[..16])) * r % Q, r, m[16..])
  {
    hide Block;
  }

  lemma AccumulateLast(a: nat, r: nat, m: seq<Byte>)
    requires |m| < 16
    ensures 0 <= (a + Block(m)) * r % Q < Q
    ensures Accumulate(a, r, m) == if m == [] then a else (a + Block(m)) * r % Q
  {
    hide Block;
  }
}
