/** fexpand and fcontract of kernel/crypto/x25519.c: 32 little-endian bytes to
    five limbs and back, the way back with full reduction modulo 2^255 - 19. */
module Bytes25519 {
  import opened Words
  import opened Field25519
  import opened Limbs25519

  const TWO255: nat := 0x80000000_00000000_00000000_00000000_00000000_00000000_00000000_00000000

  // ----- loading ------------------------------------------------------------------------

  /** load_limb: eight bytes, or-ed together at their shifts. */
  function LoadLimb(b: seq<Byte>): nat
    requires |b| == 8
  {
    Or(Or(Or(Or(Or(Or(Or(b[0], Shl(b[1], TWO8)), Shl(b[2], TWO16)), Shl(b[3], 0x100_0000)), Shl(b[4], TWO32)),
             Shl(b[5], 0x100_0000_0000)), Shl(b[6], 0x1_0000_0000_0000)), Shl(b[7], 0x100_0000_0000_0000))
  }

  lemma LoadIsLE(b: seq<Byte>)
    requires |b| == 8
    ensures LoadLimb(b) == LE(b) < TWO64
  {
    hide Or, Exp2, LE;
    Exp2Words();
    OneByte(b[0]);
    OrAppend(b[0], [b[0]], b[1]);
    assert b[..1] + [b[1]] == b[..2] && b[..1] == [b[0]];
    OrAppend(LE(b[..2]), b[..2], b[2]); assert b[..2] + [b[2]] == b[..3];
    OrAppend(LE(b[..3]), b[..3], b[3]); assert b[..3] + [b[3]] == b[..4];
    OrAppend(LE(b[..4]), b[..4], b[4]); assert b[..4] + [b[4]] == b[..5];
    OrAppend(LE(b[..5]), b[..5], b[5]); assert b[..5] + [b[5]] == b[..6];
    OrAppend(LE(b[..6]), b[..6], b[6]); assert b[..6] + [b[6]] == b[..7];
    OrAppend(LE(b[..7]), b[..7], b[7]); assert b[..7] + [b[7]] == b;
    LEBound(b);
  }

  /** A shifted, masked load at byte `off` is the 51-bit window at bit 8 off + s. */
  lemma Window(n: seq<Byte>, off: nat, s: nat)
    requires off + 8 <= |n| && s <= 13
    ensures LE(n[off..off + 8]) / Exp2(s) % TWO51 == LE(n) / Exp2(8 * off + s) % TWO51
  {
    hide LE, Exp2;
    var lo, mid, hi := n[..off], n[off..off + 8], n[off + 8..];
    assert n == lo + (mid + hi);
    LEConcat(lo, mid + hi); LEConcat(mid, hi); LEBound(lo);
    var m := LE(mid + hi);
    ModUnique(LE(n), Exp2(8 * off), m, LE(lo));
    Exp2Add(8 * off, s);
    DivDiv(LE(n), Exp2(8 * off), Exp2(s));
    WindowTop(LE(mid), LE(hi), s);
  }

  lemma WindowTop(l: nat, hi: nat, s: nat)
    requires s <= 13
    ensures l / Exp2(s) % TWO51 == (l + Exp2(64) * hi) / Exp2(s) % TWO51
  {
    hide Exp2;
    var e, f := Exp2(s), Exp2(13 - s);
    Exp2Add(s, 13 - s); Exp2Add(51, 13); Exp2Limb();
    var q, r := l / e, l % e;
    var k := TWO51 * (f * hi);
    assert Exp2(64) * hi == e * k by {
      assert Exp2(64) == TWO51 * (e * f);
      Regroup(TWO51, e, f, hi);
    }
    Distribute(e, q, k);
    ModUnique(l + Exp2(64) * hi, e, q + k, r);
    ModUnique(q + k, TWO51, q / TWO51 + f * hi, q % TWO51);
  }

  lemma Regroup(a: int, b: int, c: int, d: int)
    ensures (a * (b * c)) * d == b * (a * (c * d))
  {
  }

  lemma Exp2Limb()
    ensures Exp2(51) == TWO51 && Exp2(13) == 0x2000
    ensures Exp2(102) == TWO102 && Exp2(153) == TWO153 && Exp2(204) == TWO204
  {
    hide Exp2;
    Exp2Small(); Exp2Words();
    Exp2Add(8, 4); Exp2Add(12, 1); Exp2Add(48, 3); Exp2Add(51, 51); Exp2Add(102, 51); Exp2Add(102, 102);
  }

  /** Five 51-bit windows make up the low 255 bits. */
  lemma Windows(n: nat)
    ensures Val(n % TWO51, n / TWO51 % TWO51, n / TWO102 % TWO51, n / TWO153 % TWO51, n / TWO204 % TWO51) == n % TWO255
  {
    var q1 := n / TWO51;
    DivDiv(n, TWO51, TWO51); var q2 := q1 / TWO51;
    DivDiv(n, TWO102, TWO51); var q3 := q2 / TWO51;
    DivDiv(n, TWO153, TWO51); var q4 := q3 / TWO51;
    var q5 := q4 / TWO51;
    var low := Val(n % TWO51, q1 % TWO51, q2 % TWO51, q3 % TWO51, q4 % TWO51);
    assert n == low + TWO255 * q5;
    assert low < TWO255;
    ModUnique(n, TWO255, q5, low);
  }

  /** fexpand: the low 255 bits of 32 bytes, as five limbs below 2^51. */
  method FExpand(output: array<nat>, in1: array<Byte>)
    requires output.Length == 5 && in1.Length == 32
    modifies output
    ensures Within(output[..], TWO51 - 1)
    ensures V(output[..]) == LE(in1[..]) % TWO255
  {
    hide LE, Exp2, Or, LoadLimb, Val;
    output[0] := LoadLimb(in1[..8]) % TWO51;
    output[1] := LoadLimb(in1[6..14]) / 0x8 % TWO51;
    output[2] := LoadLimb(in1[12..20]) / 0x40 % TWO51;
    output[3] := LoadLimb(in1[19..27]) / 0x2 % TWO51;
    output[4] := LoadLimb(in1[24..]) / 0x1000 % TWO51;
    ExpandWindows(in1[..]);
  }

  lemma ExpandWindows(n: seq<Byte>)
    requires |n| == 32
    ensures Val(LoadLimb(n[..8]) % TWO51, LoadLimb(n[6..14]) / 0x8 % TWO51, LoadLimb(n[12..20]) / 0x40 % TWO51,
                LoadLimb(n[19..27]) / 0x2 % TWO51, LoadLimb(n[24..]) / 0x1000 % TWO51) == LE(n) % TWO255
  {
    hide LE, Exp2, Or, LoadLimb, Val;
    assert n[0..8] == n[..8] && n[24..32] == n[24..];
    LoadIsLE(n[..8]); LoadIsLE(n[6..14]); LoadIsLE(n[12..20]); LoadIsLE(n[19..27]); LoadIsLE(n[24..]);
    LowWindows(n);
    HighWindows(n);
    Windows(LE(n));
  }

  lemma LowWindows(n: seq<Byte>)
    requires |n| == 32
    ensures LE(n[0..8]) % TWO51 == LE(n) % TWO51 && LE(n[6..14]) / 0x8 % TWO51 == LE(n) / TWO51 % TWO51
    ensures LE(n[12..20]) / 0x40 % TWO51 == LE(n) / TWO102 % TWO51
  {
    hide LE, Exp2;
    Exp2Small(); Exp2Limb(); Exp2Add(3, 3);
    Window(n, 0, 0); Window(n, 6, 3); Window(n, 12, 6);
  }

  lemma HighWindows(n: seq<Byte>)
    requires |n| == 32
    ensures LE(n[19..27]) / 0x2 % TWO51 == LE(n) / TWO153 % TWO51
    ensures LE(n[24..32]) / 0x1000 % TWO51 == LE(n) / TWO204 % TWO51
  {
    hide LE, Exp2;
    Exp2Small(); Exp2Limb(); Exp2Add(8, 4); Exp2Words();
    Window(n, 19, 1); Window(n, 24, 12);
  }

  // ----- storing --------------------------------------------------------------------------

  /** One carry pass of fcontract, without the fold of the last carry. */
  method Pass(t0: nat, t1: nat, t2: nat, t3: nat, t4: nat)
    returns (r0: nat, r1: nat, r2: nat, r3: nat, r4: nat, c: nat)
    requires t0 < TWO110 && t1 < TWO110 && t2 < TWO110 && t3 < TWO110 && t4 < TWO110
    ensures Within([r0, r1, r2, r3, r4], TWO51 - 1)
    ensures Val(t0, t1, t2, t3, t4) == Val(r0, r1, r2, r3, r4) + TWO255 * c
  {
    r1 := Low128(t1 + t0 / TWO51); r0 := t0 % TWO51;
    r2 := Low128(t2 + r1 / TWO51); r1 := r1 % TWO51;
    r3 := Low128(t3 + r2 / TWO51); r2 := r2 % TWO51;
    r4 := Low128(t4 + r3 / TWO51); r3 := r3 % TWO51;
    c := r4 / TWO51; r4 := r4 % TWO51;
  }

  lemma LimbsBelow(r0: nat, r1: nat, r2: nat, r3: nat, r4: nat)
    requires Within([r0, r1, r2, r3, r4], TWO51 - 1)
    ensures r0 <= Val(r0, r1, r2, r3, r4) < TWO255
  {
  }

  /** Adding to the lowest limb adds to the value. */
  lemma AddLow(d: nat, t0: nat, t1: nat, t2: nat, t3: nat, t4: nat)
    ensures Val(t0 + d, t1, t2, t3, t4) == Val(t0, t1, t2, t3, t4) + d
  {
  }

  /** Lines 194-204: after two passes the limbs are below 2^51 and nothing changed modulo P. */
  method TwoPasses(input: seq<nat>) returns (t0: nat, t1: nat, t2: nat, t3: nat, t4: nat)
    requires Within(input, TWO64 - 1)
    ensures Within([t0, t1, t2, t3, t4], TWO51 - 1)
    ensures Cong(Val(t0, t1, t2, t3, t4), V(input))
  {
    var c, d;
    t0, t1, t2, t3, t4, c := Pass(input[0], input[1], input[2], input[3], input[4]);
    ghost var y := Val(t0, t1, t2, t3, t4);
    LimbsBelow(t0, t1, t2, t3, t4);
    TopCarry(input, y, c);
    AddLow(19 * c, t0, t1, t2, t3, t4);
    t0 := Low128(t0 + 19 * c);
    hide Val, Cong;
    t0, t1, t2, t3, t4, d := Pass(t0, t1, t2, t3, t4);
    ghost var y' := Val(t0, t1, t2, t3, t4);
    LimbsBelow(t0, t1, t2, t3, t4);
    assert d <= 1 && (d == 1 ==> y' < TWO51 - 19);
    AddLow(19 * d, t0, t1, t2, t3, t4);
    t0 := Low128(t0 + 19 * d);
    CongBy(V(input), Val(t0, t1, t2, t3, t4), c + d);
    CongSym(V(input), Val(t0, t1, t2, t3, t4));
  }

  lemma TopCarry(input: seq<nat>, y: nat, c: nat)
    requires Within(input, TWO64 - 1) && V(input) == y + TWO255 * c
    ensures c < 0x4000
  {
  }

  /** Lines 192-231: the canonical representative, as five limbs below 2^51. */
  method Freeze(input: seq<nat>) returns (t0: nat, t1: nat, t2: nat, t3: nat, t4: nat)
    requires Within(input, TWO64 - 1)
    ensures Within([t0, t1, t2, t3, t4], TWO51 - 1)
    ensures Val(t0, t1, t2, t3, t4) == Fe(input)
  {
    var c, d;
    t0, t1, t2, t3, t4 := TwoPasses(input);
    ghost var x := Val(t0, t1, t2, t3, t4);
    LimbsBelow(t0, t1, t2, t3, t4);
    AddLow(19, t0, t1, t2, t3, t4);
    t0 := Low128(t0 + 19);
    hide Val, Cong;
    t0, t1, t2, t3, t4, c := Pass(t0, t1, t2, t3, t4);
    LimbsBelow(t0, t1, t2, t3, t4);
    AddLow(19 * c, t0, t1, t2, t3, t4);
    t0 := Low128(t0 + 19 * c);
    AddOffset(t0, t1, t2, t3, t4);
    t0, t1, t2, t3, t4 := Low128(t0 + (TWO51 - 19)), Low128(t1 + (TWO51 - 1)), Low128(t2 + (TWO51 - 1)),
                          Low128(t3 + (TWO51 - 1)), Low128(t4 + (TWO51 - 1));
    t0, t1, t2, t3, t4, d := Pass(t0, t1, t2, t3, t4);
    LimbsBelow(t0, t1, t2, t3, t4);
    Canonical(input, x, Val(t0, t1, t2, t3, t4), c, d);
  }

  lemma AddOffset(t0: nat, t1: nat, t2: nat, t3: nat, t4: nat)
    ensures Val(t0 + (TWO51 - 19), t1 + (TWO51 - 1), t2 + (TWO51 - 1), t3 + (TWO51 - 1), t4 + (TWO51 - 1))
         == Val(t0, t1, t2, t3, t4) + TWO255 - 19
  {
  }

  /** x + 19 carries out of bit 255 exactly when x is at least P. */
  lemma Canonical(input: seq<nat>, x: nat, r: nat, c: nat, d: nat)
    requires |input| == 5 && Cong(x, V(input)) && x < TWO255 && r < TWO255
    requires x + 19 - TWO255 * c >= 0 && x + 19 - TWO255 * c < TWO255
    requires x + 19 - TWO255 * c + 19 * c + TWO255 - 19 == r + TWO255 * d
    ensures r == Fe(input)
  {
    assert r == if x >= P then x - P else x;
    CongBy(x, r, if x >= P then 1 else 0);
  }

  /** The eight bytes of a 64-bit word. */
  function WordBytes(x: nat): (b: seq<Byte>)
    ensures |b| == 8
  {
    [x % 256, x / TWO8 % 256, x / TWO16 % 256, x / 0x100_0000 % 256, x / TWO32 % 256, x / 0x100_0000_0000 % 256,
     x / 0x1_0000_0000_0000 % 256, x / 0x100_0000_0000_0000 % 256]
  }

  lemma WordBytesValue(x: nat)
    requires x < TWO64
    ensures LE(WordBytes(x)) == x
  {
    Exp2Words();
    DivDiv(x, TWO8, TWO8); DivDiv(x, TWO16, TWO8); DivDiv(x, 0x100_0000, TWO8); DivDiv(x, TWO32, TWO8);
    DivDiv(x, 0x100_0000_0000, TWO8); DivDiv(x, 0x1_0000_0000_0000, TWO8);
    hide Exp2;
    LowBytesValue(x, 8);
    Unroll(x);
  }

  lemma Unroll(x: nat)
    ensures var y := x / 256; var z := y / 256; var u := z / 256; var v := u / 256; var w := v / 256;
            LowBytes(x, 8) == [x % 256, y % 256, z % 256, u % 256, v % 256, w % 256, w / 256 % 256, w / 256 / 256 % 256]
  {
    var v := x / 256 / 256 / 256 / 256;
    Four(x, 8); Four(v, 4);
  }

  lemma Four(x: nat, k: nat)
    requires k >= 4
    ensures LowBytes(x, k) == [x % 256, x / 256 % 256, x / 256 / 256 % 256, x / 256 / 256 / 256 % 256]
                              + LowBytes(x / 256 / 256 / 256 / 256, k - 4)
  {
    assert LowBytes(x, k) == [x % 256] + LowBytes(x / 256, k - 1);
    assert LowBytes(x / 256, k - 1) == [x / 256 % 256] + LowBytes(x / 256 / 256, k - 2);
    assert LowBytes(x / 256 / 256, k - 2) == [x / 256 / 256 % 256] + LowBytes(x / 256 / 256 / 256, k - 3);
  }

  /** store_limb. */
  method StoreLimb(out: array<Byte>, at: nat, in1: nat)
    requires at + 8 <= out.Length && in1 < TWO64
    modifies out
    ensures out[..] == old(out[..at]) + WordBytes(in1) + old(out[at + 8..])
  {
    hide WordBytes;
    var b := WordBytes(in1);
    forall i | 0 <= i < 8 { out[at + i] := b[i]; }
  }

  /** The four 64-bit words that hold five 51-bit limbs. */
  lemma PackWords(t0: nat, t1: nat, t2: nat, t3: nat, t4: nat)
    requires Within([t0, t1, t2, t3, t4], TWO51 - 1)
    ensures var w0 := Or(t0, Shl(t1, TWO51)) % TWO64;
            var w1 := Or(t1 / 0x2000, Shl(t2, 0x40_0000_0000)) % TWO64;
            var w2 := Or(t2 / 0x400_0000, Shl(t3, 0x200_0000)) % TWO64;
            var w3 := Or(t3 / 0x80_0000_0000, Shl(t4, 0x1000)) % TWO64;
            w0 + TWO64 * (w1 + TWO64 * (w2 + TWO64 * w3)) == Val(t0, t1, t2, t3, t4)
  {
    hide Or, Exp2, Val, Shl;
    ShiftWeights();
    PackWord(t0, t1, TWO51, 0x2000, 51);
    PackWord(t1 / 0x2000, t2, 0x40_0000_0000, 0x400_0000, 38);
    PackWord(t2 / 0x400_0000, t3, 0x200_0000, 0x80_0000_0000, 25);
    PackWord(t3 / 0x80_0000_0000, t4, 0x1000, TWO64 / 0x1000, 12);
    assert t4 % (TWO64 / 0x1000) == t4;
    PackSum(t0, t1, t2, t3, t4);
  }

  lemma ShiftWeights()
    ensures Exp2(51) == TWO51 && Exp2(38) == 0x40_0000_0000 && Exp2(25) == 0x200_0000 && Exp2(12) == 0x1000
  {
    hide Exp2;
    Exp2Limb(); Exp2Small(); Exp2Words();
    Exp2Add(32, 4); Exp2Add(36, 2); Exp2Add(24, 1); Exp2Add(8, 4);
  }

  lemma PackWord(low: nat, next: nat, a: nat, b: nat, k: nat)
    requires low < a == Exp2(k) && a * b == TWO64
    ensures b > 0 && Or(low, Shl(next, a)) % TWO64 == low + a * (next % b)
  {
    hide Or, Exp2;
    OrDisjoint(low, next, k);
    SplitLimb(low, next, a, b);
  }

  /** The low word keeps b bits of the next limb. */
  lemma SplitLimb(low: nat, next: nat, a: nat, b: nat)
    requires low < a && a * b == TWO64
    ensures b > 0 && (low + next * a) % TWO64 == low + a * (next % b)
  {
    var q, r := next / b, next % b;
    assert next * a == a * (b * q) + a * r by { assert next == b * q + r; Distribute(a, b * q, r); }
    MulAssociates(a, b, q);
    MulMonotone(a, r + 1, b); Distribute(a, r, 1);
    ModUnique(low + next * a, TWO64, q, low + a * r);
  }

  lemma PackSum(t0: nat, t1: nat, t2: nat, t3: nat, t4: nat)
    ensures t0 + TWO51 * (t1 % 0x2000)
            + TWO64 * (t1 / 0x2000 + 0x40_0000_0000 * (t2 % 0x400_0000)
            + TWO64 * (t2 / 0x400_0000 + 0x200_0000 * (t3 % 0x80_0000_0000)
            + TWO64 * (t3 / 0x80_0000_0000 + 0x1000 * t4))) == Val(t0, t1, t2, t3, t4)
  {
  }

  /** fcontract: the unique little-endian form below P, for any 64-bit limbs. */
  method FContract(output: array<Byte>, input: array<nat>)
    requires output.Length == 32 && input.Length == 5 && Within(input[..], TWO64 - 1)
    modifies output
    ensures LE(output[..]) == Fe(input[..]) < P
  {
    hide LE, Val, Fe;
    FeBelow(input[..]);
    var t0, t1, t2, t3, t4 := Freeze(input[..]);
    StoreLimbs(output, t0, t1, t2, t3, t4);
  }

  /** fexpand then fcontract: bit 255 is dropped and the rest reduced, so that the encoding of an
      element comes back as it was. */
  method Normalize(output: array<Byte>, in1: array<Byte>)
    requires output.Length == 32 && in1.Length == 32 && output != in1
    modifies output
    ensures LE(output[..]) == LE(in1[..]) % TWO255 % P
    ensures LE(in1[..]) < P ==> output[..] == in1[..]
  {
    hide LE, V;
    var limbs := new nat[5](_ => 0);
    FExpand(limbs, in1);
    FContract(output, limbs);
    if LE(in1[..]) < P { LEInjective(output[..], in1[..]); }
  }

  lemma FeBelow(f: seq<nat>)
    requires |f| == 5
    ensures Fe(f) < P
  {
    ModCong(V(f));
  }

  /** The words of five limbs, stored. */
  method StoreLimbs(output: array<Byte>, t0: nat, t1: nat, t2: nat, t3: nat, t4: nat)
    requires output.Length == 32 && Within([t0, t1, t2, t3, t4], TWO51 - 1)
    modifies output
    ensures LE(output[..]) == Val(t0, t1, t2, t3, t4)
  {
    hide Or, Shl, LE, WordBytes, Val, Within;
    PackWords(t0, t1, t2, t3, t4);
    var w0 := Or(t0, Shl(t1, TWO51)) % TWO64;
    var w1 := Or(t1 / 0x2000, Shl(t2, 0x40_0000_0000)) % TWO64;
    var w2 := Or(t2 / 0x400_0000, Shl(t3, 0x200_0000)) % TWO64;
    var w3 := Or(t3 / 0x80_0000_0000, Shl(t4, 0x1000)) % TWO64;
    StoreLimb(output, 0, w0);
    StoreLimb(output, 8, w1);
    StoreLimb(output, 16, w2);
    StoreLimb(output, 24, w3);
    assert output[..] == WordBytes(w0) + (WordBytes(w1) + (WordBytes(w2) + WordBytes(w3)));
    FourWords(w0, w1, w2, w3);
  }

  lemma FourWords(w0: nat, w1: nat, w2: nat, w3: nat)
    requires w0 < TWO64 && w1 < TWO64 && w2 < TWO64 && w3 < TWO64
    ensures LE(WordBytes(w0) + (WordBytes(w1) + (WordBytes(w2) + WordBytes(w3))))
         == w0 + TWO64 * (w1 + TWO64 * (w2 + TWO64 * w3))
  {
    hide LE, Exp2, WordBytes;
    WordBytesValue(w0); WordBytesValue(w1); WordBytesValue(w2); WordBytesValue(w3);
    Exp2Words();
    LEConcat(WordBytes(w2), WordBytes(w3));
    LEConcat(WordBytes(w1), WordBytes(w2) + WordBytes(w3));
    LEConcat(WordBytes(w0), WordBytes(w1) + (WordBytes(w2) + WordBytes(w3)));
  }
}
