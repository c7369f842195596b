/** Machine words as naturals: the bitwise operators of C, and the facts that
    turn masks, shifts and disjoint "or" into arithmetic. */
module Words {

  const TWO8: nat := 0x100
  const TWO16: nat := 0x1_0000
  const TWO32: nat := 0x1_0000_0000
  const TWO64: nat := 0x1_0000_0000_0000_0000
  const TWO128: nat := 0x1_0000_0000_0000_0000_0000_0000_0000_0000

  /** A byte of a C buffer. */
  type Byte = b: nat | b < 256

  /** A value stored in 64 bits. */
  function Low64(x: nat): nat {
    if x < TWO64 then x else x % TWO64
  }

  /** A product of two limbs, named so that proofs about columns can hide it. */
  function Prod(a: nat, b: nat): nat {
    a * b
  }

  /** The pieces of a message, put together. */
  function Concat(parts: seq<seq<Byte>>): seq<Byte> {
    if parts == [] then [] else Concat(parts[..|parts| - 1]) + parts[|parts| - 1]
  }

  function Exp2(k: nat): (r: nat)
    ensures r >= 1
  {
    if k == 0 then 1 else 2 * Exp2(k - 1)
  }

  lemma {:induction false} Exp2Add(j: nat, k: nat)
    ensures Exp2(j + k) == Exp2(j) * Exp2(k)
  {
    if j == 0 {
    } else {
      Exp2Add(j - 1, k);
    }
  }

  lemma Exp2Next(k: nat)
    requires k > 0
    ensures Exp2(k) == 2 * Exp2(k - 1)
  {
  }

  /** The powers of two that name word widths and byte positions. */
  lemma Exp2Words()
    ensures Exp2(8) == TWO8 && Exp2(16) == TWO16 && Exp2(32) == TWO32 && Exp2(64) == TWO64
    ensures Exp2(24) == 0x100_0000 && Exp2(40) == 0x100_0000_0000
    ensures Exp2(48) == 0x1_0000_0000_0000 && Exp2(56) == 0x100_0000_0000_0000
  {
    Exp2Small();
    hide Exp2;
    Exp2Add(4, 4);
    Exp2Add(8, 8); Exp2Add(16, 8); Exp2Add(16, 16);
    Exp2Add(32, 8); Exp2Add(32, 16); Exp2Add(32, 24); Exp2Add(32, 32);
  }

  lemma Exp2Small()
    ensures Exp2(0) == 1 && Exp2(1) == 2 && Exp2(2) == 4 && Exp2(3) == 8 && Exp2(4) == 16
  {
    assert Exp2(2) == 2 * Exp2(1);
    assert Exp2(4) == 2 * Exp2(3);
  }

  /** Bitwise "and" of two unsigned words. */
  function And(x: nat, y: nat): nat {
    if x == 0 || y == 0 then 0
    else (if x % 2 == 1 && y % 2 == 1 then 1 else 0) + 2 * And(x / 2, y / 2)
  }

  /** Bitwise "or" of two unsigned words. */
  function Or(x: nat, y: nat): nat {
    if x == 0 then y
    else if y == 0 then x
    else (if x % 2 + y % 2 == 0 then 0 else 1) + 2 * Or(x / 2, y / 2)
  }

  /** Bitwise "exclusive or" of two unsigned words. */
  function Xor(x: nat, y: nat): nat {
    if x == 0 then y
    else if y == 0 then x
    else (x + y) % 2 + 2 * Xor(x / 2, y / 2)
  }

  /** A multiple of n strictly between -n and n is zero. */
  lemma SmallMultiple(n: int, d: int)
    requires n > 0 && -n < n * d < n
    ensures d == 0
  {
  }

  /** The remainder is the only number in range that leaves a multiple. */
  lemma ModUnique(x: int, n: nat, q: int, m: nat)
    requires m < n && x == n * q + m
    ensures x % n == m && x / n == q
  {
    var q', m' := x / n, x % n;
    assert n * (q - q') == m' - m;
    SmallMultiple(n, q - q');
  }

  /** Remainder and quotient by 2e, from those of the half by e. */
  lemma HalfMod(x: nat, e: nat)
    requires e > 0
    ensures x % (2 * e) == 2 * ((x / 2) % e) + x % 2
    ensures x / (2 * e) == (x / 2) / e
  {
    var h := x / 2;
    var q, m := h / e, h % e;
    assert h == e * q + m;
    assert x == (2 * e) * q + (2 * m + x % 2);
    ModUnique(x, 2 * e, q, 2 * m + x % 2);
  }

  /** Masking with k ones keeps the low k bits. */
  lemma {:induction false} AndMask(x: nat, k: nat)
    ensures And(x, Exp2(k) - 1) == x % Exp2(k)
    decreases k
  {
    hide And, Exp2;
    if k == 0 {
      Exp2Small();
      AndBits(x, 0);
      AndBound(x, 0);
    } else {
      AndMask(x / 2, k - 1);
      Exp2Next(k);
      var e := Exp2(k - 1);
      var m := Exp2(k) - 1;
      assert m / 2 == e - 1 && m % 2 == 1;
      HalfMod(x, e);
      AndBits(x, m);
    }
  }

  lemma OrEven(x: nat, z: nat)
    ensures Or(x, 2 * z) == x % 2 + 2 * Or(x / 2, z)
  {
  }

  /** "or" of a k-bit word and a word shifted left by k is their sum. */
  lemma OrDisjoint(x: nat, y: nat, k: nat)
    requires x < Exp2(k)
    ensures Or(x, y * Exp2(k)) == x + y * Exp2(k)
  {
    hide Exp2;
    HighBits(x, 0, x, y, y * Exp2(k), k);
  }

  /** A word shifted left by k, named so that proofs by bits can hide the product. */
  function Shifted(x: nat, k: nat): nat {
    Exp2(k) * x
  }

  lemma ShiftedNext(x: nat, k: nat)
    ensures Shifted(x, 0) == x && (k > 0 ==> Shifted(x, k) == 2 * Shifted(x, k - 1))
  {
    if k > 0 { MulAssociates(2, Exp2(k - 1), x); }
  }

  /** "or" and "and" with a multiple of 2^k act on the bits above k. */
  lemma HighBits(x: nat, q: nat, r: nat, y: nat, z: nat, k: nat)
    requires x == Exp2(k) * q + r && r < Exp2(k) && z == Exp2(k) * y
    ensures Or(x, z) == r + Exp2(k) * Or(q, y)
    ensures And(x, z) == Exp2(k) * And(q, y)
  {
    hide Or, And, Exp2;
    HighBitsOf(x, q, r, y, k);
  }

  lemma {:induction false} HighBitsOf(x: nat, q: nat, r: nat, y: nat, k: nat)
    requires x == Shifted(q, k) + r && r < Exp2(k)
    ensures Or(x, Shifted(y, k)) == r + Shifted(Or(q, y), k)
    ensures And(x, Shifted(y, k)) == Shifted(And(q, y), k)
    decreases k
  {
    hide Or, And, Exp2, Shifted;
    ShiftedNext(q, k); ShiftedNext(y, k); ShiftedNext(Or(q, y), k); ShiftedNext(And(q, y), k);
    if k == 0 {
      Exp2Small();
    } else {
      Exp2Next(k);
      HighBitsOf(x / 2, q, r / 2, y, k - 1);
      OrEven(x, Shifted(y, k - 1));
      AndEven(x, Shifted(y, k - 1));
    }
  }

  /** "and" splits at any bit position. */
  lemma AndSplit(x: nat, q: nat, r: nat, m: nat, s: nat, t: nat, k: nat)
    requires x == Exp2(k) * q + r && r < Exp2(k)
    requires m == Exp2(k) * s + t && t < Exp2(k)
    ensures And(x, m) == And(r, t) + Exp2(k) * And(q, s)
  {
    hide And, Exp2;
    AndSplitOf(x, q, r, m, s, t, k);
  }

  lemma {:induction false} AndSplitOf(x: nat, q: nat, r: nat, m: nat, s: nat, t: nat, k: nat)
    requires x == Shifted(q, k) + r && r < Exp2(k) && m == Shifted(s, k) + t && t < Exp2(k)
    ensures And(x, m) == And(r, t) + Shifted(And(q, s), k)
    decreases k
  {
    hide And, Exp2, Shifted;
    ShiftedNext(q, k); ShiftedNext(s, k); ShiftedNext(And(q, s), k);
    if k == 0 {
      Exp2Small();
      AndBound(0, 0);
    } else {
      Exp2Next(k);
      AndSplitOf(x / 2, q, r / 2, m / 2, s, t / 2, k - 1);
      AndBits(x, m); AndBits(r, t);
    }
  }

  lemma AndBits(x: nat, y: nat)
    ensures And(x, y) == (if x % 2 == 1 && y % 2 == 1 then 1 else 0) + 2 * And(x / 2, y / 2)
  {
  }

  lemma {:induction false} AndBound(x: nat, y: nat)
    ensures And(x, y) <= x && And(x, y) <= y
  {
    if x == 0 || y == 0 {
    } else {
      AndBound(x / 2, y / 2);
    }
  }

  lemma AndEven(x: nat, z: nat)
    ensures And(x, 2 * z) == 2 * And(x / 2, z)
  {
  }

  lemma {:induction false} XorBits(x: nat, y: nat)
    ensures Xor(x, y) % 2 == (x + y) % 2 && Xor(x, y) / 2 == Xor(x / 2, y / 2)
  {
  }

  /** Two equal masks cancel. */
  lemma {:induction false} XorCancel(x: nat, y: nat)
    ensures Xor(x, Xor(x, y)) == y
  {
    hide Xor;
    if x == 0 || y == 0 {
      XorSelf(x);
      XorNone(x); XorNone(y);
    } else {
      XorBits(x, y);
      XorCancel(x / 2, y / 2);
      XorBits(x, Xor(x, y));
    }
  }

  lemma XorNone(x: nat)
    ensures Xor(x, 0) == x && Xor(0, x) == x
  {
  }

  lemma {:induction false} XorSelf(x: nat)
    ensures Xor(x, x) == 0
  {
    if x == 0 {
    } else {
      XorSelf(x / 2);
    }
  }

  lemma {:induction false} XorCommutes(x: nat, y: nat)
    ensures Xor(x, y) == Xor(y, x)
  {
    if x == 0 || y == 0 {
    } else {
      XorCommutes(x / 2, y / 2);
    }
  }

  lemma {:induction false} XorBound(x: nat, y: nat, k: nat)
    requires x < Exp2(k) && y < Exp2(k)
    ensures Xor(x, y) < Exp2(k)
  {
    if k == 0 {
    } else {
      XorBits(x, y);
      XorBound(x / 2, y / 2, k - 1);
    }
  }

  lemma {:induction false} OrCommutes(x: nat, y: nat)
    ensures Or(x, y) == Or(y, x)
  {
    if x == 0 || y == 0 {
    } else {
      OrCommutes(x / 2, y / 2);
    }
  }

  lemma {:induction false} AndCommutes(x: nat, y: nat)
    ensures And(x, y) == And(y, x)
  {
    if x == 0 || y == 0 {
    } else {
      AndCommutes(x / 2, y / 2);
    }
  }

  // ----- little-endian byte strings ---------------------------------------------------

  /** The number a little-endian byte string stands for. */
  function LE(s: seq<Byte>): nat {
    if s == [] then 0 else s[0] + 256 * LE(s[1..])
  }

  lemma {:induction false} LEConcat(s: seq<Byte>, t: seq<Byte>)
    ensures LE(s + t) == LE(s) + Exp2(8 * |s|) * LE(t)
  {
    if s == [] {
      assert s + t == t;
    } else {
      assert (s + t)[1..] == s[1..] + t;
      LEConcat(s[1..], t);
      Exp2Words();
      Exp2Add(8, 8 * |s[1..]|);
      MulAssociates(256, Exp2(8 * |s[1..]|), LE(t));
    }
  }

  lemma MulAssociates(a: int, b: int, c: int)
    ensures (a * b) * c == a * (b * c)
  {
  }

  lemma {:induction false} LEBound(s: seq<Byte>)
    ensures LE(s) < Exp2(8 * |s|)
  {
    hide Exp2;
    if s == [] {
      Exp2Small();
    } else {
      LEBound(s[1..]);
      Exp2Words();
      Exp2Add(8, 8 * |s[1..]|);
      assert 256 * (LE(s[1..]) + 1) <= 256 * Exp2(8 * |s[1..]|);
    }
  }

  /** Equal numbers on equally many bytes are equal byte for byte. */
  lemma {:induction false} LEInjective(s: seq<Byte>, t: seq<Byte>)
    requires |s| == |t| && LE(s) == LE(t)
    ensures s == t
  {
    if s == [] {
    } else {
      assert LE(s) == s[0] + 256 * LE(s[1..]) && LE(t) == t[0] + 256 * LE(t[1..]);
      hide LE;
      assert s[0] == t[0] && LE(s[1..]) == LE(t[1..]);
      LEInjective(s[1..], t[1..]);
      assert s == [s[0]] + s[1..] && t == [t[0]] + t[1..];
    }
  }

  /** Quotients compose. */
  lemma DivDiv(x: nat, m: nat, n: nat)
    requires m > 0 && n > 0
    ensures m * n > 0 && x / (m * n) == (x / m) / n
  {
    var q, r := x / m, x % m;
    var q', r' := q / n, q % n;
    MulMonotone(m, r' + 1, n);
    assert m * (r' + 1) == m * r' + m;
    assert m * q == m * (n * q') + m * r' by { assert q == n * q' + r'; Distribute(m, n * q', r'); }
    MulAssociates(m, n, q');
    ModUnique(x, m * n, q', m * r' + r);
  }

  lemma MulMonotone(m: nat, a: int, b: int)
    requires a <= b
    ensures m * a <= m * b
  {
  }

  lemma Distribute(m: int, a: int, b: int)
    ensures m * (a + b) == m * a + m * b
  {
  }

  /** Byte m of a little-endian string sits at bit 8m. */
  lemma {:induction false} LEByte(s: seq<Byte>, m: nat)
    requires m < |s|
    ensures LE(s) / Exp2(8 * m) % 256 == s[m]
  {
    assert s == s[..m] + s[m..];
    LEConcat(s[..m], s[m..]);
    LEBound(s[..m]);
    var hi := LE(s[m..]);
    ModUnique(LE(s), Exp2(8 * m), hi, LE(s[..m]));
    assert hi == s[m] + 256 * LE(s[m..][1..]);
  }

  /** `b << k`, where weight is 2^k. */
  function Shl(b: nat, weight: nat): nat {
    b * weight
  }

  lemma OneByte(b: Byte)
    ensures LE([b]) == b
  {
    assert LE([b][1..]) == 0;
  }

  lemma {:induction false} OrAppend(acc: nat, s: seq<Byte>, b: Byte)
    requires acc == LE(s)
    ensures Or(acc, Shl(b, Exp2(8 * |s|))) == LE(s + [b])
  {
    hide Or, Exp2, LE;
    LEBound(s);
    OrDisjoint(acc, b, 8 * |s|);
    LEConcat(s, [b]);
    OneByte(b);
  }

  /** The k low bytes of x. */
  function LowBytes(x: nat, k: nat): (b: seq<Byte>)
    ensures |b| == k
  {
    if k == 0 then [] else [x % 256] + LowBytes(x / 256, k - 1)
  }

  /** The remainder by a product, digit by digit. */
  lemma ModSplit(x: nat, m: nat, n: nat)
    requires m > 0 && n > 0
    ensures m * n > 0 && x % (m * n) == x % m + m * (x / m % n)
  {
    var q, r := x / m, x % m;
    var q', r' := q / n, q % n;
    MulMonotone(m, r' + 1, n);
    Distribute(m, r', 1);
    Distribute(m, n * q', r');
    MulAssociates(m, n, q');
    ModUnique(x, m * n, q', r + m * r');
  }

  lemma {:induction false} LowBytesMod(x: nat, k: nat)
    ensures LE(LowBytes(x, k)) == x % Exp2(8 * k)
  {
    hide Exp2;
    if k == 0 {
      Exp2Small();
    } else {
      Exp2Words();
      Exp2Add(8, 8 * (k - 1));
      LowBytesMod(x / 256, k - 1);
      ModSplit(x, 256, Exp2(8 * (k - 1)));
      assert LowBytes(x, k)[1..] == LowBytes(x / 256, k - 1);
    }
  }

  lemma LowBytesValue(x: nat, k: nat)
    requires x < Exp2(8 * k)
    ensures LE(LowBytes(x, k)) == x
  {
    hide Exp2;
    LowBytesMod(x, k);
    ModUnique(x, Exp2(8 * k), 0, x);
  }
}
