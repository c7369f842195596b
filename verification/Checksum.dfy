/** The Internet checksum (kernel/net/net.c, and section 1 of RFC 1071). */
module Checksum {
  import opened Words

  /** The sum of the 16-bit words, an odd last byte counting as a high byte. */
  function Sum(s: seq<Byte>): nat {
    if s == [] then 0
    else if |s| == 1 then 256 * Wide(s[0])
    else 256 * Wide(s[0]) + s[1] + Sum(s[2..])
  }

  function Wide(b: Byte): nat {
    b
  }

  /** The one's-complement value of a sum: congruent modulo 65535, and 0 only for 0. */
  function Folded(sum: nat): (r: nat)
    ensures r < TWO16 && (r == 0 <==> sum == 0) && r % 65535 == sum % 65535
  {
    if sum == 0 then 0 else if sum % 65535 == 0 then 65535 else sum % 65535
  }

  lemma {:induction false} SumBound(s: seq<Byte>)
    ensures Sum(s) <= (|s| + 1) / 2 * 65535
    decreases |s|
  {
    if |s| < 2 {
    } else {
      SumBound(s[2..]);
    }
  }

  lemma {:induction false} SumConcat(a: seq<Byte>, b: seq<Byte>)
    requires |a| % 2 == 0
    ensures Sum(a + b) == Sum(a) + Sum(b)
    decreases |a|
  {
    if a == [] {
      assert a + b == b;
    } else {
      assert (a + b)[2..] == a[2..] + b;
      SumConcat(a[2..], b);
    }
  }

  /** The word loop: for data of at most 65535 bytes the 32-bit accumulator does not overflow. */
  method AddWords(start: nat, data: seq<Byte>) returns (sum: nat)
    requires |data| < TWO16 && start <= 6 * 65535
    ensures sum == start + Sum(data) && sum < TWO32
  {
    sum := start;
    var p, len := 0, |data|;
    SumBound(data);
    assert data[0..] == data;
    while len > 1
      invariant 0 <= p && 0 <= len && p + len == |data| && sum + Sum(data[p..]) == start + Sum(data)
    {
      assert data[p..][2..] == data[p + 2..];
      sum := (sum + (256 * Wide(data[p]) + data[p + 1])) % TWO32;
      p, len := p + 2, len - 2;
    }
    if len == 1 {
      assert data[p..] == [data[p]];
      sum := (sum + 256 * Wide(data[p])) % TWO32;
    }
  }

  /** The fold loop. */
  method Fold(start: nat) returns (sum: nat)
    requires start < TWO32
    ensures sum == Folded(start)
  {
    sum := start;
    while sum / TWO16 != 0
      invariant sum < TWO32 && (sum == 0 <==> start == 0) && sum % 65535 == start % 65535
      decreases sum
    {
      Fewer(sum);
      sum := sum % TWO16 + sum / TWO16;
    }
    Unique(sum);
  }

  lemma Fewer(sum: nat)
    requires TWO16 <= sum < TWO32
    ensures var r := sum % TWO16 + sum / TWO16; 0 < r < sum && r % 65535 == sum % 65535
  {
    var q, r := sum / TWO16, sum % TWO16;
    assert sum == 65535 * q + (q + r);
    var k, m := (q + r) / 65535, (q + r) % 65535;
    ModUnique(sum, 65535, q + k, m);
  }

  lemma Unique(sum: nat)
    requires sum < TWO16
    ensures sum == Folded(sum)
  {
    if sum < 65535 { ModUnique(sum, 65535, 0, sum); }
  }

  /** The checksum of some data. */
  function Checksum(data: seq<Byte>): nat {
    65535 - Folded(Sum(data))
  }

  /** inet_cksum. */
  method InetCksum(data: seq<Byte>) returns (c: nat)
    requires |data| < TWO16
    ensures c == Checksum(data)
  {
    var sum := AddWords(0, data);
    sum := Fold(sum);
    c := 65535 - sum;
  }

  /** The pseudo-header: addresses, a zero byte, protocol and segment length. */
  function Pseudo(src: nat, dst: nat, proto: Byte, segLen: nat): (r: seq<Byte>)
    requires src < TWO32 && dst < TWO32 && segLen < TWO16
    ensures |r| == 12
  {
    Big16(src / TWO16) + Big16(src % TWO16) + Big16(dst / TWO16) + Big16(dst % TWO16) + [0, proto] + Big16(segLen)
  }

  function Big16(x: nat): (r: seq<Byte>)
    requires x < TWO16
    ensures |r| == 2
  {
    [x / 256, x % 256]
  }

  lemma SumTwo(a: Byte, b: Byte)
    ensures Sum([a, b]) == 256 * Wide(a) + b
  {
    assert [a, b][2..] == [];
  }

  lemma SumBig16(x: nat)
    requires x < TWO16
    ensures Sum(Big16(x)) == x
  {
    SumTwo(x / 256, x % 256);
  }

  lemma SumPseudo(src: nat, dst: nat, proto: Byte, segLen: nat)
    requires src < TWO32 && dst < TWO32 && segLen < TWO16
    ensures Sum(Pseudo(src, dst, proto, segLen)) ==
        src / TWO16 + src % TWO16 + dst / TWO16 + dst % TWO16 + proto + segLen
  {
    hide Sum, Big16;
    var a, b, c, d := Big16(src / TWO16), Big16(src % TWO16), Big16(dst / TWO16), Big16(dst % TWO16);
    var e, f := [0, proto], Big16(segLen);
    SumBig16(src / TWO16); SumBig16(src % TWO16); SumBig16(dst / TWO16); SumBig16(dst % TWO16);
    SumTwo(0, proto); SumBig16(segLen);
    SumConcat(a, b); SumConcat(a + b, c); SumConcat(a + b + c, d);
    SumConcat(a + b + c + d, e); SumConcat(a + b + c + d + e, f);
  }

  /** inet_cksum_pseudo is the checksum of the pseudo-header followed by the data. */
  method InetCksumPseudo(src: nat, dst: nat, proto: Byte, segLen: nat, data: seq<Byte>) returns (c: nat)
    requires src < TWO32 && dst < TWO32 && segLen < TWO16 && |data| < TWO16
    ensures c == Checksum(Pseudo(src, dst, proto, segLen) + data)
  {
    hide Sum, Pseudo;
    SumPseudo(src, dst, proto, segLen);
    SumConcat(Pseudo(src, dst, proto, segLen), data);
    var sum := src / TWO16 + src % TWO16 + dst / TWO16 + dst % TWO16 + proto + segLen;
    sum := AddWords(sum, data);
    sum := Fold(sum);
    c := 65535 - sum;
  }

  /** Storing the checksum, big-endian, in a field that was zero makes the checksum zero. */
  lemma VerifiesToZero(before: seq<Byte>, after: seq<Byte>)
    requires |before| % 2 == 0
    ensures Checksum(before + Big16(Checksum(before + [0, 0] + after)) + after) == 0
  {
    hide Sum, Big16;
    var zero := before + [0, 0] + after;
    var c := Checksum(zero);
    var full := before + Big16(c) + after;
    SumTwo(0, 0); SumBig16(c);
    SumConcat(before, [0, 0]); SumConcat(before + [0, 0], after);
    SumConcat(before, Big16(c)); SumConcat(before + Big16(c), after);
    assert Sum(full) == Sum(zero) + c;
    Complement(Sum(zero));
  }

  lemma Complement(sum: nat)
    ensures Folded(sum + (65535 - Folded(sum))) == 65535
  {
    var f := Folded(sum);
    var q := sum / 65535;
    if f != 65535 && sum != 0 { ModUnique(sum + (65535 - f), 65535, q + 1, 0); }
  }
}
