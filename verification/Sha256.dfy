/** Streaming SHA-256 (kernel/crypto/sha256.c) against the fold of the compression function over the
    message padded as in section 5.1.1 of FIPS 180-4. The compression function is any function of
    state and block to eight words. */
module Sha256 {
  import opened Words

  const BLOCK_LEN: nat := 64

  function IV(): seq<nat> {
    [0x6a09e667, 0xbb67ae85, 0x3c6ef372, 0xa54ff53a, 0x510e527f, 0x9b05688c, 0x1f83d9ab, 0x5be0cd19]
  }

  type Transform = f: (seq<nat>, seq<Byte>) -> seq<nat> | forall s, b :: |f(s, b)| == 8
    witness (s: seq<nat>, b: seq<Byte>) => seq(8, _ => 0)

  // ----- the standard ------------------------------------------------------------------------------

  function Zeros(n: nat): (r: seq<Byte>)
    ensures |r| == n && forall i :: 0 <= i < n ==> r[i] == 0
  {
    seq(n, _ => 0)
  }

  /** Eight bytes, most significant first. */
  function Big64(x: nat): (r: seq<Byte>)
    ensures |r| == 8
  {
    seq(8, i requires 0 <= i < 8 => x / Weight(7 - i) % 256)
  }

  function Weight(k: nat): (w: nat)
    ensures w > 0
  {
    if k == 0 then 1 else 256 * Weight(k - 1)
  }

  /** How many zero bytes follow the byte 0x80. */
  function Gap(n: nat): (k: nat)
    ensures (n + 1 + k + 8) % BLOCK_LEN == 0 && k < BLOCK_LEN
  {
    (119 - n % BLOCK_LEN) % BLOCK_LEN
  }

  /** The padded message; the length in bits is reduced modulo 2^64, which below 2^61 bytes is no
      reduction. */
  function Padded(m: seq<Byte>): (r: seq<Byte>)
    ensures |r| % BLOCK_LEN == 0
  {
    m + [0x80] + Zeros(Gap(|m|)) + Big64(8 * |m| % TWO64)
  }

  /** The state after all blocks of a message. */
  function Fold(f: Transform, state: seq<nat>, m: seq<Byte>): (r: seq<nat>)
    requires |m| % BLOCK_LEN == 0 && |state| == 8
    ensures |r| == 8
    decreases |m|
  {
    if m == [] then state else Fold(f, f(state, m[..BLOCK_LEN]), m[BLOCK_LEN..])
  }

  /** The words, most significant byte first. */
  function Digest(w: seq<nat>): (r: seq<Byte>)
    requires |w| == 8
    ensures |r| == 32
  {
    seq(32, i requires 0 <= i < 32 => w[i / 4] / Weight(3 - i % 4) % 256)
  }

  function Sha(f: Transform, m: seq<Byte>): seq<Byte> {
    Digest(Fold(f, IV(), Padded(m)))
  }

  lemma {:induction false} FoldMore(f: Transform, state: seq<nat>, m: seq<Byte>, block: seq<Byte>)
    requires |m| % BLOCK_LEN == 0 && |block| == BLOCK_LEN && |state| == 8
    ensures (|m| + |block|) % BLOCK_LEN == 0 && Fold(f, state, m + block) == f(Fold(f, state, m), block)
    decreases |m|
  {
    var all := m + block;
    if m == [] {
      assert all == block && all[..BLOCK_LEN] == block && all[BLOCK_LEN..] == [];
    } else {
      assert all[..BLOCK_LEN] == m[..BLOCK_LEN] && all[BLOCK_LEN..] == m[BLOCK_LEN..] + block;
      FoldMore(f, f(state, m[..BLOCK_LEN]), m[BLOCK_LEN..], block);
    }
  }

  /** Below 2^61 bytes the length field holds the length in bits. */
  lemma LengthFits(m: seq<Byte>)
    requires |m| < 0x2000_0000_0000_0000
    ensures 8 * |m| % TWO64 == 8 * |m|
  {
  }

  // ----- the code --------------------------------------------------------------------------------------

  class Context {
    const f: Transform
    const data: array<Byte>
    var datalen: nat
    var bitlen: nat
    var state: seq<nat>
    ghost var fed: seq<Byte>

    /** What has been fed is whole blocks, folded into the state and counted, and the bytes in data. */
    ghost predicate Valid()
      reads this, data
    {
      data.Length == BLOCK_LEN && datalen < BLOCK_LEN && Buffered(f, state, data[..datalen], bitlen, fed)
    }

    /** sha256_init. */
    constructor (transform: Transform)
      ensures Valid() && fresh(data) && f == transform && fed == []
    {
      f, datalen, bitlen, state, fed := transform, 0, 0, IV(), [];
      data := new Byte[BLOCK_LEN](_ => 0);
    }

    /** sha256_update. */
    method Update(bytes: seq<Byte>)
      requires Valid()
      modifies this, data
      ensures Valid() && fed == old(fed) + bytes
    {
      hide Buffered;
      assert old(fed) + bytes[..0] == old(fed);
      for i := 0 to |bytes|
        invariant Valid() && fed == old(fed) + bytes[..i]
      {
        ghost var before := data[..datalen];
        data[datalen] := bytes[i];
        datalen := datalen + 1;
        assert data[..datalen] == before + [bytes[i]];
        assert bytes[..i + 1] == bytes[..i] + [bytes[i]];
        BufferMore(f, state, before, bitlen, fed, bytes[i]);
        fed := fed + [bytes[i]];
        if datalen == BLOCK_LEN {
          assert data[..] == data[..datalen];
          state, bitlen, datalen := f(state, data[..]), (bitlen + 512) % TWO64, 0;
          assert data[..0] == [];
        }
      }
      assert bytes[..|bytes|] == bytes;
    }

    /** Store zero bytes. */
    method Clear(lo: nat, hi: nat)
      requires lo <= hi <= data.Length
      modifies data
      ensures data[..] == old(data[..lo]) + Zeros(hi - lo) + old(data[hi..])
    {
      var i := lo;
      while i < hi
        invariant lo <= i <= hi && (forall j :: lo <= j < i ==> data[j] == 0)
        invariant forall j :: 0 <= j < data.Length && !(lo <= j < i) ==> data[j] == old(data[j])
      {
        data[i] := 0;
        i := i + 1;
      }
    }

    /** sha256_final. */
    method Final() returns (hash: seq<Byte>)
      requires Valid()
      modifies this`state, this`bitlen, data
      ensures hash == Sha(f, fed)
    {
      hide Fold, Digest, Big64, Buffered, Gap;
      ghost var rest := data[..datalen];
      BufferFits(f, state, rest, bitlen, fed);
      ghost var done := fed[..|fed| - datalen];
      ghost var before := state;
      var i := datalen;
      data[i] := 0x80;
      i := i + 1;
      if datalen < 56 {
        Clear(i, 56);
        assert data[..56] == rest + [0x80] + Zeros(55 - datalen);
      } else {
        Clear(i, 64);
        assert data[..] == rest + [0x80] + Zeros(63 - datalen);
        state := f(state, data[..]);
        Clear(0, 56);
        assert data[..56] == Zeros(56);
      }
      bitlen := (bitlen + datalen * 8) % TWO64;
      ghost var head := data[..56];
      StoreLength();
      assert data[..] == head + Big64(bitlen);
      Finish(f, before, rest, fed, old(bitlen), bitlen, data[..], state);
      state := f(state, data[..]);
      hash := Digest(state);
    }

    method StoreLength()
      requires data.Length == BLOCK_LEN
      modifies data
      ensures data[..] == old(data[..56]) + Big64(bitlen)
    {
      for i := 0 to 8
        invariant forall j :: 0 <= j < i ==> data[56 + j] == Big64(bitlen)[j]
        invariant forall j :: 0 <= j < 56 ==> data[j] == old(data[j])
      {
        data[56 + i] := bitlen / Weight(7 - i) % 256;
      }
    }
  }

  ghost predicate Buffered(f: Transform, state: seq<nat>, rest: seq<Byte>, bitlen: nat, fed: seq<Byte>) {
    && |rest| <= |fed| && fed[|fed| - |rest|..] == rest
    && var done := fed[..|fed| - |rest|];
       |done| % BLOCK_LEN == 0 && |state| == 8 && state == Fold(f, IV(), done) && bitlen == 8 * |done| % TWO64
  }

  lemma BufferFits(f: Transform, state: seq<nat>, rest: seq<Byte>, bitlen: nat, fed: seq<Byte>)
    requires Buffered(f, state, rest, bitlen, fed)
    ensures |rest| <= |fed| && |state| == 8
  {
  }

  /** One more byte, and the transform when it fills the block. */
  lemma BufferMore(f: Transform, state: seq<nat>, rest: seq<Byte>, bitlen: nat, fed: seq<Byte>, b: Byte)
    requires Buffered(f, state, rest, bitlen, fed) && |rest| < BLOCK_LEN
    ensures Buffered(f, state, rest + [b], bitlen, fed + [b])
    ensures |rest| + 1 == BLOCK_LEN ==> Buffered(f, f(state, rest + [b]), [], (bitlen + 512) % TWO64, fed + [b])
  {
    hide Fold;
    var done, all := fed[..|fed| - |rest|], fed + [b];
    assert all[..|all| - |rest| - 1] == done && all[|all| - |rest| - 1..] == rest + [b];
    if |rest| + 1 == BLOCK_LEN {
      FoldMore(f, IV(), done, rest + [b]);
      assert all == done + (rest + [b]) && all[..|all|] == all && all[|all|..] == [];
      AddBits(8 * |done|, 512);
    }
  }

  lemma AddBits(x: nat, y: nat)
    ensures (x % TWO64 + y) % TWO64 == (x + y) % TWO64
  {
    var q, r := x / TWO64, x % TWO64;
    ModUnique(x + y, TWO64, q + (r + y) / TWO64, (r + y) % TWO64);
  }

  /** The last one or two blocks are the padded rest of the message. */
  lemma Finish(f: Transform, before: seq<nat>, rest: seq<Byte>, fed: seq<Byte>, was: nat, bits: nat, last: seq<Byte>,
      state: seq<nat>)
    requires |rest| < BLOCK_LEN && Buffered(f, before, rest, was, fed) && bits == (was + 8 * |rest|) % TWO64
    requires |rest| < 56 ==> state == before && last == rest + [0x80] + Zeros(55 - |rest|) + Big64(bits)
    requires |rest| >= 56 ==> state == f(before, rest + [0x80] + Zeros(63 - |rest|)) && last == Zeros(56) + Big64(bits)
    ensures |state| == 8 && f(state, last) == Fold(f, IV(), Padded(fed))
  {
    hide Fold, Big64;
    var done := fed[..|fed| - |rest|];
    assert fed == done + rest;
    AddBits(8 * |done|, 8 * |rest|);
    assert bits == 8 * |fed| % TWO64;
    GapOf(|done|, |rest|);
    if |rest| < 56 {
      assert Padded(fed) == done + last;
      FoldMore(f, IV(), done, last);
    } else {
      var first := rest + [0x80] + Zeros(63 - |rest|);
      assert Zeros(Gap(|fed|)) == Zeros(63 - |rest|) + Zeros(56);
      assert Padded(fed) == (done + first) + last;
      FoldMore(f, IV(), done, first);
      FoldMore(f, IV(), done + first, last);
    }
  }

  lemma GapOf(done: nat, rest: nat)
    requires done % BLOCK_LEN == 0 && rest < BLOCK_LEN
    ensures Gap(done + rest) == if rest < 56 then 55 - rest else 119 - rest
  {
    ModUnique(done + rest, BLOCK_LEN, done / BLOCK_LEN, rest);
  }

  /** However a message is cut up, the digest is that of the whole. */
  method Streamed(f: Transform, parts: seq<seq<Byte>>) returns (hash: seq<Byte>)
    ensures hash == Sha(f, Concat(parts))
  {
    hide Sha;
    var c := new Context(f);
    var i := 0;
    assert parts[..0] == [];
    while i < |parts|
      invariant i <= |parts| && c.Valid() && c.f == f && c.fed == Concat(parts[..i]) && fresh(c) && fresh(c.data)
    {
      c.Update(parts[i]);
      assert parts[..i + 1][..i] == parts[..i];
      i := i + 1;
    }
    assert parts[..i] == parts;
    hash := c.Final();
  }
}
