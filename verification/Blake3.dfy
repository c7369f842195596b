/** Streaming BLAKE3 (kernel/crypto/blake3.c) against the one-shot form of the package index
    (tools/gen_index.py). The compression function is any function of chaining value, padded block,
    block length and flags to 16 words. */
module Blake3 {
  import opened Words

  const BLOCK_LEN: nat := 64
  const CHUNK_START: nat := 1
  const CHUNK_END: nat := 2
  const ROOT: nat := 8

  function IV(): seq<nat> {
    [0x6A09E667, 0xBB67AE85, 0x3C6EF372, 0xA54FF53A, 0x510E527F, 0x9B05688C, 0x1F83D9AB, 0x5BE0CD19]
  }

  type Compress = f: (seq<nat>, seq<Byte>, nat, nat) -> seq<nat> | forall c, b, n, g :: |f(c, b, n, g)| == 16
    witness (c: seq<nat>, b: seq<Byte>, n: nat, g: nat) => seq(16, _ => 0)

  function Pad(s: seq<Byte>): (r: seq<Byte>)
    requires |s| <= BLOCK_LEN
    ensures |r| == BLOCK_LEN
  {
    s + seq(BLOCK_LEN - |s|, _ => 0)
  }

  /** The flags of a block. */
  function Flags(started: bool, last: bool): nat {
    (if started then 0 else CHUNK_START) + (if last then CHUNK_END + ROOT else 0)
  }

  /** A block that is not the last. */
  function Middle(f: Compress, cv: seq<nat>, started: bool, block: seq<Byte>): seq<nat>
    requires |block| <= BLOCK_LEN
  {
    f(cv, Pad(block), |block|, Flags(started, false))[..8]
  }

  /** The words of the hash: every block but the last is folded into the chaining value, and the
      last, which is empty only for the empty message, gives the result. */
  function Hash(f: Compress, cv: seq<nat>, started: bool, data: seq<Byte>): (r: seq<nat>)
    ensures |r| == 16
    decreases |data|
  {
    if |data| <= BLOCK_LEN then f(cv, Pad(data), |data|, Flags(started, true))
    else Hash(f, Middle(f, cv, started, data[..BLOCK_LEN]), true, data[BLOCK_LEN..])
  }

  /** The 32 bytes of the first eight words. */
  function Digest(w: seq<nat>): (r: seq<Byte>)
    requires |w| == 16
    ensures |r| == 32
  {
    seq(32, i requires 0 <= i < 32 => LowBytes(w[i / 4], 4)[i % 4])
  }

  /** The chaining value after whole blocks. */
  function Chain(f: Compress, cv: seq<nat>, started: bool, done: seq<Byte>): seq<nat>
    requires |done| % BLOCK_LEN == 0
    decreases |done|
  {
    if done == [] then cv else Chain(f, Middle(f, cv, started, done[..BLOCK_LEN]), true, done[BLOCK_LEN..])
  }

  /** Hashing can pause before any block that turns out not to be the first of nothing. */
  lemma {:induction false} HashChain(f: Compress, cv: seq<nat>, started: bool, done: seq<Byte>, tail: seq<Byte>)
    requires |done| % BLOCK_LEN == 0 && (tail != [] || done == [])
    ensures Hash(f, cv, started, done + tail) == Hash(f, Chain(f, cv, started, done), started || done != [], tail)
    decreases |done|
  {
    if done == [] {
      assert done + tail == tail;
    } else {
      var all := done + tail;
      assert all[..BLOCK_LEN] == done[..BLOCK_LEN] && all[BLOCK_LEN..] == done[BLOCK_LEN..] + tail;
      HashChain(f, Middle(f, cv, started, done[..BLOCK_LEN]), true, done[BLOCK_LEN..], tail);
    }
  }

  lemma {:induction false} ChainMore(f: Compress, cv: seq<nat>, started: bool, done: seq<Byte>, block: seq<Byte>)
    requires |done| % BLOCK_LEN == 0 && |block| == BLOCK_LEN
    ensures (|done| + |block|) % BLOCK_LEN == 0
    ensures Chain(f, cv, started, done + block) == Middle(f, Chain(f, cv, started, done), started || done != [], block)
    decreases |done|
  {
    var all := done + block;
    if done == [] {
      assert all == block && all[..BLOCK_LEN] == block && all[BLOCK_LEN..] == [];
    } else {
      assert all[..BLOCK_LEN] == done[..BLOCK_LEN] && all[BLOCK_LEN..] == done[BLOCK_LEN..] + block;
      ChainMore(f, Middle(f, cv, started, done[..BLOCK_LEN]), true, done[BLOCK_LEN..], block);
    }
  }

  /** kernel_blake3. */
  method OneShot(f: Compress, data: seq<Byte>) returns (out: seq<Byte>)
    ensures out == Digest(Hash(f, IV(), false, data))
  {
    hide Digest, Chain, Pad;
    var chaining, offset, first, last := IV(), 0, true, false;
    var words := seq(16, _ => 0);
    while !last && (offset < |data| || first)
      invariant offset <= |data| && (first ==> offset == 0) && |words| == 16
      invariant !last ==> (offset < |data| || first)
      invariant last ==> words == Hash(f, IV(), false, data)
      invariant !last ==> Hash(f, chaining, offset != 0, data[offset..]) == Hash(f, IV(), false, data)
      decreases if last then 0 else 1, |data| - offset, if first then 1 else 0
    {
      first := false;
      var remaining := |data| - offset;
      var size := if remaining < BLOCK_LEN then remaining else BLOCK_LEN;
      last := offset + size >= |data|;
      ghost var tail := data[offset..];
      assert tail[..size] == data[offset..offset + size] && tail[size..] == data[offset + size..];
      words := f(chaining, Pad(data[offset..offset + size]), size, Flags(offset != 0, last));
      if last {
        assert tail[..size] == tail;
      } else {
        chaining := words[..8];
        offset := offset + size;
      }
    }
    out := Digest(words);
  }

  /** blake3_ctx_t. */
  class Context {
    const f: Compress
    var chaining: seq<nat>
    const pending: array<Byte>
    var pendingLen: nat
    var started: bool
    ghost var fed: seq<Byte>

    /** Everything fed so far is whole blocks folded into `chaining` and then the pending bytes, of
        which there are some unless nothing was fed. */
    ghost predicate Valid()
      reads this, pending
    {
      && pending.Length == BLOCK_LEN && (pendingLen == 0 ==> fed == [])
      && Rest(f, chaining, pending, pendingLen, started, fed)
    }

    /** blake3_init. */
    constructor (compress: Compress)
      ensures Valid() && fresh(pending) && f == compress && fed == []
    {
      f, chaining, pendingLen, started, fed := compress, IV(), 0, false, [];
      pending := new Byte[BLOCK_LEN](_ => 0);
    }

    /** The case in which a full block is pending and more data has come: blake3_compress_intermediate. */
    method Flush()
      requires Valid() && pendingLen == BLOCK_LEN
      modifies this`chaining, this`started, this`pendingLen
      ensures pendingLen == 0 && Rest(f, chaining, pending, pendingLen, started, fed)
    {
      hide Chain;
      ghost var done := fed[..|fed| - BLOCK_LEN];
      ChainMore(f, IV(), false, done, pending[..]);
      assert pending[..] == pending[..pendingLen] && fed == done + pending[..];
      chaining := Middle(f, chaining, started, pending[..]);
      started, pendingLen := true, 0;
      assert fed[..|fed| - pendingLen] == fed && fed[|fed| - pendingLen..] == [];
    }

    /** blake3_update. */
    method Update(data: seq<Byte>)
      requires Valid()
      modifies this, pending
      ensures Valid() && fed == old(fed) + data
    {
      hide Chain, Rest;
      var off := 0;
      assert old(fed) + data[..0] == old(fed);
      while off < |data|
        invariant off <= |data| && Valid() && fed == old(fed) + data[..off]
      {
        if pendingLen == BLOCK_LEN { Flush(); }
        RestFits(f, chaining, pending, pendingLen, started, fed);
        var space := BLOCK_LEN - pendingLen;
        var take := if |data| - off < space then |data| - off else space;
        Append(data[off..off + take]);
        assert data[..off + take] == data[..off] + data[off..off + take];
        off := off + take;
      }
      assert data[..off] == data;
    }

    /** The memcpy of blake3_update. */
    method Append(chunk: seq<Byte>)
      requires chunk != [] && pending.Length == BLOCK_LEN && pendingLen + |chunk| <= BLOCK_LEN
      requires Rest(f, chaining, pending, pendingLen, started, fed)
      modifies this`pendingLen, this`fed, pending
      ensures Valid() && fed == old(fed) + chunk
    {
      hide Chain;
      var i := 0;
      while i < |chunk|
        invariant i <= |chunk| && forall j :: 0 <= j < i ==> pending[pendingLen + j] == chunk[j]
        invariant forall j :: 0 <= j < pendingLen ==> pending[j] == old(pending[j])
        modifies pending
      {
        pending[pendingLen + i] := chunk[i];
        i := i + 1;
      }
      ghost var done := fed[..|fed| - pendingLen];
      assert pending[..pendingLen + |chunk|] == old(pending[..pendingLen]) + chunk;
      pendingLen, fed := pendingLen + |chunk|, fed + chunk;
      assert fed[..|fed| - pendingLen] == done;
      assert fed[|fed| - pendingLen..] == pending[..pendingLen];
    }

    /** blake3_final. */
    method Final() returns (out: seq<Byte>)
      requires Valid()
      ensures out == Digest(Hash(f, IV(), false, fed))
    {
      hide Chain, Digest, Pad;
      ghost var done := fed[..|fed| - pendingLen];
      HashChain(f, IV(), false, done, pending[..pendingLen]);
      assert fed == done + pending[..pendingLen];
      out := Digest(f(chaining, Pad(pending[..pendingLen]), pendingLen, Flags(started, true)));
    }
  }

  /** What holds of a context before more bytes are appended. */
  ghost predicate Rest(f: Compress, chaining: seq<nat>, pending: array<Byte>, pendingLen: nat, started: bool,
      fed: seq<Byte>)
    reads pending
  {
    && pendingLen <= pending.Length && pendingLen <= |fed|
    && var done := fed[..|fed| - pendingLen];
       && |done| % BLOCK_LEN == 0 && pending[..pendingLen] == fed[|fed| - pendingLen..]
       && chaining == Chain(f, IV(), false, done) && (started <==> done != [])
  }

  lemma RestFits(f: Compress, chaining: seq<nat>, pending: array<Byte>, pendingLen: nat, started: bool, fed: seq<Byte>)
    requires Rest(f, chaining, pending, pendingLen, started, fed)
    ensures pendingLen <= pending.Length
  {
  }

  /** However a message is cut up, streaming it gives the one-shot digest. */
  method Streamed(f: Compress, parts: seq<seq<Byte>>) returns (out: seq<Byte>, whole: seq<Byte>)
    ensures out == whole == Digest(Hash(f, IV(), false, Concat(parts)))
  {
    hide Hash, Digest, Chain;
    var c := new Context(f);
    var i := 0;
    assert parts[..0] == [];
    while i < |parts|
      invariant i <= |parts| && c.Valid() && c.f == f && c.fed == Concat(parts[..i]) && fresh(c) && fresh(c.pending)
    {
      c.Update(parts[i]);
      assert parts[..i + 1][..i] == parts[..i];
      i := i + 1;
    }
    assert parts[..i] == parts;
    out := c.Final();
    whole := OneShot(f, Concat(parts));
  }
}
