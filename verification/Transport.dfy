/** The code of the packet layer (userspace/bin/sshd_packet.c, and chacha20_xor of
    kernel/crypto/chacha20.c): buffers, loops over short reads and writes, sequence numbers. */
module Transport {
  import opened Words
  import opened Packets
  import Poly1305

  /** One direction of a stream socket: bytes come out in the order they went in, in pieces of any
      size. While the link is up no call fails. */
  class Link {
    var bytes: seq<Byte>
    var up: bool

    /** xsend. */
    method Xsend(chunk: seq<Byte>) returns (n: int)
      modifies this`bytes
      ensures n <= |chunk| && bytes == old(bytes) + (if n > 0 then chunk[..n] else []) && (up && chunk != [] ==> n > 0)
    {
      n :| n <= |chunk| && (up && chunk != [] ==> n > 0);
      if n > 0 { bytes := bytes + chunk[..n]; }
    }

    /** xrecv. */
    method Xrecv(max: nat) returns (n: int, chunk: seq<Byte>)
      modifies this`bytes
      ensures old(bytes) == chunk + bytes && |chunk| <= max && |chunk| == (if n > 0 then n else 0)
      ensures up && max > 0 && old(bytes) != [] ==> n > 0
    {
      n :| n <= max && n <= |bytes| && (up && max > 0 && bytes != [] ==> n > 0);
      chunk := if n > 0 then bytes[..n] else [];
      bytes := bytes[|chunk|..];
    }
  }

  /** send_all. */
  method SendAll(link: Link, buf: array<Byte>, len: nat) returns (ok: bool)
    requires len <= buf.Length
    modifies link`bytes
    ensures ok ==> link.bytes == old(link.bytes) + buf[..len]
    ensures link.up ==> ok
  {
    ghost var data := buf[..len];
    var off := 0;
    assert old(link.bytes) + data[..off] == old(link.bytes);
    while off < len
      invariant off <= len && link.bytes == old(link.bytes) + data[..off]
    {
      var chunk := if len - off > 4096 then 4096 else len - off;
      SubSlice(buf, 0, len, off, off + chunk);
      assert buf[0..len] == data;
      var n := link.Xsend(buf[off..off + chunk]);
      if n <= 0 { return false; }
      Extends(link.bytes, old(link.bytes), data, off, chunk, n);
      off := off + n;
    }
    assert data[..off] == data;
    ok := true;
  }

  /** A slice of a slice of a buffer. */
  lemma SubSlice(buf: array<Byte>, lo: nat, hi: nat, a: nat, b: nat)
    requires a <= b <= hi - lo && hi <= buf.Length
    ensures buf[lo + a..lo + b] == buf[lo..hi][a..b]
  {
    var s, t := buf[lo + a..lo + b], buf[lo..hi][a..b];
    forall i | 0 <= i < b - a ensures s[i] == t[i] {
      assert s[i] == buf[lo + a + i] && t[i] == buf[lo..hi][a + i];
    }
  }

  lemma Extends(now: seq<Byte>, was: seq<Byte>, data: seq<Byte>, off: nat, chunk: nat, n: nat)
    requires off + chunk <= |data| && n <= chunk && now == was + data[..off] + data[off..off + chunk][..n]
    ensures now == was + data[..off + n]
  {
    assert data[..off + n] == data[..off] + data[off..off + chunk][..n];
  }

  /** recv_exact. */
  method RecvExact(link: Link, buf: array<Byte>, at: nat, len: nat) returns (ok: bool)
    requires at + len <= buf.Length
    modifies link`bytes, buf
    ensures ok ==> old(link.bytes) == buf[at..at + len] + link.bytes
    ensures link.up && |old(link.bytes)| >= len ==> ok
    ensures buf[..at] == old(buf[..at]) && buf[at + len..] == old(buf[at + len..])
  {
    var off := 0;
    ghost var got := [];
    while off < len
      invariant off <= len && |got| == off && old(link.bytes) == got + link.bytes
      invariant forall i :: 0 <= i < off ==> buf[at + i] == got[i]
      invariant forall i :: 0 <= i < buf.Length && !(at <= i < at + len) ==> buf[i] == old(buf[i])
    {
      var max := if len - off > 4096 then 4096 else len - off;
      var n, chunk := link.Xrecv(max);
      if n <= 0 { return false; }
      Store(buf, at + off, chunk);
      got := got + chunk;
      off := off + n;
    }
    assert buf[at..at + len] == got;
    ok := true;
  }

  /** mcopy into a buffer. */
  method Store(buf: array<Byte>, at: nat, data: seq<Byte>)
    requires at + |data| <= buf.Length
    modifies buf
    ensures forall i :: 0 <= i < |data| ==> buf[at + i] == data[i]
    ensures forall i :: 0 <= i < buf.Length && !(at <= i < at + |data|) ==> buf[i] == old(buf[i])
  {
    var i := 0;
    while i < |data|
      invariant i <= |data| && forall j :: 0 <= j < i ==> buf[at + j] == data[j]
      invariant forall j :: 0 <= j < buf.Length && !(at <= j < at + i) ==> buf[j] == old(buf[j])
    {
      buf[at + i] := data[i];
      i := i + 1;
    }
  }

  /** chacha20_xor, in place. */
  method ChachaXor(f: BlockFn, buf: array<Byte>, at: nat, len: nat, key: seq<Byte>, counter: nat, nonce: seq<Byte>)
    requires at + len <= buf.Length && counter < TWO32
    modifies buf
    ensures buf[at..at + len] == XorStream(f, key, counter, nonce, old(buf[at..at + len]))
    ensures buf[..at] == old(buf[..at]) && buf[at + len..] == old(buf[at + len..])
  {
    hide XorByte;
    var off, left, count := 0, len, counter;
    while left > 0
      invariant off + left == len && (left > 0 ==> off % 64 == 0 && count == (counter + off / 64) % TWO32)
      invariant forall i :: 0 <= i < off ==>
          buf[at + i] == XorByte(old(buf[at + i]), KeyByte(f, key, counter, nonce, i))
      invariant forall i :: 0 <= i < buf.Length && !(at <= i < at + off) ==> buf[i] == old(buf[i])
    {
      var n := if left < 64 then left else 64;
      var block := f(key, count, nonce);
      var i := 0;
      while i < n
        invariant i <= n
        invariant forall j :: 0 <= j < off ==>
            buf[at + j] == XorByte(old(buf[at + j]), KeyByte(f, key, counter, nonce, j))
        invariant forall j :: 0 <= j < i ==> buf[at + off + j] == XorByte(old(buf[at + off + j]), block[j])
        invariant forall j :: 0 <= j < buf.Length && !(at <= j < at + off + i) ==> buf[j] == old(buf[j])
      {
        buf[at + off + i] := XorByte(buf[at + off + i], block[i]);
        i := i + 1;
      }
      BlockBytes(f, key, counter, nonce, off, count, block);
      NextCount(counter, off);
      count := (count + 1) % TWO32;
      off, left := off + n, left - n;
    }
  }

  lemma BlockBytes(f: BlockFn, key: seq<Byte>, counter: nat, nonce: seq<Byte>, off: nat, count: nat, block: seq<Byte>)
    requires off % 64 == 0 && count == (counter + off / 64) % TWO32 && block == f(key, count, nonce)
    ensures forall i :: off <= i < off + 64 ==> KeyByte(f, key, counter, nonce, i) == block[i - off]
  {
    forall i | off <= i < off + 64 ensures KeyByte(f, key, counter, nonce, i) == block[i - off] {
      ModUnique(i, 64, off / 64, i - off);
    }
  }

  lemma NextCount(counter: nat, off: nat)
    requires off % 64 == 0
    ensures ((counter + off / 64) % TWO32 + 1) % TWO32 == (counter + (off + 64) / 64) % TWO32
  {
    var c := counter + off / 64;
    var q, m := c / TWO32, c % TWO32;
    if m + 1 == TWO32 { ModUnique(c + 1, TWO32, q + 1, 0); } else { ModUnique(c + 1, TWO32, q, m + 1); }
  }

  // ----- the tag ----------------------------------------------------------------------------------------

  lemma {:induction false} OrZero(x: nat, y: nat)
    ensures Or(x, y) == 0 <==> x == 0 && y == 0
  {
    if x == 0 || y == 0 {
    } else {
      OrZero(x / 2, y / 2);
    }
  }

  lemma XorZero(x: nat, y: nat)
    ensures Xor(x, y) == 0 <==> x == y
  {
    XorSelf(x);
    XorCancel(x, y);
    if Xor(x, y) == 0 { XorCommutes(x, 0); }
  }

  /** ct_equal16: the differences are gathered without stopping at the first. */
  method CtEqual(a: seq<Byte>, b: seq<Byte>) returns (same: bool)
    requires |a| == |b| == 16
    ensures same <==> a == b
  {
    hide Or, Xor;
    var acc, i := 0, 0;
    while i < 16
      invariant i <= 16 && (acc == 0 <==> a[..i] == b[..i])
    {
      OrZero(acc, Xor(a[i], b[i]));
      XorZero(a[i], b[i]);
      assert a[..i + 1] == a[..i] + [a[i]] && b[..i + 1] == b[..i] + [b[i]];
      acc := Or(acc, Xor(a[i], b[i]));
      i := i + 1;
    }
    assert a[..16] == a && b[..16] == b;
    same := acc == 0;
  }

  /** poly1305_auth as bytes. */
  method Authenticate(m: seq<Byte>, key: seq<Byte>) returns (tag: seq<Byte>)
    requires |key| == 32
    ensures tag == Mac(m, key)
  {
    hide Poly1305.Tag, LE, LowBytes;
    var out := new Byte[16];
    Poly1305.Auth(out, m, key);
    tag := out[..];
    TagBytes(m, key, tag);
  }

  lemma TagBytes(m: seq<Byte>, key: seq<Byte>, tag: seq<Byte>)
    requires |key| == 32 && |tag| == 16 && LE(tag) == Poly1305.Tag(m, key)
    ensures tag == Mac(m, key)
  {
    hide LE, LowBytes, Poly1305.Tag, Exp2;
    LEBound(tag);
    LowBytesValue(Poly1305.Tag(m, key), 16);
    LEInjective(tag, LowBytes(Poly1305.Tag(m, key), 16));
  }

  // ----- sending ------------------------------------------------------------------------------------------

  /** A packet in the clear, in a buffer. */
  method Fill(buf: array<Byte>, payload: seq<Byte>, random: seq<Byte>, pad: nat) returns (length: nat)
    requires |random| == 11 && pad <= 11 && |payload| <= PACKET_MAX && 4 + 1 + |payload| + pad <= buf.Length
    modifies buf
    ensures length == 1 + |payload| + pad && buf[..4 + length] == Clear(Body(payload, random[..pad]))
  {
    hide U32;
    length := 1 + |payload| + pad;
    Store(buf, 0, U32(length));
    buf[4] := pad;
    Store(buf, 5, payload);
    Store(buf, 5 + |payload|, random[..pad]);
    assert buf[..4 + length] == U32(length) + ([pad] + payload + random[..pad]);
  }

  /** plain_send; `random` is what getrandom fills the padding with. */
  method PlainSend(link: Link, payload: seq<Byte>, random: seq<Byte>) returns (ok: bool)
    requires |random| == 11
    modifies link`bytes
    ensures ok ==> |payload| <= PACKET_MAX
    ensures ok ==> link.bytes == old(link.bytes) + Clear(Body(payload, random[..PadLength(4 + 1 + |payload|)]))
    ensures link.up && |payload| <= PACKET_MAX ==> ok
  {
    hide Clear, Body;
    if |payload| > PACKET_MAX { return false; }
    var base := 4 + 1 + |payload|;
    var pad := 8 - base % 8;
    if pad < 4 { pad := pad + 8; }
    var total := 4 + 1 + |payload| + pad;
    if total > PACKET_MAX + 64 { return false; }
    var buf := new Byte[PACKET_MAX + 64](_ => 0);
    var length := Fill(buf, payload, random, pad);
    ok := SendAll(link, buf, total);
  }

  /** plain_recv: -1, or the length of the payload. */
  method PlainRecv(link: Link) returns (n: int, payload: seq<Byte>)
    modifies link`bytes
    ensures n >= 0 ==> PlainReceive(old(link.bytes)) == Got(payload, link.bytes) && n == |payload|
    ensures link.up && n < 0 ==> PlainReceive(old(link.bytes)) == Fail
  {
    hide GetU32;
    payload := [];
    var lenbuf := new Byte[4](_ => 0);
    var ok := RecvExact(link, lenbuf, 0, 4);
    if !ok { return -1, []; }
    ghost var stream := old(link.bytes);
    assert stream[..4] == lenbuf[..];
    var length := GetU32(lenbuf[..]);
    if length < 5 || length > PACKET_MAX { return -1, []; }
    var buf := new Byte[PACKET_MAX](_ => 0);
    ok := RecvExact(link, buf, 0, length);
    if !ok { return -1, []; }
    assert stream == lenbuf[..] + buf[..length] + link.bytes;
    var pad := buf[0];
    Parts(lenbuf[..], buf[..length], link.bytes, pad);
    if pad + 1 > length { return -1, []; }
    payload := buf[1..length - pad];
    SubSlice(buf, 0, length, 1, length - pad);
    assert buf[0..length] == buf[..length];
    n := |payload|;
  }

  lemma Parts(head: seq<Byte>, body: seq<Byte>, rest: seq<Byte>, pad: nat)
    requires |head| == 4 && body != []
    ensures var s := head + body + rest; s[4] == body[0] && s[4 + |body|..] == rest
    ensures pad + 1 <= |body| ==> (head + body + rest)[5..4 + |body| - pad] == body[1..|body| - pad]
  {
  }

  /** The part of enc_send that seals a packet in its buffer. */
  method Seal(f: BlockFn, side: Side, buf: array<Byte>, length: nat, ghost body: seq<Byte>)
    requires side.Valid() && |body| == length && 4 + length + 16 <= buf.Length && length < TWO32
    requires buf[..4 + length] == Clear(body)
    modifies buf
    ensures buf[..4 + length + 16] == Sealed(f, side, U32(length), body)
  {
    hide Mac, U32, Nonce, XorStream;
    assert buf[0..4] == U32(length) && buf[4..4 + length] == body;
    var nonce := Nonce(side.seqno);
    var block := f(side.key[..32], 0, nonce);
    ChachaXor(f, buf, 4, length, side.key[..32], 1, nonce);
    ghost var text := XorStream(f, side.key[..32], 1, nonce, body);
    assert buf[4..4 + length] == text;
    assert buf[0..4] == U32(length) by { assert buf[0..4] == buf[..4]; }
    ghost var tail := buf[4..];
    ChachaXor(f, buf, 0, 4, side.key[32..], 0, nonce);
    ghost var head := XorStream(f, side.key[32..], 0, nonce, U32(length));
    assert buf[0..4] == head && buf[4..] == tail && tail[..length] == text;
    assert buf[..4 + length] == head + text;
    var tag := Authenticate(buf[..4 + length], block[..32]);
    Store(buf, 4 + length, tag);
    assert buf[..4 + length + 16] == head + text + tag;
  }

  /** The part of enc_recv that checks and opens a packet in its buffer. */
  method Unseal(f: BlockFn, side: Side, buf: array<Byte>, length: nat) returns (n: int, payload: seq<Byte>)
    requires side.Valid() && 8 <= length && 4 + length + 16 <= buf.Length
    modifies buf
    ensures Open(f, side, old(buf[..4 + length + 16])) == if n >= 0 then Got(payload, []) else Fail
    ensures n >= 0 ==> n == |payload|
  {
    hide Mac, Nonce, XorStream;
    payload := [];
    ghost var frame := buf[..4 + length + 16];
    assert frame[..4 + length] == buf[..4 + length] && frame[4 + length..] == buf[4 + length..4 + length + 16];
    assert frame[4..4 + length] == buf[4..4 + length];
    var nonce := Nonce(side.seqno);
    var block := f(side.key[..32], 0, nonce);
    var tag := Authenticate(buf[..4 + length], block[..32]);
    var ok := CtEqual(tag, buf[4 + length..4 + length + 16]);
    if !ok { return -1, []; }
    ChachaXor(f, buf, 4, length, side.key[..32], 1, nonce);
    ghost var body := buf[4..4 + length];
    var pad := buf[4];
    assert body[0] == pad;
    if pad < 4 || pad + 1 >= length { return -1, []; }
    payload := buf[5..4 + length - pad];
    SubSlice(buf, 4, 4 + length, 1, length - pad);
    n := |payload|;
  }

  /** ssh_transport_t: both directions of a connection. */
  class Connection {
    const f: BlockFn
    const output: Link
    const input: Link
    var encSend: bool
    var encRecv: bool
    var keySend: seq<Byte>
    var keyRecv: seq<Byte>
    var seqSend: nat
    var seqRecv: nat
    var strict: bool

    ghost function Sender(): Side
      reads this
    {
      Side(encSend, keySend, seqSend, strict)
    }

    ghost function Receiver(): Side
      reads this
    {
      Side(encRecv, keyRecv, seqRecv, strict)
    }

    ghost predicate Valid()
      reads this
    {
      Sender().Valid() && Receiver().Valid() && output != input
    }

    /** ssh_transport_init. */
    constructor (block: BlockFn, o: Link, i: Link)
      requires o != i
      ensures Valid() && f == block && output == o && input == i
      ensures Sender() == Receiver() == Side(false, seq(64, _ => 0), 0, false)
    {
      f, output, input := block, o, i;
      encSend, encRecv, seqSend, seqRecv, strict := false, false, 0, 0, false;
      keySend, keyRecv := seq(64, _ => 0), seq(64, _ => 0);
    }

    /** enc_send. */
    method EncSend(payload: seq<Byte>, random: seq<Byte>) returns (ok: bool)
      requires Valid() && |random| == 11 && encSend
      modifies output`bytes
      ensures ok ==> Sendable(Sender(), |payload|)
      ensures ok ==>
          output.bytes == old(output.bytes) + Packet(f, Sender(), payload, random[..Padding(Sender(), |payload|)])
      ensures output.up && Sendable(Sender(), |payload|) ==> ok
    {
      hide Clear, Body, Sealed, U32;
      var pad := 8 - (1 + |payload|) % 8;
      if pad < 4 { pad := pad + 8; }
      if |payload| > PACKET_MAX || 1 + |payload| + pad > PACKET_MAX { return false; }
      var buf := new Byte[4 + PACKET_MAX + 16](_ => 0);
      var length := Fill(buf, payload, random, pad);
      Seal(f, Side(encSend, keySend, seqSend, strict), buf, length, Body(payload, random[..pad]));
      ok := SendAll(output, buf, 4 + length + 16);
    }

    /** ssh_send. */
    method Send(payload: seq<Byte>, random: seq<Byte>) returns (ok: bool)
      requires Valid() && |random| == 11
      modifies output`bytes, this`seqSend
      ensures Valid() && Sender() == if ok then Counted(old(Sender())) else old(Sender())
      ensures ok ==> Sendable(old(Sender()), |payload|)
      ensures ok ==>
          var side := old(Sender());
          output.bytes == old(output.bytes) + Packet(f, side, payload, random[..Padding(side, |payload|)])
      ensures output.up ==> (ok <==> Sendable(old(Sender()), |payload|))
    {
      hide Body, Clear, Sealed;
      if encSend { ok := EncSend(payload, random); } else { ok := PlainSend(output, payload, random); }
      if ok { seqSend := (seqSend + 1) % TWO32; }
    }

    /** enc_recv. */
    method EncRecv() returns (n: int, payload: seq<Byte>)
      requires Valid()
      modifies input`bytes
      ensures n >= 0 ==> SealedReceive(f, Receiver(), old(input.bytes)) == Got(payload, input.bytes) && n == |payload|
      ensures input.up && n < 0 ==> SealedReceive(f, Receiver(), old(input.bytes)) == Fail
    {
      hide GetU32, Nonce, XorStream, Open;
      payload := [];
      ghost var stream := input.bytes;
      var buf := new Byte[4 + PACKET_MAX + 16](_ => 0);
      var ok := RecvExact(input, buf, 0, 4);
      if !ok { return -1, []; }
      var side := Side(encRecv, keyRecv, seqRecv, strict);
      var lenp := new Byte[4](i requires 0 <= i < 4 reads buf => buf[i]);
      assert lenp[0..4] == buf[0..4] == stream[..4];
      ChachaXor(f, lenp, 0, 4, keyRecv[32..], 0, Nonce(seqRecv));
      var length := GetU32(lenp[0..4]);
      assert length == Header(f, side, stream[..4]);
      if length < 8 || length > PACKET_MAX || length % 8 != 0 { return -1, []; }
      ghost var head := buf[..4];
      ok := RecvExact(input, buf, 4, length + 16);
      if !ok { return -1, []; }
      assert buf[..4 + length + 16] == head + buf[4..4 + (length + 16)];
      assert stream == buf[..4 + length + 16] + input.bytes;
      assert stream[..4 + length + 16] == buf[..4 + length + 16] && stream[4 + length + 16..] == input.bytes;
      n, payload := Unseal(f, side, buf, length);
    }

    /** ssh_recv. */
    method Recv() returns (n: int, payload: seq<Byte>)
      requires Valid()
      modifies input`bytes, this`seqRecv
      ensures Valid() && Receiver() == if n >= 0 then Counted(old(Receiver())) else old(Receiver())
      ensures n >= 0 ==> Receive(f, old(Receiver()), old(input.bytes)) == Got(payload, input.bytes) && n == |payload|
      ensures input.up && n < 0 ==> Receive(f, old(Receiver()), old(input.bytes)) == Fail
    {
      hide PlainReceive, SealedReceive;
      if encRecv { n, payload := EncRecv(); } else { n, payload := PlainRecv(input); }
      if n >= 0 { seqRecv := (seqRecv + 1) % TWO32; }
    }

    /** ssh_transport_start_send_crypto. */
    method StartSend(key: seq<Byte>)
      requires Valid() && |key| == 64
      modifies this`keySend, this`encSend, this`seqSend
      ensures Valid() && Sender() == Switch(old(Sender()), key)
    {
      keySend, encSend := key, true;
      if strict { seqSend := 0; }
    }

    /** ssh_transport_start_recv_crypto. */
    method StartRecv(key: seq<Byte>)
      requires Valid() && |key| == 64
      modifies this`keyRecv, this`encRecv, this`seqRecv
      ensures Valid() && Receiver() == Switch(old(Receiver()), key)
    {
      keyRecv, encRecv := key, true;
      if strict { seqRecv := 0; }
    }
  }

  // ----- two connections joined ------------------------------------------------------------------------

  /** Performs one event of a session on the sending side. */
  method SendEvent(c: Connection, e: Event)
    requires c.Valid() && c.output.up && Able(c.Sender(), e)
    modifies c`encSend, c`keySend, c`seqSend, c.output`bytes
    ensures c.Valid() && c.Sender() == Later(old(c.Sender()), e)
    ensures c.output.bytes == old(c.output.bytes) + Emitted(c.f, old(c.Sender()), e)
  {
    hide Packet, Padding, Sendable;
    match e
    case Message(payload, padding) =>
      PaddingSize(c.Sender(), |payload|);
      var random := padding + seq(11 - |padding|, _ => 0);
      assert random[..|padding|] == padding;
      var ok := c.Send(payload, random);
    case NewKeys(key) =>
      assert c.output.bytes + [] == c.output.bytes;
      c.StartSend(key);
  }

  lemma PaddingSize(side: Side, n: nat)
    ensures 4 <= Padding(side, n) <= 11
  {
  }

  /** Performs one event of a session on the receiving side. */
  method ReceiveEvent(c: Connection, e: Event, ghost rest: seq<Byte>) returns (got: seq<seq<Byte>>)
    requires c.Valid() && c.input.up && Able(c.Receiver(), e) && c.input.bytes == Emitted(c.f, c.Receiver(), e) + rest
    modifies c`encRecv, c`keyRecv, c`seqRecv, c.input`bytes
    ensures c.Valid() && c.Receiver() == Later(old(c.Receiver()), e) && c.input.bytes == rest && got == Carried(e)
  {
    hide Packet, Receive, Padding, Sendable, Receivable;
    match e
    case Message(payload, padding) =>
      Delivers(c.f, c.Receiver(), payload, padding, rest);
      var n, data := c.Recv();
      got := [data];
    case NewKeys(key) =>
      assert c.input.bytes == rest;
      c.StartRecv(key);
      got := [];
  }

  /** The two ends of one connection. */
  ghost predicate Joined(a: Connection, b: Connection)
    reads a, b
  {
    a != b && a.Valid() && b.Valid() && a.f == b.f && a.output == b.input && a.input == b.output
  }

  /** Two servers talk over one connection, each sending its own events and changing its receiving
      keys where the other changes its sending keys, in any order of the four activities: every
      payload arrives, whole and in order, and the ends agree on keys and sequence numbers. */
  method Converse(a: Connection, b: Connection, es: seq<Event>, fs: seq<Event>)
      returns (toB: seq<seq<Byte>>, toA: seq<seq<Byte>>)
    requires Joined(a, b) && a.output.up && a.input.up && a.output.bytes == a.input.bytes == []
    requires a.Sender() == b.Receiver() && b.Sender() == a.Receiver()
    requires Fine(a.Sender(), es) && Fine(b.Sender(), fs)
    modifies a, b, a.output`bytes, a.input`bytes
    ensures toB == Payloads(es) && toA == Payloads(fs) && a.output.bytes == a.input.bytes == []
    ensures a.Sender() == b.Receiver() == End(old(a.Sender()), es)
    ensures b.Sender() == a.Receiver() == End(old(b.Sender()), fs)
  {
    hide Flow, Able, Later, Emitted, End, Payloads, Carried;
    ghost var sa, sb := a.Sender(), b.Sender();
    FlowStart(a.f, sa, es);
    FlowStart(a.f, sb, fs);
    var i, r, j, q := 0, 0, 0, 0;
    toA, toB := [], [];
    while
      invariant r <= i <= |es| && q <= j <= |fs| && Joined(a, b) && a.output.up && a.input.up
      invariant Flow(a.f, sa, es, a.Sender(), i, b.Receiver(), r, a.output.bytes) && toB == Payloads(es[..r])
      invariant Flow(a.f, sb, fs, b.Sender(), j, a.Receiver(), q, a.input.bytes) && toA == Payloads(fs[..q])
      decreases |es| - i + |es| - r + |fs| - j + |fs| - q
    {
      case i < |es| =>
        FlowSend(a.f, sa, es, a.Sender(), i, b.Receiver(), r, a.output.bytes);
        SendEvent(a, es[i]);
        i := i + 1;
      case r < i =>
        ghost var rest := FlowReceive(a.f, sa, es, a.Sender(), i, b.Receiver(), r, a.output.bytes);
        var got := ReceiveEvent(b, es[r], rest);
        toB, r := toB + got, r + 1;
      case j < |fs| =>
        FlowSend(a.f, sb, fs, b.Sender(), j, a.Receiver(), q, a.input.bytes);
        SendEvent(b, fs[j]);
        j := j + 1;
      case q < j =>
        ghost var rest := FlowReceive(a.f, sb, fs, b.Sender(), j, a.Receiver(), q, a.input.bytes);
        var got := ReceiveEvent(a, fs[q], rest);
        toA, q := toA + got, q + 1;
    }
    FlowDone(a.f, sa, es, a.Sender(), b.Receiver(), a.output.bytes);
    FlowDone(a.f, sb, fs, b.Sender(), a.Receiver(), a.input.bytes);
    assert es[..|es|] == es && fs[..|fs|] == fs;
  }

  lemma FlowStart(f: BlockFn, start: Side, es: seq<Event>)
    requires start.Valid() && Fine(start, es)
    ensures Flow(f, start, es, start, 0, start, 0, []) && Payloads(es[..0]) == []
  {
  }
}
