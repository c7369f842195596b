/** The binary packet layer of the SSH server (userspace/bin/sshd_packet.c) over values: packets,
    what a receiver makes of a stream of them, and whole sessions. The ChaCha20 block function is
    any function to 64 bytes. */
module Packets {
  import opened Words
  import Poly1305

  const PACKET_MAX: nat := 35000   // SSH_PACKET_MAX

  /** chacha20_block: key, counter and nonce to a block of 64 bytes. */
  type BlockFn = f: (seq<Byte>, nat, seq<Byte>) -> seq<Byte> | forall k, c, n :: |f(k, c, n)| == 64
    witness (k: seq<Byte>, c: nat, n: seq<Byte>) => seq(64, _ => 0)

  // ----- the stream cipher -----------------------------------------------------------------------

  function XorByte(a: Byte, b: Byte): Byte {
    XorBound(a, b, 8);
    Exp2Small();
    Xor(a, b)
  }

  lemma XorByteTwice(a: Byte, b: Byte)
    ensures XorByte(XorByte(a, b), b) == a
  {
    XorCommutes(a, b);
    XorCancel(b, a);
    XorCommutes(Xor(a, b), b);
  }

  /** Byte i of the key stream. */
  function KeyByte(f: BlockFn, key: seq<Byte>, counter: nat, nonce: seq<Byte>, i: nat): Byte {
    f(key, (counter + i / 64) % TWO32, nonce)[i % 64]
  }

  function XorStream(f: BlockFn, key: seq<Byte>, counter: nat, nonce: seq<Byte>, data: seq<Byte>): (r: seq<Byte>)
    ensures |r| == |data|
  {
    seq(|data|, i requires 0 <= i < |data| => XorByte(data[i], KeyByte(f, key, counter, nonce, i)))
  }

  /** Deciphering is enciphering again. */
  lemma XorStreamTwice(f: BlockFn, key: seq<Byte>, counter: nat, nonce: seq<Byte>, data: seq<Byte>)
    ensures XorStream(f, key, counter, nonce, XorStream(f, key, counter, nonce, data)) == data
  {
    hide KeyByte, XorByte;
    forall i | 0 <= i < |data|
      ensures XorByte(XorByte(data[i], KeyByte(f, key, counter, nonce, i)), KeyByte(f, key, counter, nonce, i)) ==
          data[i]
    {
      XorByteTwice(data[i], KeyByte(f, key, counter, nonce, i));
    }
  }

  // ----- lengths -----------------------------------------------------------------------------------

  /** put_u32. */
  function U32(v: nat): (r: seq<Byte>)
    requires v < TWO32
    ensures |r| == 4
  {
    [v / 0x1000000, v / 0x10000 % 256, v / 0x100 % 256, v % 256]
  }

  /** get_u32. */
  function GetU32(s: seq<Byte>): nat
    requires |s| == 4
  {
    var a: nat, b: nat, c: nat, d: nat := s[0], s[1], s[2], s[3];
    a * 0x1000000 + b * 0x10000 + c * 0x100 + d
  }

  lemma U32RoundTrip(v: nat)
    requires v < TWO32
    ensures GetU32(U32(v)) == v
  {
    DivDiv(v, 256, 256); DivDiv(v, 256 * 256, 256);
    var a, b, c := v / 256, v / 0x10000, v / 0x1000000;
    assert v == 256 * a + v % 256 && a == 256 * b + a % 256 && b == 256 * c + b % 256;
  }

  /** Padding up to a multiple of eight, at least four bytes of it. */
  function PadLength(base: nat): (pad: nat)
    ensures 4 <= pad <= 11 && (base + pad) % 8 == 0
  {
    var pad := 8 - base % 8;
    if pad < 4 then pad + 8 else pad
  }

  // ----- packets --------------------------------------------------------------------------------------

  /** One direction of a transport. */
  datatype Side = Side(enc: bool, key: seq<Byte>, seqno: nat, strict: bool) {
    predicate Valid() { |key| == 64 && seqno < TWO32 }
  }

  /** The padding a sender adds: the length field counts towards the alignment only in the clear. */
  function Padding(side: Side, n: nat): (pad: nat)
    ensures 4 <= pad <= 11
  {
    PadLength(if side.enc then 1 + n else 4 + 1 + n)
  }

  /** packet_length. */
  function Length(side: Side, n: nat): nat {
    1 + n + Padding(side, n)
  }

  /** The sizes plain_send and enc_send accept. */
  predicate Sendable(side: Side, n: nat) {
    if side.enc then Length(side, n) <= PACKET_MAX else n <= PACKET_MAX
  }

  function Body(payload: seq<Byte>, padding: seq<Byte>): (r: seq<Byte>)
    requires |padding| <= 11
    ensures |r| == 1 + |payload| + |padding|
  {
    [|padding|] + payload + padding
  }

  function Nonce(seqno: nat): seq<Byte>
    requires seqno < TWO32
  {
    [0, 0, 0, 0, 0, 0, 0, 0] + U32(seqno)
  }

  function Mac(m: seq<Byte>, key: seq<Byte>): (r: seq<Byte>)
    requires |key| == 32
    ensures |r| == 16
  {
    LowBytes(Poly1305.Tag(m, key), 16)
  }

  /** What the sender puts on the wire. */
  function Packet(f: BlockFn, side: Side, payload: seq<Byte>, padding: seq<Byte>): seq<Byte>
    requires side.Valid() && Sendable(side, |payload|) && |padding| == Padding(side, |payload|)
  {
    var body := Body(payload, padding);
    if side.enc then Sealed(f, side, U32(|body|), body) else Clear(body)
  }

  function Clear(body: seq<Byte>): seq<Byte>
    requires |body| < TWO32
  {
    U32(|body|) + body
  }

  function Sealed(f: BlockFn, side: Side, length: seq<Byte>, body: seq<Byte>): (r: seq<Byte>)
    requires side.Valid()
    ensures |r| == |length| + |body| + 16
  {
    var nonce := Nonce(side.seqno);
    var head := XorStream(f, side.key[32..], 0, nonce, length);
    var text := XorStream(f, side.key[..32], 1, nonce, body);
    head + text + Mac(head + text, f(side.key[..32], 0, nonce)[..32])
  }

  datatype Received = Fail | Got(payload: seq<Byte>, rest: seq<Byte>)

  /** plain_recv on the bytes that have arrived. */
  function PlainReceive(stream: seq<Byte>): Received {
    if |stream| < 4 then Fail
    else
      var n := GetU32(stream[..4]);
      if n < 5 || n > PACKET_MAX || |stream| < 4 + n then Fail
      else
        var pad := stream[4];
        if pad + 1 > n then Fail else Got(stream[5..4 + n - pad], stream[4 + n..])
  }

  /** enc_recv on a whole packet: the tag first, then the body. */
  function Open(f: BlockFn, side: Side, frame: seq<Byte>): Received
    requires side.Valid() && |frame| >= 4 + 8 + 16
  {
    var nonce, n := Nonce(side.seqno), |frame| - 4 - 16;
    if Mac(frame[..4 + n], f(side.key[..32], 0, nonce)[..32]) != frame[4 + n..] then Fail
    else
      var body := XorStream(f, side.key[..32], 1, nonce, frame[4..4 + n]);
      var pad := body[0];
      if pad < 4 || pad + 1 >= n then Fail else Got(body[1..n - pad], [])
  }

  /** The length of the next packet. */
  function Header(f: BlockFn, side: Side, head: seq<Byte>): nat
    requires side.Valid() && |head| == 4
  {
    GetU32(XorStream(f, side.key[32..], 0, Nonce(side.seqno), head))
  }

  /** enc_recv on the bytes that have arrived. */
  function SealedReceive(f: BlockFn, side: Side, stream: seq<Byte>): Received
    requires side.Valid()
  {
    if |stream| < 4 then Fail
    else
      var n := Header(f, side, stream[..4]);
      if n < 8 || n > PACKET_MAX || n % 8 != 0 || |stream| < 4 + n + 16 then Fail
      else
        match Open(f, side, stream[..4 + n + 16])
        case Fail => Fail
        case Got(payload, _) => Got(payload, stream[4 + n + 16..])
  }

  function Receive(f: BlockFn, side: Side, stream: seq<Byte>): Received
    requires side.Valid()
  {
    if side.enc then SealedReceive(f, side, stream) else PlainReceive(stream)
  }

  /** Packets in the clear are a multiple of eight bytes long, sealed ones are apart from the length
      field and the tag; both have at least four bytes of padding. */
  lemma Aligned(f: BlockFn, side: Side, payload: seq<Byte>, padding: seq<Byte>)
    requires side.Valid() && Sendable(side, |payload|) && |padding| == Padding(side, |payload|)
    ensures var n := |Packet(f, side, payload, padding)|;
            |padding| >= 4 && if side.enc then (n - 4 - 16) % 8 == 0 else n % 8 == 0
  {
  }

  // ----- one packet ----------------------------------------------------------------------------------------

  /** The payloads a receiver takes back. */
  predicate Receivable(side: Side, n: nat) {
    if side.enc then 1 <= n <= 34995 else n <= 34991
  }

  lemma SendableWhen(side: Side, n: nat)
    ensures side.enc ==> (Sendable(side, n) <==> n <= 34995)
    ensures !side.enc ==> (Length(side, n) <= PACKET_MAX <==> n <= 34991)
  {
  }

  lemma PlainDelivers(payload: seq<Byte>, padding: seq<Byte>, rest: seq<Byte>)
    requires 4 <= |padding| <= 11 && |payload| <= PACKET_MAX
    ensures var n := 1 + |payload| + |padding|;
            PlainReceive(U32(n) + Body(payload, padding) + rest) == if n <= PACKET_MAX then Got(payload, rest) else Fail
  {
    var body := Body(payload, padding);
    var n := |body|;
    var stream := U32(n) + body + rest;
    U32RoundTrip(n);
    hide GetU32, U32;
    assert stream[..4] == U32(n);
    if n <= PACKET_MAX {
      assert stream[4] == |padding| && stream[5..4 + n - |padding|] == payload && stream[4 + n..] == rest;
    }
  }

  lemma SealedDelivers(f: BlockFn, side: Side, payload: seq<Byte>, padding: seq<Byte>, rest: seq<Byte>)
    requires side.Valid() && 4 <= |padding| <= 11
    requires var n := 1 + |payload| + |padding|; n % 8 == 0 && n <= PACKET_MAX
    ensures var body := Body(payload, padding);
            SealedReceive(f, side, Sealed(f, side, U32(|body|), body) + rest)
            == if payload != [] then Got(payload, rest) else Fail
  {
    hide GetU32, U32, XorStream, Mac, Nonce;
    var body := Body(payload, padding);
    var n := |body|;
    var nonce := Nonce(side.seqno);
    U32RoundTrip(n);
    XorStreamTwice(f, side.key[32..], 0, nonce, U32(n));
    XorStreamTwice(f, side.key[..32], 1, nonce, body);
    var head := XorStream(f, side.key[32..], 0, nonce, U32(n));
    var text := XorStream(f, side.key[..32], 1, nonce, body);
    var mac := Mac(head + text, f(side.key[..32], 0, nonce)[..32]);
    var frame := head + text + mac;
    Slices(head, text, mac, rest);
    Slices(head, text, mac, []);
    assert frame + [] == frame && (frame + rest)[..|frame|] == frame && (frame + rest)[|frame|..] == rest;
    assert body[1..n - |padding|] == payload;
  }

  lemma Slices(head: seq<Byte>, text: seq<Byte>, mac: seq<Byte>, rest: seq<Byte>)
    ensures var s := head + text + mac + rest; var n := |head| + |text|;
            && s[..|head|] == head && s[|head|..n] == text && s[..n] == head + text
            && s[n..n + |mac|] == mac && s[n + |mac|..] == rest
  {
  }

  /** A packet that is sent is taken back whole exactly when its payload has a size the receiver
      takes; otherwise the receiver fails. */
  lemma Delivers(f: BlockFn, side: Side, payload: seq<Byte>, padding: seq<Byte>, rest: seq<Byte>)
    requires side.Valid() && Sendable(side, |payload|) && |padding| == Padding(side, |payload|)
    ensures Receive(f, side, Packet(f, side, payload, padding) + rest)
         == if Receivable(side, |payload|) then Got(payload, rest) else Fail
  {
    hide PlainReceive, SealedReceive, Sealed, U32;
    SendableWhen(side, |payload|);
    if side.enc {
      SealedDelivers(f, side, payload, padding, rest);
    } else {
      PlainDelivers(payload, padding, rest);
    }
  }

  // ----- sessions ----------------------------------------------------------------------------------------------

  /** What a sender does in one direction: messages, and changes of keys between them. */
  datatype Event = Message(payload: seq<Byte>, padding: seq<Byte>) | NewKeys(key: seq<Byte>)

  /** ssh_transport_start_send_crypto and ssh_transport_start_recv_crypto. */
  function Switch(side: Side, key: seq<Byte>): Side {
    side.(key := key, enc := true, seqno := if side.strict then 0 else side.seqno)
  }

  /** A side after one more packet. */
  function Counted(side: Side): Side {
    side.(seqno := (side.seqno + 1) % TWO32)
  }

  function Later(side: Side, e: Event): Side {
    if e.Message? then Counted(side) else Switch(side, e.key)
  }

  /** An event a sender can perform and whose payload the receiver can take. */
  predicate Able(side: Side, e: Event) {
    match e
    case Message(payload, padding) =>
      Sendable(side, |payload|) && Receivable(side, |payload|) && |padding| == Padding(side, |payload|)
    case NewKeys(key) => |key| == 64
  }

  predicate Fine(side: Side, es: seq<Event>)
    decreases |es|
  {
    es == [] || (Able(side, es[0]) && Fine(Later(side, es[0]), es[1..]))
  }

  function Emitted(f: BlockFn, side: Side, e: Event): seq<Byte>
    requires side.Valid() && Able(side, e)
  {
    if e.Message? then Packet(f, side, e.payload, e.padding) else []
  }

  /** All the bytes a sender writes. */
  function Wire(f: BlockFn, side: Side, es: seq<Event>): seq<Byte>
    requires side.Valid() && Fine(side, es)
    decreases |es|
  {
    if es == [] then []
    else Emitted(f, side, es[0]) + Wire(f, Later(side, es[0]), es[1..])
  }

  function Carried(e: Event): seq<seq<Byte>> {
    if e.Message? then [e.payload] else []
  }

  function Payloads(es: seq<Event>): seq<seq<Byte>> {
    if es == [] then [] else Carried(es[0]) + Payloads(es[1..])
  }

  function End(side: Side, es: seq<Event>): Side
    decreases |es|
  {
    if es == [] then side else End(Later(side, es[0]), es[1..])
  }

  /** A receiver that changes keys at the same places: payloads, final state, bytes left over. */
  datatype Session = Broken | Session(payloads: seq<seq<Byte>>, side: Side, rest: seq<Byte>)

  function Listen(f: BlockFn, side: Side, es: seq<Event>, stream: seq<Byte>): Session
    requires side.Valid() && forall i :: 0 <= i < |es| ==> es[i].NewKeys? ==> |es[i].key| == 64
    decreases |es|
  {
    if es == [] then Session([], side, stream)
    else if es[0].NewKeys? then Listen(f, Switch(side, es[0].key), es[1..], stream)
    else
      match Receive(f, side, stream)
      case Fail => Broken
      case Got(payload, rest) =>
        match Listen(f, Counted(side), es[1..], rest)
        case Broken => Broken
        case Session(ps, end, left) => Session([payload] + ps, end, left)
  }

  lemma {:induction false} FineKeys(side: Side, es: seq<Event>)
    requires Fine(side, es)
    ensures forall i :: 0 <= i < |es| ==> es[i].NewKeys? ==> |es[i].key| == 64
    decreases |es|
  {
    if es == [] {
    } else {
      FineKeys(Later(side, es[0]), es[1..]);
      forall i | 0 <= i < |es| && es[i].NewKeys? ensures |es[i].key| == 64 {
        if i > 0 { assert es[i] == es[1..][i - 1]; }
      }
    }
  }

  /** Over any session both ends stay in step and every payload arrives, whole and in order. */
  lemma {:induction false} SessionDelivers(f: BlockFn, side: Side, es: seq<Event>, rest: seq<Byte>)
    requires side.Valid() && Fine(side, es)
    ensures forall i :: 0 <= i < |es| ==> es[i].NewKeys? ==> |es[i].key| == 64
    ensures Listen(f, side, es, Wire(f, side, es) + rest) == Session(Payloads(es), End(side, es), rest)
    decreases |es|
  {
    hide Packet, Receive, Sendable, Receivable, Padding;
    FineKeys(side, es);
    if es == [] {
      assert Wire(f, side, es) + rest == rest;
    } else {
      var e, later := es[0], Later(side, es[0]);
      var tail := Wire(f, later, es[1..]);
      SessionDelivers(f, later, es[1..], rest);
      if e.Message? {
        Delivers(f, side, e.payload, e.padding, tail + rest);
        assert Wire(f, side, es) + rest == Packet(f, side, e.payload, e.padding) + (tail + rest);
      } else {
        assert Wire(f, side, es) == tail;
      }
    }
  }

  // ----- sessions cut in two ----------------------------------------------------------------------------------

  /** One more event. */
  lemma {:induction false} FineMore(f: BlockFn, side: Side, es: seq<Event>, e: Event)
    requires side.Valid() && Fine(side, es + [e])
    ensures Fine(side, es) && End(side, es).Valid() && Able(End(side, es), e)
    ensures End(side, es + [e]) == Later(End(side, es), e)
    ensures Wire(f, side, es + [e]) == Wire(f, side, es) + Emitted(f, End(side, es), e)
    decreases |es|
  {
    hide Able, Emitted, Later;
    var all := es + [e];
    if es == [] {
      assert all == [e] && all[1..] == [];
    } else {
      assert all[1..] == es[1..] + [e] && all[0] == es[0];
      LaterValid(side, es[0]);
      FineMore(f, Later(side, es[0]), es[1..], e);
      assert Wire(f, side, all) == Emitted(f, side, es[0]) + Wire(f, Later(side, es[0]), all[1..]);
    }
  }

  lemma {:induction false} PayloadsMore(es: seq<Event>, e: Event)
    ensures Payloads(es + [e]) == Payloads(es) + Carried(e)
  {
    hide Carried;
    var all := es + [e];
    if es == [] {
      assert all == [e] && all[1..] == [];
      assert Carried(e) + [] == [] + Carried(e);
    } else {
      PayloadsMore(es[1..], e);
      assert all[0] == es[0] && all[1..] == es[1..] + [e];
      var first, rest := Carried(es[0]), Payloads(es[1..]);
      assert Payloads(all) == first + Payloads(all[1..]);
      assert first + (rest + Carried(e)) == (first + rest) + Carried(e);
    }
  }

  lemma {:induction false} FineTake(f: BlockFn, side: Side, es: seq<Event>, i: nat)
    requires side.Valid() && Fine(side, es) && i <= |es|
    ensures Fine(side, es[..i])
    decreases |es|
  {
    if i == |es| {
      assert es[..i] == es;
    } else {
      var n := |es| - 1;
      assert es == es[..n] + [es[n]];
      FineMore(f, side, es[..n], es[n]);
      FineTake(f, side, es[..n], i);
      assert es[..n][..i] == es[..i];
    }
  }

  /** One direction of a session while it goes on: the sender has done i events, the receiver r, and
      the bytes of those between are on their way. */
  predicate Flow(f: BlockFn, start: Side, es: seq<Event>, sender: Side, i: nat, receiver: Side, r: nat,
      bytes: seq<Byte>) {
    && r <= i <= |es| && start.Valid() && Fine(start, es)
    && sender == End(start, es[..i]) && receiver == End(start, es[..r])
    && receiver.Valid() && Fine(receiver, es[r..i])
    && End(receiver, es[r..i]) == sender && bytes == Wire(f, receiver, es[r..i])
  }

  lemma FlowSend(f: BlockFn, start: Side, es: seq<Event>, sender: Side, i: nat, receiver: Side, r: nat,
      bytes: seq<Byte>)
    requires Flow(f, start, es, sender, i, receiver, r, bytes) && i < |es|
    ensures sender.Valid() && Able(sender, es[i])
    ensures Flow(f, start, es, Later(sender, es[i]), i + 1, receiver, r, bytes + Emitted(f, sender, es[i]))
  {
    hide Able, Emitted, Later;
    FineTake(f, start, es, i + 1);
    assert es[..i + 1] == es[..i] + [es[i]];
    FineMore(f, start, es[..i], es[i]);
    assert es[r..i + 1] == es[r..i] + [es[i]];
    FineGrows(receiver, es[r..i], es[i]);
    FineMore(f, receiver, es[r..i], es[i]);
  }

  lemma {:induction false} FineGrows(side: Side, es: seq<Event>, e: Event)
    requires Fine(side, es) && Able(End(side, es), e)
    ensures Fine(side, es + [e])
    decreases |es|
  {
    hide Able;
    if es == [] {
      assert es + [e] == [e];
    } else {
      assert (es + [e])[1..] == es[1..] + [e];
      FineGrows(Later(side, es[0]), es[1..], e);
    }
  }

  lemma FlowReceive(f: BlockFn, start: Side, es: seq<Event>, sender: Side, i: nat, receiver: Side, r: nat,
      bytes: seq<Byte>)
      returns (rest: seq<Byte>)
    requires Flow(f, start, es, sender, i, receiver, r, bytes) && r < i
    ensures Able(receiver, es[r]) && bytes == Emitted(f, receiver, es[r]) + rest
    ensures Flow(f, start, es, sender, i, Later(receiver, es[r]), r + 1, rest)
    ensures Payloads(es[..r + 1]) == Payloads(es[..r]) + Carried(es[r])
  {
    hide Able, Emitted, Later;
    FineTake(f, start, es, r + 1);
    assert es[..r + 1] == es[..r] + [es[r]];
    FineMore(f, start, es[..r], es[r]);
    PayloadsMore(es[..r], es[r]);
    assert es[r..i][0] == es[r] && es[r..i][1..] == es[r + 1..i];
    LaterValid(receiver, es[r]);
    rest := Wire(f, Later(receiver, es[r]), es[r + 1..i]);
  }

  lemma LaterValid(side: Side, e: Event)
    requires side.Valid() && Able(side, e)
    ensures Later(side, e).Valid()
  {
  }

  lemma FlowDone(f: BlockFn, start: Side, es: seq<Event>, sender: Side, receiver: Side, bytes: seq<Byte>)
    requires Flow(f, start, es, sender, |es|, receiver, |es|, bytes)
    ensures sender == receiver == End(start, es) && bytes == []
  {
    assert es[..|es|] == es && es[|es|..] == [];
  }
}
