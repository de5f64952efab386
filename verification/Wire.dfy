/**
 The packet framing shared by the C programs and the Web gateway: a 72-byte header (type, data
 length, two fixed 32-byte names) followed by at most 1024 bytes of data.
 */
module Wire {
  import opened Basics

  const WIRE_HEADER_BYTES := 72

  const MSG_REGISTER := 1
  const MSG_LOGIN := 2
  const MSG_PRIVATE := 3
  const MSG_GROUP := 4
  const MSG_ONLINE_LIST := 5
  const MSG_FILE_BEGIN := 6
  const MSG_FILE_CHUNK := 7
  const MSG_FILE_END := 8
  const MSG_LOGOUT := 9
  const MSG_HEARTBEAT := 10
  const MSG_OK := 12
  const MSG_ERROR := 13
  const MSG_GROUP_CREATE := 14
  const MSG_GROUP_LIST := 15
  const MSG_GROUP_MESSAGE := 16
  const MSG_GROUP_EVENT := 17

  /** A packet as held in C: both names are raw 32-byte arrays, `data` is the used part of its array. */
  datatype Packet = Packet(kind: int, sender: Bytes, receiver: Bytes, data: Bytes)

  /** A packet as the gateway's decoder reports it: names and text are cut at their first NUL. */
  datatype JsPacket = JsPacket(kind: int, sender: Bytes, receiver: Bytes, data: Bytes, text: Bytes)

  predicate ValidPacket(p: Packet) {
    && -0x8000_0000 <= p.kind < 0x8000_0000
    && |p.sender| == USERNAME_MAX_LEN && |p.receiver| == USERNAME_MAX_LEN
    && |p.data| <= PACKET_DATA_MAX
  }

  /** The packet with names as `packet_init` copies them, truncated to 31 bytes. */
  function PackedPacket(kind: int, sender: Bytes, receiver: Bytes, data: Bytes): (p: Packet)
    ensures p.kind == kind && p.data == data
    ensures |data| <= PACKET_DATA_MAX && -0x8000_0000 <= kind < 0x8000_0000 ==> ValidPacket(p)
  {
    Packet(kind, Fixed(sender, USERNAME_MAX_LEN), Fixed(receiver, USERNAME_MAX_LEN), data)
  }

  /** `packet_init`: data over 1024 bytes is refused. */
  function PacketInit(kind: int, sender: Bytes, receiver: Bytes, data: Bytes): Option<Packet> {
    if |data| > PACKET_DATA_MAX then None
    else Some(PackedPacket(kind, sender, receiver, data))
  }

  /** Up to 1024 bytes of data are taken, and no more. */
  lemma PacketInitMeaning(kind: int, sender: Bytes, receiver: Bytes, data: Bytes)
    ensures PacketInit(kind, sender, receiver, data)
            == if |data| <= 1024 then Some(PackedPacket(kind, sender, receiver, data)) else None
  {
  }

  // ---------- header integers ----------

  function PutBE32(n: nat): (b: Bytes)
    requires n < 0x1_0000_0000
    ensures |b| == 4
  {
    [(n / 0x100_0000) as byte, (n / 0x1_0000 % 256) as byte, (n / 256 % 256) as byte, (n % 256) as byte]
  }

  function GetBE32(b: Bytes): (n: nat)
    requires |b| == 4
    ensures n < 0x1_0000_0000
  {
    ((b[0] as int * 256 + b[1] as int) * 256 + b[2] as int) * 256 + b[3] as int
  }

  lemma BE32RoundTrip(n: nat)
    requires n < 0x1_0000_0000
    ensures GetBE32(PutBE32(n)) == n
  {
    var h := n / 256;
    var g := h / 256;
    assert n / 0x1_0000 == g;
    assert n / 0x100_0000 == g / 256;
  }

  /** The four bytes count 2^24, 2^16, 2^8 and 1. */
  lemma BE32Weights(n: nat)
    requires n < 0x1_0000_0000
    ensures var b := PutBE32(n);
            n == b[0] as int * 16777216 + b[1] as int * 65536 + b[2] as int * 256 + b[3] as int
  {
    BE32RoundTrip(n);
  }

  /** The 32-bit pattern of a signed integer, and back. */
  function ToWord(k: int): nat
    requires -0x8000_0000 <= k < 0x8000_0000
  {
    if k < 0 then k + 0x1_0000_0000 else k
  }

  function FromWord(n: nat): int {
    if n >= 0x8000_0000 then n - 0x1_0000_0000 else n
  }

  // ---------- frames ----------

  function EncodeFrame(p: Packet): (f: Bytes)
    requires ValidPacket(p)
    ensures |f| == WIRE_HEADER_BYTES + |p.data|
  {
    PutBE32(ToWord(p.kind)) + PutBE32(|p.data|) + p.sender + p.receiver + p.data
  }

  /**
   The layout on the wire: the kind and the data length, each in four bytes with the highest first and the kind
   modulo 2^32, then the two names of 32 bytes, then the data.
   */
  lemma FrameLayout(p: Packet)
    requires ValidPacket(p)
    ensures var f := EncodeFrame(p);
            && |f| == 72 + |p.data| && f[8..40] == p.sender && f[40..72] == p.receiver && f[72..] == p.data
            && f[0] as int * 16777216 + f[1] as int * 65536 + f[2] as int * 256 + f[3] as int
               == (if p.kind < 0 then p.kind + 4294967296 else p.kind)
            && f[4] as int * 16777216 + f[5] as int * 65536 + f[6] as int * 256 + f[7] as int == |p.data|
  {
    hide PutBE32, GetBE32;
    BE32Weights(ToWord(p.kind));
    BE32Weights(|p.data|);
    var f, kind, length := EncodeFrame(p), PutBE32(ToWord(p.kind)), PutBE32(|p.data|);
    assert f == kind + (length + (p.sender + (p.receiver + p.data)));
    assert f[0..4] == kind && f[4..8] == length;
    assert f[0] == kind[0] && f[1] == kind[1] && f[2] == kind[2] && f[3] == kind[3];
    assert f[4] == length[0] && f[5] == length[1] && f[6] == length[2] && f[7] == length[3];
  }

  predicate WholeFrame(f: Bytes) {
    WIRE_HEADER_BYTES <= |f| && GetBE32(f[4..8]) <= PACKET_DATA_MAX && |f| == WIRE_HEADER_BYTES + GetBE32(f[4..8])
  }

  function RawPacket(f: Bytes): (p: Packet)
    requires WholeFrame(f)
    ensures ValidPacket(p)
  {
    Packet(FromWord(GetBE32(f[0..4])), f[8..40], f[40..72], f[72..])
  }

  /** What `recv_packet` stores: the last byte of each name is overwritten by NUL. */
  function ReceivedPacket(f: Bytes): (p: Packet)
    requires WholeFrame(f)
    ensures ValidPacket(p)
  {
    var r := RawPacket(f);
    r.(sender := r.sender[31 := NUL], receiver := r.receiver[31 := NUL])
  }

  /** What `PacketDecoder.push` reports for one frame. */
  function DecodedPacket(f: Bytes): JsPacket
    requires WholeFrame(f)
  {
    JsView(RawPacket(f))
  }

  function JsView(p: Packet): JsPacket {
    JsPacket(p.kind, CString(p.sender), CString(p.receiver), p.data, CString(p.data))
  }

  function Views(ps: seq<Packet>): seq<JsPacket> {
    if ps == [] then [] else [JsView(ps[0])] + Views(ps[1..])
  }

  lemma EncodedFrameDecodes(p: Packet)
    requires ValidPacket(p)
    ensures WholeFrame(EncodeFrame(p)) && RawPacket(EncodeFrame(p)) == p
  {
    var f := EncodeFrame(p);
    BE32RoundTrip(ToWord(p.kind));
    BE32RoundTrip(|p.data|);
    assert f[0..4] == PutBE32(ToWord(p.kind));
    assert f[4..8] == PutBE32(|p.data|);
    assert f[8..40] == p.sender && f[40..72] == p.receiver && f[72..] == p.data;
  }

  lemma GetPutBE32(b: Bytes)
    requires |b| == 4
    ensures PutBE32(GetBE32(b)) == b
  {
    var n := GetBE32(b);
    var h := (b[0] as int * 256 + b[1] as int) * 256 + b[2] as int;
    assert n / 256 == h && n % 256 == b[3] as int;
    assert h / 256 == b[0] as int * 256 + b[1] as int && h % 256 == b[2] as int;
    assert n / 0x1_0000 == h / 256;
    assert n / 0x100_0000 == b[0] as int;
  }

  /** The packet of a whole frame keeps every bit: encoding it again gives the frame. */
  lemma FrameReencodes(f: Bytes)
    requires WholeFrame(f)
    ensures EncodeFrame(RawPacket(f)) == f
  {
    GetPutBE32(f[0..4]);
    GetPutBE32(f[4..8]);
    assert f == f[0..4] + f[4..8] + f[8..40] + f[40..72] + f[72..];
  }

  // ---------- the stream ----------

  /** What the front of a stream holds: not yet a frame, an oversize header, or a whole frame. */
  datatype Cut = Short | Oversize | Whole(frame: Bytes, rest: Bytes)

  function CutFrame(s: Bytes): (c: Cut)
    ensures c.Whole? ==> WholeFrame(c.frame) && s == c.frame + c.rest
  {
    if |s| < WIRE_HEADER_BYTES then Short
    else
      var n := GetBE32(s[4..8]);
      if n > PACKET_DATA_MAX then Oversize
      else if |s| < WIRE_HEADER_BYTES + n then Short
      else
        assert s[..WIRE_HEADER_BYTES + n][4..8] == s[4..8];
        Whole(s[..WIRE_HEADER_BYTES + n], s[WIRE_HEADER_BYTES + n..])
  }

  lemma CutWhole(f: Bytes, s: Bytes)
    requires WholeFrame(f)
    ensures CutFrame(f + s) == Whole(f, s)
  {
    var t := f + s;
    assert t[4..8] == f[4..8];
    assert t[..|f|] == f && t[|f|..] == s;
  }

  lemma CutOversize(a: Bytes, b: Bytes)
    requires CutFrame(a).Oversize?
    ensures CutFrame(a + b).Oversize?
  {
    assert (a + b)[4..8] == a[4..8];
  }

  lemma ShortBound(s: Bytes)
    requires CutFrame(s).Short?
    ensures |s| < WIRE_HEADER_BYTES + PACKET_DATA_MAX
  {
  }

  datatype Decoded = Decoded(frames: seq<Bytes>, rest: Bytes, bad: bool)

  /** Cuts whole frames off the front of a stream until it is too short or the header is oversize. */
  function DecodeAll(s: Bytes): (d: Decoded)
    ensures forall i :: 0 <= i < |d.frames| ==> WholeFrame(d.frames[i])
    decreases |s|
  {
    match CutFrame(s)
    case Short => Decoded([], s, false)
    case Oversize => Decoded([], s, true)
    case Whole(f, rest) => var d := DecodeAll(rest); Decoded([f] + d.frames, d.rest, d.bad)
  }

  /** Nothing is lost or invented, and what is kept back is exactly an incomplete frame or a bad header. */
  lemma {:induction false} DecodeConserves(s: Bytes)
    ensures var d := DecodeAll(s);
            && Flatten(d.frames) + d.rest == s
            && (if d.bad then CutFrame(d.rest).Oversize?
                else CutFrame(d.rest).Short? && |d.rest| < WIRE_HEADER_BYTES + PACKET_DATA_MAX)
    decreases |s|
  {
    hide CutFrame;
    match CutFrame(s)
    case Short => ShortBound(s);
    case Oversize =>
    case Whole(f, rest) =>
      var d := DecodeAll(rest);
      DecodeConserves(rest);
      FlattenCons(f, d.frames);
      assert f + (Flatten(d.frames) + d.rest) == f + Flatten(d.frames) + d.rest;
  }

  /** Decoding a stream in two pieces, the second after the bytes kept back from the first. */
  lemma {:induction false} DecodeInPieces(a: Bytes, b: Bytes)
    ensures var d := DecodeAll(a);
            var e := DecodeAll(d.rest + b);
            DecodeAll(a + b) == Decoded(d.frames + e.frames, e.rest, e.bad) && (d.bad ==> e.bad && e.frames == [])
    decreases |a|
  {
    hide CutFrame, DecodeAll;
    DecodeOnce(a);
    match CutFrame(a)
    case Short =>
      assert [] + DecodeAll(a + b).frames == DecodeAll(a + b).frames;
    case Oversize =>
      CutOversize(a, b);
      DecodeOnce(a + b);
    case Whole(f, rest) =>
      DecodeInPieces(rest, b);
      CutWhole(f, rest + b);
      Regroup(f, rest, b);
      DecodeOnce(a + b);
      var d := DecodeAll(rest);
      Regroup([f], d.frames, DecodeAll(d.rest + b).frames);
  }

  /** One turn of the decoder's loop. */
  lemma DecodeOnce(s: Bytes)
    ensures var c := CutFrame(s);
            DecodeAll(s) == if c.Whole? then Prefixed([c.frame], DecodeAll(c.rest)) else Decoded([], s, c.Oversize?)
  {
    hide CutFrame;
  }

  function Encodings(ps: seq<Packet>): (fs: seq<Bytes>)
    requires forall i :: 0 <= i < |ps| ==> ValidPacket(ps[i])
    ensures |fs| == |ps|
    ensures forall i :: 0 <= i < |ps| ==> fs[i] == EncodeFrame(ps[i])
  {
    if ps == [] then [] else [EncodeFrame(ps[0])] + Encodings(ps[1..])
  }

  /** Concatenated encodings are cut back into exactly the frames they were made of. */
  lemma {:induction false} EncodingsDecode(ps: seq<Packet>)
    requires forall i :: 0 <= i < |ps| ==> ValidPacket(ps[i])
    ensures DecodeAll(Flatten(Encodings(ps))) == Decoded(Encodings(ps), [], false)
  {
    if ps != [] {
      var f := EncodeFrame(ps[0]);
      EncodedFrameDecodes(ps[0]);
      EncodingsDecode(ps[1..]);
      assert Encodings(ps)[1..] == Encodings(ps[1..]);
      CutWhole(f, Flatten(Encodings(ps[1..])));
    }
  }

  function DecodedPackets(fs: seq<Bytes>): (ps: seq<JsPacket>)
    requires forall i :: 0 <= i < |fs| ==> WholeFrame(fs[i])
    ensures |ps| == |fs| && forall i :: 0 <= i < |fs| ==> ps[i] == DecodedPacket(fs[i])
  {
    seq(|fs|, i requires 0 <= i < |fs| => DecodedPacket(fs[i]))
  }

  function ReceivedPackets(fs: seq<Bytes>): (ps: seq<Packet>)
    requires forall i :: 0 <= i < |fs| ==> WholeFrame(fs[i])
    ensures |ps| == |fs| && forall i :: 0 <= i < |fs| ==> ps[i] == ReceivedPacket(fs[i])
  {
    seq(|fs|, i requires 0 <= i < |fs| => ReceivedPacket(fs[i]))
  }

  // ---------- gateway side ----------

  datatype PushResult = Thrown | Packets(packets: seq<JsPacket>)

  /** What one `push` of `chunk` onto `buffer` returns and the buffer it leaves. */
  function PushResultOf(buffer: Bytes, chunk: Bytes): PushResult {
    var d := DecodeAll(buffer + chunk);
    if d.bad then Thrown else Packets(DecodedPackets(d.frames))
  }

  class PacketDecoder {
    var buffer: Bytes

    constructor ()
      ensures buffer == []
    {
      buffer := [];
    }

    method Push(chunk: Bytes) returns (r: PushResult)
      modifies this
      ensures buffer == DecodeAll(old(buffer) + chunk).rest
      ensures r == PushResultOf(old(buffer), chunk)
    {
      hide DecodeAll;
      buffer := buffer + chunk;
      ghost var all := buffer;
      ghost var frames: seq<Bytes> := [];
      var packets: seq<JsPacket> := [];
      assert Prefixed([], DecodeAll(all)) == DecodeAll(all);
      while |buffer| >= WIRE_HEADER_BYTES
        invariant forall i :: 0 <= i < |frames| ==> WholeFrame(frames[i])
        invariant packets == DecodedPackets(frames)
        invariant DecodeAll(all) == Prefixed(frames, DecodeAll(buffer))
        decreases |buffer|
      {
        var length := GetBE32(buffer[4..8]);
        if length > PACKET_DATA_MAX {
          DecodeStops(frames, buffer);
          return Thrown;
        }
        var totalLength := WIRE_HEADER_BYTES + length;
        if |buffer| < totalLength {
          break;
        }
        var frame := buffer[..totalLength];
        assert frame[4..8] == buffer[4..8];
        var data := frame[WIRE_HEADER_BYTES..];
        packets := packets + [JsPacket(FromWord(GetBE32(frame[0..4])), CString(frame[8..40]),
                                       CString(frame[40..72]), data, CString(data))];
        PrefixedOneMore(frames, buffer);
        frames := frames + [frame];
        buffer := buffer[totalLength..];
      }
      DecodeStops(frames, buffer);
      return Packets(packets);
    }
  }

  lemma DecodeStops(frames: seq<Bytes>, s: Bytes)
    requires !CutFrame(s).Whole?
    ensures Prefixed(frames, DecodeAll(s)) == Decoded(frames, s, CutFrame(s).Oversize?)
  {
  }

  function Prefixed(frames: seq<Bytes>, d: Decoded): Decoded {
    Decoded(frames + d.frames, d.rest, d.bad)
  }

  lemma PrefixedOneMore(frames: seq<Bytes>, s: Bytes)
    requires CutFrame(s).Whole?
    ensures Prefixed(frames, DecodeAll(s)) == Prefixed(frames + [CutFrame(s).frame], DecodeAll(CutFrame(s).rest))
  {
    hide CutFrame, DecodeAll;
    DecodeOnce(s);
    Regroup(frames, [CutFrame(s).frame], DecodeAll(CutFrame(s).rest).frames);
  }

  /** A run of pushes on one decoder, up to the first one that throws. */
  function PushRun(buffer: Bytes, chunks: seq<Bytes>): (r: Decoded)
    ensures forall i :: 0 <= i < |r.frames| ==> WholeFrame(r.frames[i])
    decreases |chunks|
  {
    if chunks == [] then Decoded([], buffer, false)
    else
      var d := DecodeAll(buffer + chunks[0]);
      if d.bad then Decoded([], d.rest, true) else Prefixed(d.frames, PushRun(d.rest, chunks[1..]))
  }

  /** The frames completed by the push that throws, which that push does not report. */
  function LostFrames(buffer: Bytes, chunks: seq<Bytes>): seq<Bytes>
    decreases |chunks|
  {
    if chunks == [] then []
    else
      var d := DecodeAll(buffer + chunks[0]);
      if d.bad then d.frames else LostFrames(d.rest, chunks[1..])
  }

  /**
   A run of pushes throws exactly when the whole stream has an oversize header. Otherwise it reports
   the same frames however the stream was cut. When it throws, the frames missing from the report
   are exactly those completed by the throwing call itself.
   */
  lemma {:induction false} CuttingDoesNotMatter(buffer: Bytes, chunks: seq<Bytes>)
    requires CutFrame(buffer).Short?
    ensures var d, r := DecodeAll(buffer + Flatten(chunks)), PushRun(buffer, chunks);
            && r.bad == d.bad && r.frames + LostFrames(buffer, chunks) == d.frames
            && (!d.bad ==> r == d)
    decreases |chunks|
  {
    hide CutFrame, DecodeAll;
    if chunks == [] {
      DecodeStops([], buffer);
      assert buffer + Flatten(chunks) == buffer;
    } else {
      var a, b := buffer + chunks[0], Flatten(chunks[1..]);
      assert buffer + Flatten(chunks) == a + b;
      DecodeInPieces(a, b);
      DecodeConserves(a);
      var d := DecodeAll(a);
      if !d.bad {
        CuttingDoesNotMatter(d.rest, chunks[1..]);
        assert d.frames + (PushRun(d.rest, chunks[1..]).frames + LostFrames(d.rest, chunks[1..]))
            == d.frames + PushRun(d.rest, chunks[1..]).frames + LostFrames(d.rest, chunks[1..]);
      }
    }
  }

  /**
   After any run of pushes that did not throw, on a fresh decoder: the frames reported followed by
   the buffer are all the bytes pushed, and the buffer is an incomplete frame of under 1096 bytes.
   */
  lemma PushRunConserves(chunks: seq<Bytes>)
    requires !PushRun([], chunks).bad
    ensures var r := PushRun([], chunks);
            && Flatten(r.frames) + r.rest == Flatten(chunks)
            && CutFrame(r.rest).Short? && |r.rest| < WIRE_HEADER_BYTES + PACKET_DATA_MAX
  {
    EmptyIsShort();
    CuttingDoesNotMatter([], chunks);
    assert [] + Flatten(chunks) == Flatten(chunks);
    DecodeConserves(Flatten(chunks));
  }

  /** Packets encoded one after another come back whole and in order under any cutting. */
  lemma FramingUnderAnyCutting(ps: seq<Packet>, chunks: seq<Bytes>)
    requires forall i :: 0 <= i < |ps| ==> ValidPacket(ps[i])
    requires Flatten(chunks) == Flatten(Encodings(ps))
    ensures PushRun([], chunks) == Decoded(Encodings(ps), [], false)
    ensures DecodedPackets(PushRun([], chunks).frames) == seq(|ps|, i requires 0 <= i < |ps| => JsView(ps[i]))
  {
    hide CutFrame, DecodeAll, PushRun, Flatten, LostFrames, EncodeFrame, RawPacket, Encodings, ValidPacket;
    EmptyIsShort();
    CuttingDoesNotMatter([], chunks);
    assert [] + Flatten(chunks) == Flatten(chunks);
    EncodingsDecode(ps);
    forall i | 0 <= i < |ps| ensures RawPacket(EncodeFrame(ps[i])) == ps[i] {
      EncodedFrameDecodes(ps[i]);
    }
  }

  /** After a push has thrown, the bytes it keeps make every later push throw, whatever arrives. */
  lemma OversizeHeaderSticks(buffer: Bytes, chunk: Bytes, later: Bytes)
    requires PushResultOf(buffer, chunk).Thrown?
    ensures PushResultOf(DecodeAll(buffer + chunk).rest, later).Thrown?
    ensures DecodeAll(DecodeAll(buffer + chunk).rest + later).rest == DecodeAll(buffer + chunk).rest + later
  {
    DecodeConserves(buffer + chunk);
    CutOversize(DecodeAll(buffer + chunk).rest, later);
  }

  /**
   The call that throws reports nothing: a frame completed by the same call as an oversize header
   is lost, although it is reported when it arrives in a call of its own.
   */
  lemma PacketsLostWithBadHeader(p: Packet, tail: Bytes)
    requires ValidPacket(p) && CutFrame(tail).Oversize?
    ensures PushRun([], [EncodeFrame(p) + tail]) == Decoded([], tail, true)
    ensures PushRun([], [EncodeFrame(p), tail]) == Decoded([EncodeFrame(p)], tail, true)
  {
    hide CutFrame, DecodeAll, EncodeFrame;
    var f := EncodeFrame(p);
    EncodedFrameDecodes(p);
    CutWhole(f, tail);
    CutWhole(f, []);
    EmptyIsShort();
    DecodeOnce(f + tail);
    DecodeOnce(f);
    DecodeOnce(tail);
    DecodeOnce([]);
    assert f + [] == f && [] + f == f && [] + (f + tail) == f + tail && [] + tail == tail;
    assert [f + tail][0] == f + tail && [f, tail][1..] == [tail];
    assert PushRun([], [f, tail]) == Prefixed([f], PushRun([], [tail]));
  }

  lemma EmptyIsShort()
    ensures CutFrame([]).Short?
  {
  }

  /** `writeFixedCString`: `None` when the text does not leave room for a terminator. */
  method WriteFixedCString(target: array<byte>, offset: nat, size: nat, text: Bytes) returns (ok: bool)
    requires offset + size <= target.Length && 0 < size
    modifies target
    ensures ok == (|text| < size)
    ensures !ok ==> target[..] == old(target[..])
    ensures ok ==> target[..] == old(target[..offset]) + Fixed(text, size) + old(target[offset + size..])
  {
    if |text| >= size {
      return false;
    }
    forall i | offset <= i < offset + size {
      target[i] := NUL;
    }
    forall i | 0 <= i < |text| {
      target[offset + i] := text[i];
    }
    return true;
  }

  method WriteBE32(target: array<byte>, offset: nat, n: nat)
    requires offset + 4 <= target.Length && n < 0x1_0000_0000
    modifies target
    ensures target[..] == old(target[..offset]) + PutBE32(n) + old(target[offset + 4..])
  {
    var b := PutBE32(n);
    forall i | 0 <= i < 4 {
      target[offset + i] := b[i];
    }
  }

  predicate Encodable(kind: int, sender: Bytes, receiver: Bytes, data: Bytes) {
    -0x8000_0000 <= kind < 0x8000_0000 && |data| <= PACKET_DATA_MAX
    && |sender| < USERNAME_MAX_LEN && |receiver| < USERNAME_MAX_LEN
  }

  /** `encodePacket`: throws (`None`) on over-long names or data, else writes the C wire layout. */
  method EncodePacket(kind: int, sender: Bytes, receiver: Bytes, data: Bytes) returns (r: Option<Bytes>)
    ensures r.Some? <==> Encodable(kind, sender, receiver, data)
    ensures r.Some? ==> PacketInit(kind, sender, receiver, data).Some?
                        && ValidPacket(PacketInit(kind, sender, receiver, data).value)
                        && r.value == EncodeFrame(PacketInit(kind, sender, receiver, data).value)
  {
    if |data| > PACKET_DATA_MAX || !(-0x8000_0000 <= kind < 0x8000_0000) {
      return None;
    }
    var header := new byte[WIRE_HEADER_BYTES](_ => NUL);
    WriteBE32(header, 0, ToWord(kind));
    WriteBE32(header, 4, |data|);
    var ok := WriteFixedCString(header, 8, USERNAME_MAX_LEN, sender);
    if !ok {
      return None;
    }
    ok := WriteFixedCString(header, 40, USERNAME_MAX_LEN, receiver);
    if !ok {
      return None;
    }
    assert header[..] == PutBE32(ToWord(kind)) + PutBE32(|data|)
                         + Fixed(sender, USERNAME_MAX_LEN) + Fixed(receiver, USERNAME_MAX_LEN);
    return Some(header[..] + data);
  }
}
