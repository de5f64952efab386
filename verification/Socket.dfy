/**
 The C side of the framing: `send_all` and `recv_all` over a stream socket whose system calls may
 move fewer bytes than asked, be interrupted, or fail.
 */
module Socket {
  import opened Basics
  import opened Wire

  /** What one `send` or `recv` call does: `errno == EINTR`, another error, or up to `n` bytes moved. */
  datatype Outcome = Interrupted | Failed | Moved(n: nat)

  datatype IoResult = Eintr | IoError | Count(n: nat)

  predicate Suffix<T(==)>(a: seq<T>, b: seq<T>) {
    |a| <= |b| && a == b[|b| - |a|..]
  }

  lemma SuffixThen<T>(a: seq<T>, b: seq<T>, c: seq<T>)
    requires Suffix(a, b) && Suffix(b, c)
    ensures Suffix(a, c)
  {
  }

  lemma SuffixAt<T>(s: seq<T>, k: nat)
    requires k <= |s|
    ensures Suffix(s[k..], s) && s[0..] == s
  {
  }

  /** The next `n` bytes of a stream from which `got` have been taken. */
  lemma Taken<T>(stream: seq<T>, got: nat, n: nat)
    requires got + n <= |stream|
    ensures stream[..got] + stream[got..][..n] == stream[..got + n] && stream[got..][n..] == stream[got + n..]
  {
  }

  lemma SuffixHas<T>(a: seq<T>, b: seq<T>, x: T)
    requires Suffix(a, b)
    ensures x in a ==> x in b
  {
  }

  /** Packets as `packet_init` and `recv_packet` leave them: both names end in NUL. */
  predicate AllEnded(ps: seq<Packet>) {
    forall i :: 0 <= i < |ps| ==>
      ValidPacket(ps[i]) && ps[i].sender[USERNAME_MAX_LEN - 1] == NUL && ps[i].receiver[USERNAME_MAX_LEN - 1] == NUL
  }

  /** Encoded packets are received as they were. */
  lemma EncodingsReceived(ps: seq<Packet>)
    requires AllEnded(ps)
    ensures ReceivedPackets(DecodeAll(Flatten(Encodings(ps))).frames) == ps
  {
    hide EncodeFrame, RawPacket, DecodeAll, Flatten;
    EncodingsDecode(ps);
    var fs := Encodings(ps);
    forall i | 0 <= i < |ps| ensures WholeFrame(fs[i]) && ReceivedPacket(fs[i]) == ps[i] {
      EncodedFrameDecodes(ps[i]);
    }
  }

  /**
   One end of a connection. `script` fixes the outcomes of the coming calls; when it is used up every
   call moves all it can, so a script stands for any behaviour over a finite run.
   */
  class Connection {
    var incoming: Bytes
    var outgoing: Bytes
    var script: seq<Outcome>

    constructor (incoming: Bytes, script: seq<Outcome>)
      ensures this.incoming == incoming && this.outgoing == [] && this.script == script
    {
      this.incoming, this.outgoing, this.script := incoming, [], script;
    }

    method NextOutcome(all: nat) returns (o: Outcome)
      modifies this`script
      ensures Suffix(script, old(script))
      ensures o.Interrupted? ==> |script| < |old(script)|
      ensures o.Failed? ==> Failed in old(script)
      ensures o.Moved? && o.n == 0 && 0 < all ==> Moved(0) in old(script)
    {
      if script == [] {
        return Moved(all);
      }
      o := script[0];
      script := script[1..];
    }

    /** `recv`: 0 bytes only at the end of the stream. */
    method Recv(buf: array<byte>, offset: nat, want: nat) returns (r: IoResult)
      requires 0 < want && offset + want <= buf.Length
      modifies this`incoming, this`script, buf
      ensures Suffix(script, old(script))
      ensures r.Eintr? ==> |script| < |old(script)|
      ensures r.IoError? ==> Failed in old(script)
      ensures !r.Count? ==> incoming == old(incoming) && buf[..] == old(buf[..])
      ensures r.Count? ==> r.n <= want && r.n <= |old(incoming)| && (r.n == 0 <==> old(incoming) == [])
      ensures r.Count? ==> incoming == old(incoming)[r.n..]
                           && buf[..] == old(buf[..offset]) + old(incoming)[..r.n] + old(buf[offset + r.n..])
    {
      hide Suffix;
      var o := NextOutcome(want);
      match o
      case Interrupted => return Eintr;
      case Failed => return IoError;
      case Moved(m) =>
        var n := Min(if m == 0 then 1 else m, Min(want, |incoming|));
        ghost var before, taken, after := buf[..offset], incoming[..n], buf[offset + n..];
        forall i | 0 <= i < n {
          buf[offset + i] := incoming[i];
        }
        assert buf[..offset] == before && buf[offset..offset + n] == taken && buf[offset + n..] == after;
        assert buf[..] == buf[..offset] + buf[offset..offset + n] + buf[offset + n..];
        incoming := incoming[n..];
        return Count(n);
    }

    /** `recv_all`: fills the buffer whatever the short reads, or reports failure. */
    method RecvAll(buf: array<byte>) returns (ok: bool)
      modifies this`incoming, this`script, buf
      ensures Suffix(script, old(script)) && Suffix(incoming, old(incoming))
      ensures ok ==> buf.Length <= |old(incoming)| && buf[..] == old(incoming)[..buf.Length]
                     && incoming == old(incoming)[buf.Length..]
      ensures !ok ==> Failed in old(script) || |old(incoming)| < buf.Length
    {
      hide Suffix;
      ghost var start, stream := script, incoming;
      SuffixAt(start, 0);
      var got := 0;
      while got < buf.Length
        invariant got <= buf.Length && got <= |stream|
        invariant buf[..got] == stream[..got] && incoming == stream[got..]
        invariant Suffix(script, start)
        decreases buf.Length - got, |script|
      {
        ghost var before, middle, rest := buf[..got], script, incoming;
        var r := Recv(buf, got, buf.Length - got);
        SuffixThen(script, middle, start);
        SuffixHas(middle, start, Failed);
        SuffixAt(stream, got);
        assert buf[..got] == before;
        if r.Eintr? {
          continue;
        }
        if r.IoError? {
          return false;
        }
        if r.n == 0 {
          return false;
        }
        Taken(stream, got, r.n);
        assert buf[..got + r.n] == before + rest[..r.n];
        got := got + r.n;
      }
      SuffixAt(stream, got);
      assert buf[..] == buf[..got];
      return true;
    }

    /** `send`: may take fewer bytes than offered, or none. */
    method Send(data: Bytes) returns (r: IoResult)
      requires 0 < |data|
      modifies this`outgoing, this`script
      ensures Suffix(script, old(script))
      ensures r.Eintr? ==> |script| < |old(script)|
      ensures r.IoError? ==> Failed in old(script)
      ensures !r.Count? ==> outgoing == old(outgoing)
      ensures r.Count? ==> r.n <= |data| && outgoing == old(outgoing) + data[..r.n]
      ensures r.Count? && r.n == 0 ==> Moved(0) in old(script)
    {
      var o := NextOutcome(|data|);
      match o
      case Interrupted => return Eintr;
      case Failed => return IoError;
      case Moved(m) =>
        var n := Min(m, |data|);
        outgoing := outgoing + data[..n];
        return Count(n);
    }

    /** `send_all`: on failure some prefix of the data has gone out. */
    method SendAll(data: Bytes) returns (ok: bool)
      modifies this`outgoing, this`script
      ensures Suffix(script, old(script))
      ensures ok ==> outgoing == old(outgoing) + data
      ensures !ok ==> (Failed in old(script) || Moved(0) in old(script))
                      && exists k :: 0 <= k < |data| && outgoing == old(outgoing) + data[..k]
    {
      var sent := 0;
      while sent < |data|
        invariant sent <= |data| && outgoing == old(outgoing) + data[..sent]
        invariant Suffix(script, old(script))
        decreases |data| - sent, |script|
      {
        var r := Send(data[sent..]);
        if r.Eintr? {
          continue;
        }
        if r.IoError? {
          return false;
        }
        if r.n == 0 {
          assert old(outgoing) + data[..sent] + data[sent..][..0] == old(outgoing) + data[..sent];
          return false;
        }
        assert data[..sent] + data[sent..][..r.n] == data[..sent + r.n];
        sent := sent + r.n;
      }
      assert data[..sent] == data;
      return true;
    }

    /** `send_packet`: header first, then the data if there is any. */
    method SendPacket(p: Packet) returns (ok: bool)
      requires ValidPacket(p)
      modifies this`outgoing, this`script
      ensures Suffix(script, old(script))
      ensures ok ==> outgoing == old(outgoing) + EncodeFrame(p)
      ensures !ok ==> Failed in old(script) || Moved(0) in old(script)
    {
      var header := PutBE32(ToWord(p.kind)) + PutBE32(|p.data|) + p.sender + p.receiver;
      ok := SendAll(header);
      if !ok {
        return;
      }
      if |p.data| > 0 {
        ok := SendAll(p.data);
        assert old(outgoing) + header + p.data == old(outgoing) + EncodeFrame(p);
      } else {
        assert header == EncodeFrame(p);
      }
    }

    /**
     `recv_packet`: takes exactly the first frame of the stream, under any short reads. It fails only
     when the socket fails or the stream does not start with a whole frame.
     */
    method RecvPacket() returns (r: Option<Packet>)
      modifies this`incoming, this`script
      ensures Suffix(script, old(script)) && Suffix(incoming, old(incoming))
      ensures r.Some? ==> CutFrame(old(incoming)).Whole?
                          && r.value == ReceivedPacket(CutFrame(old(incoming)).frame)
                          && incoming == CutFrame(old(incoming)).rest
      ensures r.None? ==> Failed in old(script) || !CutFrame(old(incoming)).Whole?
    {
      hide CutFrame, ReceivedPacket, GetBE32, FromWord, Suffix;
      ghost var stream, start := incoming, script;
      NotWhole(stream);
      var header := new byte[WIRE_HEADER_BYTES];
      var ok := RecvAll(header);
      SuffixHas(script, start, Failed);
      if !ok {
        return None;
      }
      ghost var afterHeader, middle := incoming, script;
      var length := GetBE32(header[4..8]);
      SameLength(stream, header[..]);
      if length > PACKET_DATA_MAX {
        return None;
      }
      var data := new byte[length];
      if length > 0 {
        ok := RecvAll(data);
        SuffixThen(script, middle, start);
        SuffixThen(incoming, afterHeader, stream);
        if !ok {
          return None;
        }
      }
      FirstFrame(stream, header[..], data[..], afterHeader, incoming);
      return Some(Packet(FromWord(GetBE32(header[0..4])), header[8..40][31 := NUL], header[40..72][31 := NUL], data[..]));
    }

    /**
     The receive loop of `client_handler` and `recv_thread`: if the socket itself never fails it
     yields exactly the frames that the gateway's decoder would cut from the same stream. In
     particular it yields any list of packets that was encoded onto the stream.
     */
    method ReceiveLoop() returns (packets: seq<Packet>)
      modifies this`incoming, this`script
      ensures Failed !in old(script) ==> packets == ReceivedPackets(DecodeAll(old(incoming)).frames)
      ensures forall ps :: Failed !in old(script) && AllEnded(ps) && old(incoming) == Flatten(Encodings(ps)) ==> packets == ps
    {
      forall ps | AllEnded(ps) && incoming == Flatten(Encodings(ps))
        ensures ReceivedPackets(DecodeAll(incoming).frames) == ps
      {
        EncodingsReceived(ps);
      }
      packets := [];
      ghost var frames: seq<Bytes> := [];
      ghost var failing := Failed in script;
      assert Prefixed([], DecodeAll(incoming)) == DecodeAll(incoming);
      while true
        invariant Failed in script ==> failing
        invariant forall i :: 0 <= i < |frames| ==> WholeFrame(frames[i])
        invariant packets == ReceivedPackets(frames)
        invariant DecodeAll(old(incoming)) == Prefixed(frames, DecodeAll(incoming))
        decreases |incoming|
      {
        ghost var s := incoming;
        var r := RecvPacket();
        if r.None? {
          if !failing { DecodeStops(frames, s); }
          return;
        }
        PrefixedOneMore(frames, s);
        packets := packets + [r.value];
        frames := frames + [CutFrame(s).frame];
      }
    }
  }

  /** A header and its data are the first frame of the stream they came from. */
  lemma HeaderParts(header: Bytes, data: Bytes, rest: Bytes)
    requires |header| == WIRE_HEADER_BYTES && |data| == GetBE32(header[4..8]) <= PACKET_DATA_MAX
    ensures var f := header + data;
            && CutFrame(f + rest) == Whole(f, rest)
            && ReceivedPacket(f)
               == Packet(FromWord(GetBE32(header[0..4])), header[8..40][31 := NUL], header[40..72][31 := NUL], data)
  {
    hide GetBE32, CutFrame;
    var f := header + data;
    assert f[0..4] == header[0..4] && f[4..8] == header[4..8] && f[8..40] == header[8..40] && f[40..72] == header[40..72]
        && f[72..] == data;
    CutWhole(f, rest);
  }

  lemma SameLength(stream: Bytes, header: Bytes)
    requires |stream| >= WIRE_HEADER_BYTES && header == stream[..WIRE_HEADER_BYTES]
    ensures stream[4..8] == header[4..8]
  {
  }

  /** What was taken off a stream for a header and its data is its first frame. */
  lemma FirstFrame(stream: Bytes, header: Bytes, data: Bytes, afterHeader: Bytes, rest: Bytes)
    requires |stream| >= WIRE_HEADER_BYTES && header == stream[..WIRE_HEADER_BYTES] && afterHeader == stream[WIRE_HEADER_BYTES..]
    requires |data| == GetBE32(header[4..8]) <= PACKET_DATA_MAX && |data| <= |afterHeader|
    requires data == afterHeader[..|data|] && rest == afterHeader[|data|..]
    ensures CutFrame(stream) == Whole(header + data, rest)
    ensures ReceivedPacket(header + data)
            == Packet(FromWord(GetBE32(header[0..4])), header[8..40][31 := NUL], header[40..72][31 := NUL], data)
  {
    hide GetBE32, CutFrame, ReceivedPacket, FromWord;
    assert stream == header + data + rest;
    HeaderParts(header, data, rest);
  }

  lemma NotWhole(s: Bytes)
    ensures |s| < WIRE_HEADER_BYTES ==> !CutFrame(s).Whole?
    ensures |s| >= WIRE_HEADER_BYTES ==>
              (CutFrame(s).Whole? <==> GetBE32(s[4..8]) <= PACKET_DATA_MAX && |s| >= WIRE_HEADER_BYTES + GetBE32(s[4..8]))
  {
  }

  /** Names set by `packet_init` from short C strings read the same in C and in the gateway. */
  lemma BothSidesAgree(kind: int, sender: Bytes, receiver: Bytes, data: Bytes)
    requires NUL !in sender && NUL !in receiver && Encodable(kind, sender, receiver, data)
    ensures var p := PacketInit(kind, sender, receiver, data).value;
            && ValidPacket(p) && WholeFrame(EncodeFrame(p))
            && ReceivedPacket(EncodeFrame(p)) == p
            && DecodedPacket(EncodeFrame(p)) == JsPacket(kind, sender, receiver, data, CString(data))
  {
    hide EncodeFrame, RawPacket, CString, Fixed, WholeFrame;
    var p := PacketInit(kind, sender, receiver, data).value;
    InitIsValid(kind, sender, receiver, data);
    EncodedFrameDecodes(p);
    FixedReadsBack(sender, USERNAME_MAX_LEN);
    FixedReadsBack(receiver, USERNAME_MAX_LEN);
  }

  lemma InitIsValid(kind: int, sender: Bytes, receiver: Bytes, data: Bytes)
    requires Encodable(kind, sender, receiver, data)
    ensures var p := PacketInit(kind, sender, receiver, data).value;
            ValidPacket(p) && p == p.(sender := p.sender[31 := NUL], receiver := p.receiver[31 := NUL])
  {
    FixedEndsInNul(sender, USERNAME_MAX_LEN);
    FixedEndsInNul(receiver, USERNAME_MAX_LEN);
  }
}
