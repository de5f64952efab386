/** Sending a file in chunks (client/client.c) and putting it together again, in C and in the gateway. */
module FileTransfer {
  import opened Basics
  import opened Wire
  import opened DownloadPath
  import G = Gateway
  import P = Payload

  // ---------- sending ----------

  /** The pieces in which `fread` hands out a file. */
  function Chunks(file: Bytes): (cs: seq<Bytes>)
    ensures forall i :: 0 <= i < |cs| ==> 0 < |cs[i]| <= PACKET_DATA_MAX
    decreases |file|
  {
    if file == [] then []
    else if |file| <= PACKET_DATA_MAX then [file]
    else [file[..PACKET_DATA_MAX]] + Chunks(file[PACKET_DATA_MAX..])
  }

  /** All chunks but the last have 1024 bytes, and the last has at least one. */
  lemma {:induction false} ChunkSizes(file: Bytes)
    ensures forall i :: 0 <= i < |Chunks(file)| ==>
              0 < |Chunks(file)[i]| <= 1024 && (i + 1 < |Chunks(file)| ==> |Chunks(file)[i]| == 1024)
    decreases |file|
  {
    if |file| > PACKET_DATA_MAX {
      ChunkSizes(file[PACKET_DATA_MAX..]);
      assert Chunks(file)[1..] == Chunks(file[PACKET_DATA_MAX..]);
      forall i | 0 <= i < |Chunks(file)| ensures 0 < |Chunks(file)[i]| <= 1024 && (i + 1 < |Chunks(file)| ==> |Chunks(file)[i]| == 1024) {
        if i > 0 { assert Chunks(file)[i] == Chunks(file[PACKET_DATA_MAX..])[i - 1]; }
      }
    }
  }

  /** The chunks join back to the file. */
  lemma {:induction false} ChunksJoin(file: Bytes)
    ensures Flatten(Chunks(file)) == file
    decreases |file|
  {
    if 0 < |file| <= PACKET_DATA_MAX {
      FlattenCons(file, []);
      assert [file] + [] == [file] && file + [] == file;
    } else if file != [] {
      var a, b := file[..PACKET_DATA_MAX], file[PACKET_DATA_MAX..];
      ChunksJoin(b);
      FlattenCons(a, Chunks(b));
      assert file == a + b;
    }
  }

  function ChunkPackets(sender: Bytes, receiver: Bytes, cs: seq<Bytes>): seq<Packet> {
    if cs == [] then [] else [PackedPacket(MSG_FILE_CHUNK, sender, receiver, cs[0])] + ChunkPackets(sender, receiver, cs[1..])
  }

  function SentName(path: Bytes): (r: Bytes)
    ensures |r| < FILE_NAME_MAX_LEN && SLASH !in r && (NUL !in path ==> NUL !in r)
  {
    var base := BaseFilename(path);
    base[..Min(|base|, FILE_NAME_MAX_LEN - 1)]
  }

  /** A path's base name is sent as it is, up to 255 bytes of it. */
  lemma SentNameMeaning(path: Bytes)
    ensures SentName(path) <= BaseFilename(path) && |SentName(path)| == Min(|BaseFilename(path)|, 255)
  {
    hide BaseFilename;
  }

  function BeginPacket(sender: Bytes, receiver: Bytes, path: Bytes, file: Bytes): Packet {
    PackedPacket(MSG_FILE_BEGIN, sender, receiver, G.FileBeginPayload(SentName(path), |file|))
  }

  function EndPacket(sender: Bytes, receiver: Bytes): Packet {
    PackedPacket(MSG_FILE_END, sender, receiver, [])
  }

  function Transfer(sender: Bytes, receiver: Bytes, path: Bytes, file: Bytes): seq<Packet> {
    [BeginPacket(sender, receiver, path, file)] + ChunkPackets(sender, receiver, Chunks(file)) + [EndPacket(sender, receiver)]
  }

  lemma {:induction false} MoreChunks(sender: Bytes, receiver: Bytes, a: seq<Bytes>, b: seq<Bytes>)
    ensures ChunkPackets(sender, receiver, a + b) == ChunkPackets(sender, receiver, a) + ChunkPackets(sender, receiver, b)
  {
    hide PackedPacket;
    if a == [] {
      assert a + b == b;
    } else {
      MoreChunks(sender, receiver, a[1..], b);
      assert (a + b)[0] == a[0] && (a + b)[1..] == a[1..] + b;
      Regroup([PackedPacket(MSG_FILE_CHUNK, sender, receiver, a[0])], ChunkPackets(sender, receiver, a[1..]),
              ChunkPackets(sender, receiver, b));
    }
  }

  lemma OneChunk(sender: Bytes, receiver: Bytes, b: Bytes)
    ensures ChunkPackets(sender, receiver, [b]) == [PackedPacket(MSG_FILE_CHUNK, sender, receiver, b)]
  {
    assert [b][1..] == [];
  }

  /** What one read takes off the rest of the file is its next chunk. */
  lemma NextChunk(rest: Bytes)
    ensures rest == [] ==> Chunks(rest) == []
    ensures rest != [] ==> var n := Min(PACKET_DATA_MAX, |rest|);
                           Chunks(rest) == [rest[..n]] + Chunks(rest[n..])
  {
    if 0 < |rest| <= PACKET_DATA_MAX {
      assert rest[..|rest|] == rest && rest[|rest|..] == [];
    }
  }

  lemma PartsOfRest(file: Bytes, position: nat, n: nat)
    requires position + n <= |file|
    ensures file[position..][..n] == file[position..position + n] && file[position..][n..] == file[position + n..]
  {
  }

  /** What `fread` puts into the buffer at the given position. */
  function Read(content: Bytes, position: nat): (buffer: Bytes)
    requires position <= |content|
    ensures |buffer| == Min(PACKET_DATA_MAX, |content| - position)
  {
    content[position..position + Min(PACKET_DATA_MAX, |content| - position)]
  }

  /** The part of a file before the first byte that cannot be read. */
  function ReadablePart(file: Bytes, readable: nat): (content: Bytes)
    ensures |content| == Min(readable, |file|)
  {
    file[..Min(readable, |file|)]
  }

  /** One read moves the next chunk of the file to those sent. */
  lemma ReadOn(file: Bytes, position: nat, n: nat, sent: seq<Bytes>)
    requires position < |file| && n == Min(PACKET_DATA_MAX, |file| - position)
    ensures sent + Chunks(file[position..]) == sent + [file[position..position + n]] + Chunks(file[position + n..])
  {
    var rest := file[position..];
    NextChunk(rest);
    PartsOfRest(file, position, n);
    hide *;
    Regroup(sent, [file[position..position + n]], Chunks(file[position + n..]));
  }

  /** The packets that `send_file` tries to send when only the first `readable` bytes of the file can be read. */
  function Attempted(sender: Bytes, receiver: Bytes, path: Bytes, file: Bytes, readable: nat): seq<Packet> {
    if |file| > FILE_TRANSFER_MAX_BYTES then []
    else if readable >= |file| then Transfer(sender, receiver, path, file)
    else [BeginPacket(sender, receiver, path, file)] + ChunkPackets(sender, receiver, Chunks(file[..readable]))
  }

  function EndIf(whole: bool, sender: Bytes, receiver: Bytes): seq<Packet> {
    if whole then [EndPacket(sender, receiver)] else []
  }

  lemma AttemptedIs(sender: Bytes, receiver: Bytes, path: Bytes, file: Bytes, readable: nat)
    requires |file| <= FILE_TRANSFER_MAX_BYTES
    ensures Attempted(sender, receiver, path, file, readable)
            == [BeginPacket(sender, receiver, path, file)]
               + ChunkPackets(sender, receiver, Chunks(file[..Min(readable, |file|)])) + EndIf(readable >= |file|, sender, receiver)
  {
    hide Chunks, ChunkPackets, BeginPacket, EndPacket;
    assert file[..|file|] == file;
  }

  function UpTo(ps: seq<Packet>, n: nat): seq<Packet> {
    ps[..Min(|ps|, n)]
  }

  predicate Begins(ps: seq<Packet>, all: seq<Packet>) {
    ps <= all
  }

  lemma CutHere(ps: seq<Packet>, all: seq<Packet>, n: nat)
    requires Begins(ps, all)
    ensures |ps| <= |all|
    ensures |ps| == n || (|ps| == |all| && |ps| <= n) ==> ps == UpTo(all, n)
  {
  }

  lemma NothingOut(all: seq<Packet>)
    ensures UpTo(all, 0) == []
  {
  }

  lemma EndOfAll(ps: seq<Packet>, all: seq<Packet>, whole: bool, sender: Bytes, receiver: Bytes)
    requires all == ps + EndIf(whole, sender, receiver)
    ensures whole ==> |all| == |ps| + 1 && Begins(ps + [EndPacket(sender, receiver)], all)
    ensures !whole ==> all == ps
  {
    hide EndPacket;
  }

  /** What has gone out when `sent` are the chunks sent. */
  function Out(sender: Bytes, receiver: Bytes, path: Bytes, file: Bytes, sent: seq<Bytes>): seq<Packet> {
    [BeginPacket(sender, receiver, path, file)] + ChunkPackets(sender, receiver, sent)
  }

  /** What has gone out is a beginning of what is to be tried. */
  lemma OutIsPrefix(sender: Bytes, receiver: Bytes, path: Bytes, file: Bytes, readable: nat, sent: seq<Bytes>, rest: seq<Bytes>)
    requires |file| <= FILE_TRANSFER_MAX_BYTES && Chunks(file[..Min(readable, |file|)]) == sent + rest
    ensures Out(sender, receiver, path, file, sent) <= Attempted(sender, receiver, path, file, readable)
    ensures rest == [] ==> Attempted(sender, receiver, path, file, readable)
                           == Out(sender, receiver, path, file, sent) + EndIf(readable >= |file|, sender, receiver)
  {
    hide Attempted, Chunks, ChunkPackets, BeginPacket, EndIf;
    AttemptedIs(sender, receiver, path, file, readable);
    MoreChunks(sender, receiver, sent, rest);
    if rest == [] { assert sent + rest == sent; }
  }

  lemma OutGrows(sender: Bytes, receiver: Bytes, path: Bytes, file: Bytes, sent: seq<Bytes>, chunk: Bytes)
    ensures Out(sender, receiver, path, file, sent + [chunk])
            == Out(sender, receiver, path, file, sent) + [PackedPacket(MSG_FILE_CHUNK, sender, receiver, chunk)]
  {
    hide ChunkPackets, PackedPacket, BeginPacket;
    MoreChunks(sender, receiver, sent, [chunk]);
    OneChunk(sender, receiver, chunk);
    Regroup([BeginPacket(sender, receiver, path, file)], ChunkPackets(sender, receiver, sent),
            [PackedPacket(MSG_FILE_CHUNK, sender, receiver, chunk)]);
  }

  lemma OutStarts(sender: Bytes, receiver: Bytes, path: Bytes, file: Bytes)
    ensures Out(sender, receiver, path, file, []) == [BeginPacket(sender, receiver, path, file)]
  {
  }

  /** The chunks sent and those still in the part of the file not read yet. */
  ghost predicate ReadUpTo(content: Bytes, position: nat, sent: seq<Bytes>) {
    position <= |content| && Chunks(content) == sent + Chunks(content[position..])
  }

  lemma ReadSplits(content: Bytes, position: nat, n: nat, sent: seq<Bytes>)
    requires ReadUpTo(content, position, sent) && position < |content| && n == |Read(content, position)|
    ensures ReadUpTo(content, position + n, sent + [Read(content, position)])
    ensures position + n <= |content| && (n < PACKET_DATA_MAX ==> position + n == |content|)
  {
    hide Chunks;
    ReadOn(content, position, n, sent);
  }

  lemma SplitEnds(content: Bytes, sent: seq<Bytes>)
    ensures ReadUpTo(content, 0, [])
    ensures ReadUpTo(content, |content|, sent) ==> Chunks(content) == sent
  {
    hide Chunks;
    NextChunk(content[|content|..]);
    assert content[0..] == content && [] + Chunks(content) == Chunks(content) && content[|content|..] == [] && sent + [] == sent;
  }

  lemma AllOut(sender: Bytes, receiver: Bytes, path: Bytes, file: Bytes, readable: nat, position: nat, sent: seq<Bytes>)
    requires |file| <= FILE_TRANSFER_MAX_BYTES && ReadUpTo(ReadablePart(file, readable), position, sent)
    ensures Begins(Out(sender, receiver, path, file, sent), Attempted(sender, receiver, path, file, readable))
    ensures position == Min(readable, |file|) ==>
              Attempted(sender, receiver, path, file, readable)
              == Out(sender, receiver, path, file, sent) + EndIf(readable >= |file|, sender, receiver)
  {
    hide Attempted, Chunks, Out;
    var content := file[..Min(readable, |file|)];
    OutIsPrefix(sender, receiver, path, file, readable, sent, Chunks(content[position..]));
    if position == |content| { NextChunk(content[position..]); }
  }

  /** One turn of the loop: the next chunk is read, and either it goes out or this is where the sending ends. */
  lemma NextPiece(sender: Bytes, receiver: Bytes, path: Bytes, file: Bytes, readable: nat, position: nat, sent: seq<Bytes>,
                  packets: seq<Packet>, sendable: nat)
    requires |file| <= FILE_TRANSFER_MAX_BYTES && ReadUpTo(ReadablePart(file, readable), position, sent)
    requires position < |ReadablePart(file, readable)| && packets == Out(sender, receiver, path, file, sent) && |packets| <= sendable
    requires Begins(packets, Attempted(sender, receiver, path, file, readable))
    ensures var content, all := ReadablePart(file, readable), Attempted(sender, receiver, path, file, readable);
            var buffer := Read(content, position);
            var more := packets + [PackedPacket(MSG_FILE_CHUNK, sender, receiver, buffer)];
            && ReadUpTo(content, position + |buffer|, sent + [buffer]) && position + |buffer| <= |content|
            && (|buffer| < PACKET_DATA_MAX ==> position + |buffer| == |content|)
            && more == Out(sender, receiver, path, file, sent + [buffer]) && Begins(more, all)
            && (|packets| >= sendable ==> packets == UpTo(all, sendable) && |all| > sendable)
  {
    hide *;
    var buffer := Read(ReadablePart(file, readable), position);
    ReadSplits(ReadablePart(file, readable), position, |buffer|, sent);
    OutGrows(sender, receiver, path, file, sent, buffer);
    AllOut(sender, receiver, path, file, readable, position + |buffer|, sent + [buffer]);
    var all := Attempted(sender, receiver, path, file, readable);
    CutHere(packets, all, sendable);
    CutHere(packets + [PackedPacket(MSG_FILE_CHUNK, sender, receiver, buffer)], all, sendable);
  }

  /**
   `send_file`: nothing above 10 MiB, else begin, chunks, end. Only the first `readable` bytes can be
   read and only the first `sendable` sends succeed; what went out is exactly what could be
   tried up to then, and the transfer is reported as sent exactly when all of it went out.
   */
  method SendFile(sender: Bytes, receiver: Bytes, path: Bytes, file: Bytes, readable: nat, sendable: nat)
    returns (packets: seq<Packet>, ok: bool)
    ensures var all := Attempted(sender, receiver, path, file, readable);
            && packets == UpTo(all, sendable)
            && (ok <==> |file| <= FILE_TRANSFER_MAX_BYTES && readable >= |file| && sendable >= |all|)
  {
    if |file| > FILE_TRANSFER_MAX_BYTES {
      return [], false;
    }
    hide *;
    ghost var all := Attempted(sender, receiver, path, file, readable);
    var content := ReadablePart(file, readable);
    ghost var sent: seq<Bytes> := [];
    SplitEnds(content, sent);
    OutStarts(sender, receiver, path, file);
    AllOut(sender, receiver, path, file, readable, 0, sent);
    CutHere([BeginPacket(sender, receiver, path, file)], all, sendable);
    if sendable == 0 {
      NothingOut(all);
      return [], false;
    }
    packets := [BeginPacket(sender, receiver, path, file)];
    var position := 0;
    var done := false;
    while !done
      invariant position <= |content| && (done ==> position == |content|) && ReadUpTo(content, position, sent)
      invariant packets == Out(sender, receiver, path, file, sent) && Begins(packets, all) && |packets| <= sendable
      decreases !done, |content| - position
    {
      var buffer := Read(content, position);
      var n := |buffer|;
      if n > 0 {
        NextPiece(sender, receiver, path, file, readable, position, sent, packets, sendable);
        if |packets| >= sendable {
          return packets, false;
        }
        packets := packets + [PackedPacket(MSG_FILE_CHUNK, sender, receiver, buffer)];
        sent := sent + [buffer];
      }
      if n < PACKET_DATA_MAX {
        done := true;
      }
      position := position + n;
    }
    AllOut(sender, receiver, path, file, readable, position, sent);
    CutHere(packets, all, sendable);
    EndOfAll(packets, all, readable >= |file|, sender, receiver);
    if |content| < |file| || |packets| >= sendable {
      return packets, false;
    }
    packets := packets + [EndPacket(sender, receiver)];
    CutHere(packets, all, sendable);
    return packets, true;
  }

  // ---------- receiving in the gateway ----------

  predicate FileKind(kind: int) {
    kind == MSG_FILE_BEGIN || kind == MSG_FILE_CHUNK || kind == MSG_FILE_END
  }

  /** The file packets of a stream, leaving out everything else that arrives in between. */
  function FileOnly(ps: seq<JsPacket>): seq<JsPacket> {
    if ps == [] then [] else (if FileKind(ps[0].kind) then [ps[0]] else []) + FileOnly(ps[1..])
  }

  function WithChunk(f: G.IncomingFile, data: Bytes): G.IncomingFile {
    f.(chunks := f.chunks + [data], receivedSize := f.receivedSize + |data|)
  }

  predicate Whole(f: G.IncomingFile) {
    |Flatten(f.chunks)| == f.expectedSize
  }

  function Handed(f: G.IncomingFile): G.UiEvent {
    G.FileReceived(f.sender, f.filename, Flatten(f.chunks))
  }

  /** Of all packets only an end can hand over a file, and then it is the one in progress. */
  lemma UiOfOne(s: G.Session, p: JsPacket)
    ensures var r := G.HandlePacket(s, p);
            && s.ui <= r.ui && |r.ui| <= |s.ui| + 1
            && (|r.ui| > |s.ui| && r.ui[|s.ui|].FileReceived? ==>
                  p.kind == MSG_FILE_END && s.incoming.Some? && Whole(s.incoming.value)
                  && r.ui[|s.ui|] == Handed(s.incoming.value))
  {
    hide Flatten, P.ListOf, P.DecodeEvent, P.DecodeMessage, G.DecodeFileBegin, G.Named, G.ById, G.InfoOf;
    if p.kind == MSG_OK || p.kind == MSG_ERROR {
      hide *;
      UiOfAnswer(s, p);
    }
  }

  lemma UiOfAnswer(s: G.Session, p: JsPacket)
    requires p.kind == MSG_OK || p.kind == MSG_ERROR
    ensures var r := G.HandlePacket(s, p);
            s.ui <= r.ui && |r.ui| == |s.ui| + 1 && !r.ui[|s.ui|].FileReceived?
  {
  }

  lemma IncomingOfOne(s: G.Session, p: JsPacket)
    ensures var r := G.HandlePacket(s, p);
            && (p.kind == MSG_FILE_END ==> r.incoming.None?)
            && (p.kind == MSG_FILE_CHUNK ==>
                  r.incoming == if s.incoming.None? then None else Some(WithChunk(s.incoming.value, p.data)))
            && (!FileKind(p.kind) ==> r.incoming == s.incoming)
  {
    hide Flatten, P.ListOf, P.DecodeEvent, P.DecodeMessage, G.DecodeFileBegin, G.Named, G.ById, G.InfoOf;
  }

  lemma {:induction false} UiGrows(s: G.Session, ps: seq<JsPacket>)
    ensures s.ui <= G.HandleEach(s, ps).ui
    decreases |ps|
  {
    hide G.HandlePacket;
    if ps != [] {
      UiOfOne(s, ps[0]);
      UiGrows(G.HandlePacket(s, ps[0]), ps[1..]);
    }
  }

  /** An end shows the file when its length is the announced one, and otherwise both lengths. */
  lemma EndHandsOver(s: G.Session, p: JsPacket)
    requires s.incoming.Some? && p.kind == MSG_FILE_END
    ensures var f := s.incoming.value;
            G.HandlePacket(s, p).ui
            == s.ui + [if Whole(f) then Handed(f) else G.FileMismatch(|Flatten(f.chunks)|, f.expectedSize)]
  {
    hide Flatten;
  }

  lemma {:induction false} RestArrives(s: G.Session, ps: seq<JsPacket>, f: G.IncomingFile, rest: seq<Bytes>, sender: Bytes, receiver: Bytes)
    requires s.incoming == Some(f) && f.expectedSize == |Flatten(f.chunks + rest)|
    requires FileOnly(ps) == Views(ChunkPackets(sender, receiver, rest) + [EndPacket(sender, receiver)])
    ensures G.FileReceived(f.sender, f.filename, Flatten(f.chunks + rest)) in G.HandleEach(s, ps).ui
    decreases |ps|
  {
    hide G.HandlePacket, Flatten, Fixed, CString;
    var wire := ChunkPackets(sender, receiver, rest) + [EndPacket(sender, receiver)];
    assert Views(wire) == [JsView(wire[0])] + Views(wire[1..]);
    assert ps != [];
    var r := G.HandlePacket(s, ps[0]);
    IncomingOfOne(s, ps[0]);
    if !FileKind(ps[0].kind) {
      assert FileOnly(ps) == FileOnly(ps[1..]);
      RestArrives(r, ps[1..], f, rest, sender, receiver);
    } else {
      assert ps[0] == FileOnly(ps)[0] == JsView(wire[0]);
      assert FileOnly(ps[1..]) == FileOnly(ps)[1..] == Views(wire[1..]);
      if rest == [] {
        assert wire[0] == EndPacket(sender, receiver);
        assert f.chunks + rest == f.chunks;
        EndHandsOver(s, ps[0]);
        UiGrows(r, ps[1..]);
        assert r.ui[|s.ui|] == G.HandleEach(s, ps).ui[|s.ui|];
      } else {
        assert wire[0] == PackedPacket(MSG_FILE_CHUNK, sender, receiver, rest[0]);
        assert wire[1..] == ChunkPackets(sender, receiver, rest[1..]) + [EndPacket(sender, receiver)];
        var g := WithChunk(f, rest[0]);
        assert g.chunks + rest[1..] == f.chunks + rest;
        RestArrives(r, ps[1..], g, rest[1..], sender, receiver);
      }
    }
  }

  /** The packets of a transfer of that name and size in any pieces. */
  function Pieces(sender: Bytes, receiver: Bytes, name: Bytes, size: nat, cs: seq<Bytes>): seq<Packet> {
    [PackedPacket(MSG_FILE_BEGIN, sender, receiver, G.FileBeginPayload(name, size))] + ChunkPackets(sender, receiver, cs)
    + [EndPacket(sender, receiver)]
  }

  /**
   A transfer in any pieces that sum to the announced size, which is at most 10 MiB, with any other packets in between but
   no other file packets, is handed to the browser with exactly the bytes of its pieces.
   */
  lemma PiecesArrive(s: G.Session, sender: Bytes, receiver: Bytes, name: Bytes, cs: seq<Bytes>, ps: seq<JsPacket>)
    requires |Flatten(cs)| <= 10485760 && NUL !in name && |name| <= 255 && NUL !in sender && |sender| <= 31
    requires FileOnly(ps) == Views(Pieces(sender, receiver, name, |Flatten(cs)|, cs))
    ensures G.FileReceived(sender, name, Flatten(cs)) in G.HandleEach(s, ps).ui
    decreases |ps|
  {
    hide G.HandlePacket, G.FileBeginPayload, G.DecodeFileBegin, Fixed, CString, Flatten;
    var wire := Pieces(sender, receiver, name, |Flatten(cs)|, cs);
    var rest := ChunkPackets(sender, receiver, cs) + [EndPacket(sender, receiver)];
    assert wire == [wire[0]] + rest && wire[1..] == rest;
    assert ps != [];
    var r := G.HandlePacket(s, ps[0]);
    if !FileKind(ps[0].kind) {
      assert FileOnly(ps) == FileOnly(ps[1..]);
      hide *;
      PiecesArrive(r, sender, receiver, name, cs, ps[1..]);
    } else {
      assert ps[0] == FileOnly(ps)[0] == JsView(wire[0]);
      assert FileOnly(ps[1..]) == FileOnly(ps)[1..] == Views(rest);
      G.FileBeginRoundTrip(name, |Flatten(cs)|);
      FixedReadsBack(sender, USERNAME_MAX_LEN);
      var f := G.IncomingFile(sender, name, |Flatten(cs)|, 0, []);
      BeginTakesOver(s, ps[0]);
      assert r.incoming == Some(f);
      assert f.chunks + cs == cs;
      RestArrives(r, ps[1..], f, cs, sender, receiver);
    }
  }

  /** In particular a file of up to 10 MiB that the C client sends. */
  lemma TransferArrives(s: G.Session, sender: Bytes, receiver: Bytes, path: Bytes, file: Bytes, ps: seq<JsPacket>)
    requires |file| <= FILE_TRANSFER_MAX_BYTES && NUL !in path && NUL !in sender && |sender| < USERNAME_MAX_LEN
    requires FileOnly(ps) == Views(Transfer(sender, receiver, path, file))
    ensures G.FileReceived(sender, SentName(path), file) in G.HandleEach(s, ps).ui
  {
    hide G.HandleEach, G.FileBeginPayload, SentName, Chunks, Views, FileOnly, Flatten, PackedPacket;
    ChunksJoin(file);
    assert Transfer(sender, receiver, path, file) == Pieces(sender, receiver, SentName(path), |file|, Chunks(file));
    PiecesArrive(s, sender, receiver, SentName(path), Chunks(file), ps);
  }

  // ---------- any packets at all ----------

  predicate Accepted(p: JsPacket) {
    p.kind == MSG_FILE_BEGIN && G.DecodeFileBegin(p.data).Some?
    && G.DecodeFileBegin(p.data).value.filesize <= FILE_TRANSFER_MAX_BYTES
  }

  function ChunkData(ps: seq<JsPacket>): seq<Bytes> {
    if ps == [] then []
    else ChunkData(ps[..|ps| - 1]) + if ps[|ps| - 1].kind == MSG_FILE_CHUNK then [ps[|ps| - 1].data] else []
  }

  /** No accepted begin and no end among the packets. */
  predicate Open(ps: seq<JsPacket>) {
    forall i :: 0 <= i < |ps| ==> !Accepted(ps[i]) && ps[i].kind != MSG_FILE_END
  }

  /** The transfer in progress: what was begun at `b` and every chunk since. */
  predicate Underway(ps: seq<JsPacket>, b: nat, f: G.IncomingFile) {
    && b < |ps| && Accepted(ps[b]) && Open(ps[b + 1..])
    && f.sender == ps[b].sender && f.filename == G.DecodeFileBegin(ps[b].data).value.filename
    && f.expectedSize == G.DecodeFileBegin(ps[b].data).value.filesize
    && f.chunks == ChunkData(ps[b + 1..])
  }

  /** A received file: announced at `b`, ended at `e`, made of exactly the chunks between. */
  predicate Finished(ps: seq<JsPacket>, b: nat, e: nat, u: G.UiEvent) {
    && u.FileReceived? && b < e < |ps| && Accepted(ps[b]) && ps[e].kind == MSG_FILE_END && Open(ps[b + 1..e])
    && u.sender == ps[b].sender && u.filename == G.DecodeFileBegin(ps[b].data).value.filename
    && u.data == Flatten(ChunkData(ps[b + 1..e])) && |u.data| == G.DecodeFileBegin(ps[b].data).value.filesize
  }

  function AllReceived(ps: seq<JsPacket>): G.Session {
    if ps == [] then G.FreshSession else G.HandlePacket(AllReceived(ps[..|ps| - 1]), ps[|ps| - 1])
  }

  ghost predicate FilesExact(ps: seq<JsPacket>) {
    var s := AllReceived(ps);
    && (s.incoming.Some? ==> exists b :: Underway(ps, b, s.incoming.value))
    && forall i :: 0 <= i < |s.ui| && s.ui[i].FileReceived? ==> exists b, e :: Finished(ps, b, e, s.ui[i])
  }

  lemma FinishedStays(ps: seq<JsPacket>, p: JsPacket, b: nat, e: nat, u: G.UiEvent)
    requires Finished(ps, b, e, u)
    ensures Finished(ps + [p], b, e, u)
  {
    assert (ps + [p])[b + 1..e] == ps[b + 1..e];
  }

  lemma UnderwayStays(ps: seq<JsPacket>, p: JsPacket, b: nat, f: G.IncomingFile)
    requires Underway(ps, b, f) && !Accepted(p) && p.kind != MSG_FILE_END
    ensures Underway(ps + [p], b, if p.kind == MSG_FILE_CHUNK then WithChunk(f, p.data) else f)
  {
    var before, after := ps[b + 1..], (ps + [p])[b + 1..];
    assert after == before + [p] && after[..|after| - 1] == before;
    assert ChunkData(before) + [] == ChunkData(before);
  }

  lemma UnderwayEnds(ps: seq<JsPacket>, p: JsPacket, b: nat, f: G.IncomingFile)
    requires Underway(ps, b, f) && p.kind == MSG_FILE_END && Whole(f)
    ensures Finished(ps + [p], b, |ps|, Handed(f))
  {
    assert (ps + [p])[b + 1..|ps|] == ps[b + 1..];
  }

  lemma UnderwayStarts(ps: seq<JsPacket>, p: JsPacket, f: G.IncomingFile)
    requires Accepted(p) && f.sender == p.sender && f.filename == G.DecodeFileBegin(p.data).value.filename
    requires f.expectedSize == G.DecodeFileBegin(p.data).value.filesize && f.chunks == []
    ensures Underway(ps + [p], |ps|, f)
  {
    assert (ps + [p])[|ps| + 1..] == [];
  }

  /**
   Over any run of packets whatsoever a file is handed to the browser only with exactly the chunks
   that came between an accepted begin and the next end, and with the announced length.
   */
  lemma {:induction false} FilesAreExact(ps: seq<JsPacket>)
    ensures FilesExact(ps)
    decreases |ps|
  {
    hide Underway, Finished, Whole, Handed, Accepted, G.HandlePacket;
    if ps != [] {
      var before, p := ps[..|ps| - 1], ps[|ps| - 1];
      FilesAreExact(before);
      assert ps == before + [p];
      var s, r := AllReceived(before), AllReceived(ps);
      forall i | 0 <= i < |s.ui| && s.ui[i].FileReceived? ensures exists b, e :: Finished(ps, b, e, s.ui[i]) {
        var b, e :| Finished(before, b, e, s.ui[i]);
        FinishedStays(before, p, b, e, s.ui[i]);
      }
      UiOfOne(s, p);
      IncomingOfOne(s, p);
      if s.incoming.Some? {
        var b :| Underway(before, b, s.incoming.value);
        if p.kind == MSG_FILE_END {
          if Whole(s.incoming.value) {
            UnderwayEnds(before, p, b, s.incoming.value);
          }
        } else if !Accepted(p) {
          UnderwayStays(before, p, b, s.incoming.value);
        }
      }
      if Accepted(p) {
        BeginTakesOver(s, p);
        UnderwayStarts(before, p, r.incoming.value);
      } else {
        RefusedBegin(s, p);
      }
    }
  }

  lemma BeginTakesOver(s: G.Session, p: JsPacket)
    requires Accepted(p)
    ensures var b := G.DecodeFileBegin(p.data).value;
            && G.HandlePacket(s, p).incoming == Some(G.IncomingFile(p.sender, b.filename, b.filesize, 0, []))
            && G.HandlePacket(s, p).ui == s.ui + [G.FileProgress(p.sender, b.filename, 0, b.filesize)]
  {
  }

  /** A begin that is refused does not end the transfer in progress. */
  lemma RefusedBegin(s: G.Session, p: JsPacket)
    requires !Accepted(p)
    ensures p.kind == MSG_FILE_BEGIN ==>
              G.HandlePacket(s, p).incoming == s.incoming && G.HandlePacket(s, p).ui == s.ui + [G.FileRefused]
  {
  }

  /** Over any run of packets the progress shown after a chunk is the number of bytes received so far. */
  lemma {:induction false} ProgressIsExact(ps: seq<JsPacket>)
    ensures var s := AllReceived(ps);
            s.incoming.Some? ==>
              var f := s.incoming.value;
              && f.receivedSize == |Flatten(f.chunks)|
              && (ps[|ps| - 1].kind == MSG_FILE_CHUNK ==>
                    s.ui != [] && s.ui[|s.ui| - 1] == G.FileProgress(f.sender, f.filename, |Flatten(f.chunks)|, f.expectedSize))
    ensures AllReceived(ps).incoming.Some? ==> ps != []
    decreases |ps|
  {
    hide Accepted, G.HandlePacket;
    if ps != [] {
      var before, p := ps[..|ps| - 1], ps[|ps| - 1];
      var s := AllReceived(before);
      ProgressIsExact(before);
      IncomingOfOne(s, p);
      if p.kind == MSG_FILE_CHUNK {
        if s.incoming.Some? {
          FlattenAppend(s.incoming.value.chunks, [p.data]);
          FlattenCons(p.data, []);
          ChunkShown(s, p);
        }
      } else if Accepted(p) {
        BeginTakesOver(s, p);
      } else {
        RefusedBegin(s, p);
      }
    }
  }

  lemma ChunkShown(s: G.Session, p: JsPacket)
    requires p.kind == MSG_FILE_CHUNK && s.incoming.Some?
    ensures var f := s.incoming.value;
            G.HandlePacket(s, p).ui
            == s.ui + [G.FileProgress(f.sender, f.filename, f.receivedSize + |p.data|, f.expectedSize)]
  {
  }

  // ---------- receiving in the C client ----------

  /** "downloads" and `char path[512]` */
  const DOWNLOADS: Bytes := [100, 111, 119, 110, 108, 111, 97, 100, 115]
  const PATH_SIZE := 512

  lemma FixedLosesOne(s: Bytes, size: nat)
    requires 0 < size
    ensures |CString(Fixed(s, size))| < size
  {
    assert Fixed(s, size)[size - 1] == NUL;
    assert CString(Fixed(s, size)) != Fixed(s, size);
  }

  /** The client's path buffer is never what makes the search for a free path fail. */
  lemma DownloadsHaveRoom(sender: Bytes, filename: Bytes, taken: set<Bytes>)
    requires |sender| < USERNAME_MAX_LEN
    ensures sender != [] && BaseFilename(filename) != [] && |taken| < MAX_TRIES ==>
              !Chosen(DOWNLOADS, true, sender, filename, taken, 512, None)
  {
    if sender != [] && BaseFilename(filename) != [] && |taken| < MAX_TRIES {
      SplitMeaning(DOWNLOADS, sender, filename);
      FreePathAlwaysFound(Split(DOWNLOADS, sender, filename).value, taken, PATH_SIZE);
    }
  }

  lemma SentNameIsBase(path: Bytes)
    ensures BaseFilename(SentName(path)) == SentName(path)
  {
    assert LastIndex(SentName(path), SLASH).None?;
  }

  datatype Report = Refused | NotSaved | Complete(path: Bytes, content: Bytes) | WrongSize(received: nat, expected: nat)

  /** How the C client reads an announcement: a name that fills its field loses its last byte. */
  function DecodeInC(data: Bytes): Option<G.FileBegin> {
    if |data| != G.FILE_BEGIN_BYTES then None
    else Some(G.FileBegin(CString(data[..FILE_NAME_MAX_LEN][FILE_NAME_MAX_LEN - 1 := NUL]), G.GetLE64(data[FILE_NAME_MAX_LEN..])))
  }

  lemma {:induction false} LastByteCut(a: Bytes)
    requires a != []
    ensures CString(a[|a| - 1 := NUL]) == if NUL in a then CString(a) else a[..|a| - 1]
  {
    if |a| > 1 && a[0] != NUL {
      LastByteCut(a[1..]);
      assert a[|a| - 1 := NUL][1..] == a[1..][|a| - 2 := NUL];
      assert a[1..][..|a| - 2] == a[..|a| - 1][1..];
    }
  }

  /** The C client and the gateway read the same announcement exactly when its name ends in its field. */
  lemma BothReadTheName(data: Bytes)
    requires |data| == G.FILE_BEGIN_BYTES
    ensures DecodeInC(data) == G.DecodeFileBegin(data) <==> NUL in data[..FILE_NAME_MAX_LEN]
  {
    hide G.GetLE64;
    var name := data[..FILE_NAME_MAX_LEN];
    LastByteCut(name);
    if NUL !in name {
      CStringOf(name, []);
      assert CString(name) == name && |name[..|name| - 1]| < |name|;
    }
  }

  lemma AnnouncedName(filename: Bytes, filesize: nat)
    requires NUL !in filename && |filename| < FILE_NAME_MAX_LEN && filesize <= FILE_TRANSFER_MAX_BYTES
    ensures DecodeInC(G.FileBeginPayload(filename, filesize)) == Some(G.FileBegin(filename, filesize))
  {
    hide DecodeInC, G.DecodeFileBegin, G.PutLE64;
    var data := G.FileBeginPayload(filename, filesize);
    G.FileBeginRoundTrip(filename, filesize);
    BothReadTheName(data);
    assert data[..FILE_NAME_MAX_LEN][FILE_NAME_MAX_LEN - 1] == Fixed(filename, FILE_NAME_MAX_LEN)[FILE_NAME_MAX_LEN - 1] == NUL;
  }

  /** A begin whose payload reads and announces no more than 10 MiB. */
  function Acceptable(data: Bytes): (r: Option<G.FileBegin>)
    ensures r.Some? ==> r.value.filesize <= FILE_TRANSFER_MAX_BYTES
  {
    var b := DecodeInC(data);
    if b.Some? && b.value.filesize <= FILE_TRANSFER_MAX_BYTES then b else None
  }

  /** `IncomingFile` of the C client; `written` is what has gone into the file at `path`. */
  class CIncomingFile {
    var active: bool
    var sender: Bytes
    var filename: Bytes
    var expectedSize: nat
    var receivedSize: nat
    var path: Bytes
    var written: Bytes

    constructor ()
      ensures !active
    {
      active, sender, filename, expectedSize, receivedSize, path, written := false, [], [], 0, 0, [], [];
    }

    method Close()
      modifies this
      ensures !active
    {
      active, sender, filename, expectedSize, receivedSize, path, written := false, [], [], 0, 0, [], [];
    }

    /**
     `handle_file_begin`; `dirOk`, `taken` and `created` stand for the file system. Unlike the gateway it
     drops a transfer in progress even when the new begin is refused.
     */
    method OnBegin(p: Packet, dirOk: bool, taken: set<Bytes>, created: bool) returns (report: Option<Report>)
      modifies this
      ensures Acceptable(p.data).None? ==> !active && report == Some(Refused)
      ensures Acceptable(p.data).Some? ==> report == if active then None else Some(NotSaved)
      ensures active ==> created && Acceptable(p.data) == Some(G.FileBegin(filename, expectedSize))
                         && Chosen(DOWNLOADS, dirOk, CString(p.sender), filename, taken, PATH_SIZE, Some(path))
                         && sender == CString(p.sender) && receivedSize == 0 && written == []
      ensures Acceptable(p.data).Some? && !active && created ==>
                Chosen(DOWNLOADS, dirOk, CString(p.sender), Acceptable(p.data).value.filename, taken, PATH_SIZE, None)
    {
      hide Chosen, DecodeInC;
      Close();
      var payload := DecodeInC(p.data);
      if payload.None? {
        return Some(Refused);
      }
      if payload.value.filesize > FILE_TRANSFER_MAX_BYTES {
        return Some(Refused);
      }
      var chosen := BuildUniqueDownloadPath(DOWNLOADS, dirOk, CString(p.sender), payload.value.filename, taken, PATH_SIZE);
      if chosen.None? {
        return Some(NotSaved);
      }
      if !created {
        return Some(NotSaved);
      }
      active, path, sender, filename := true, chosen.value, CString(p.sender), payload.value.filename;
      expectedSize, receivedSize, written := payload.value.filesize, 0, [];
      return None;
    }

    /** `handle_file_chunk`; `stored` says whether the whole chunk could be written. */
    method OnChunk(p: Packet, stored: bool) returns (report: Option<Report>)
      modifies this
      ensures active == (old(active) && stored)
      ensures active ==> written == old(written) + p.data && receivedSize == old(receivedSize) + |p.data|
                         && path == old(path) && expectedSize == old(expectedSize)
                         && sender == old(sender) && filename == old(filename)
      ensures !old(active) ==> unchanged(this)
      ensures report == if old(active) && !stored then Some(NotSaved) else None
    {
      if !active {
        return None;
      }
      if !stored {
        Close();
        return Some(NotSaved);
      }
      written := written + p.data;
      receivedSize := receivedSize + |p.data|;
      return None;
    }

    /** `handle_file_end` */
    method OnEnd() returns (report: Option<Report>)
      modifies this
      ensures !active
      ensures report == if !old(active) then None
                        else if old(receivedSize) == old(expectedSize) then Some(Complete(old(path), old(written)))
                        else Some(WrongSize(old(receivedSize), old(expectedSize)))
    {
      if !active {
        return None;
      }
      if receivedSize == expectedSize {
        report := Some(Complete(path, written));
      } else {
        report := Some(WrongSize(receivedSize, expectedSize));
      }
      Close();
    }

    /**
     A transfer that nothing interrupts, with no file error, leaves exactly the sent bytes in the file
     it reports, and fails only for want of a name or with 1000 paths taken.
     */
    method ReceiveTransfer(sender: Bytes, receiver: Bytes, filePath: Bytes, file: Bytes, taken: set<Bytes>)
      returns (report: Option<Report>)
      requires |file| <= FILE_TRANSFER_MAX_BYTES && NUL !in filePath
      modifies this
      ensures report.Some? && (report.value.Complete? ==> report.value.content == file && report.value.path !in taken)
      ensures CString(Fixed(sender, USERNAME_MAX_LEN)) != [] && SentName(filePath) != [] && |taken| < MAX_TRIES ==>
                report.value.Complete?
      ensures report.value.Complete? || report.value == NotSaved
    {
      hide Chosen, G.FileBeginPayload, DecodeInC, Chunks, CString, Fixed, BaseFilename;
      AnnouncedName(SentName(filePath), |file|);
      report := OnBegin(BeginPacket(sender, receiver, filePath, file), true, taken, true);
      if !active {
        FixedLosesOne(sender, USERNAME_MAX_LEN);
        SentNameIsBase(filePath);
        DownloadsHaveRoom(CString(Fixed(sender, USERNAME_MAX_LEN)), SentName(filePath), taken);
        return;
      }
      ChosenStaysInside(DOWNLOADS, true, CString(Fixed(sender, USERNAME_MAX_LEN)), filename, taken, PATH_SIZE, path);
      var chunks := Chunks(file);
      ChunksJoin(file);
      var i := 0;
      while i < |chunks|
        invariant i <= |chunks| && active && expectedSize == |file| && path !in taken
        invariant written == Flatten(chunks[..i]) && receivedSize == |written|
      {
        var _ := OnChunk(PackedPacket(MSG_FILE_CHUNK, sender, receiver, chunks[i]), true);
        FlattenAppend(chunks[..i], [chunks[i]]);
        FlattenCons(chunks[i], []);
        assert chunks[..i + 1] == chunks[..i] + [chunks[i]] && [chunks[i]] + [] == [chunks[i]] && chunks[i] + [] == chunks[i];
        i := i + 1;
      }
      assert chunks[..i] == chunks;
      report := OnEnd();
    }
  }
}
