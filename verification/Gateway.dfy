/**
 One browser session of the Web gateway (`ClientSession` in web/server.js): the queue that matches
 answers to requests, the mirror of the user's groups, and the file being received.
 */
module Gateway {
  import opened Basics
  import opened Wire
  import opened GroupModel
  import opened Payload

  datatype AuthAction = DoRegister | DoLogin
  datatype StatusAction = SendPrivate | SendToAll | MakeGroup | SendGroupMessage | SendFile | DoLogout

  /** An entry of `pendingResponses`. */
  datatype Pending = Auth(auth: AuthAction, username: Bytes) | Status(action: StatusAction)

  /** A value of `groupsById`; a group first heard of through a message has no creator or members. */
  datatype GroupInfo = GroupInfo(id: Bytes, name: Bytes, creator: Option<Bytes>, members: Option<seq<Bytes>>)

  datatype IncomingFile = IncomingFile(sender: Bytes, filename: Bytes, expectedSize: nat, receivedSize: nat,
                                       chunks: seq<Bytes>)

  /** What is sent on to the browser. */
  datatype UiEvent =
    | AuthResult(auth: AuthAction, ok: bool, username: Bytes)
    | LoggedOut(ok: bool)
    | CommandResult(action: Option<StatusAction>, ok: bool)
    | GroupsListed(groups: seq<Group>)
    | GroupChanged(event: GroupEvent)
    | GroupChat(sender: Bytes, message: GroupText)
    | FileProgress(sender: Bytes, filename: Bytes, received: nat, expected: nat)
    | FileReceived(sender: Bytes, filename: Bytes, data: Bytes)
    | FileRefused
    | FileMismatch(received: nat, expected: nat)
    | OnlineUsers(names: seq<Bytes>)
    | ChatMessage(toAll: bool, sender: Bytes, receiver: Bytes, text: Bytes)
    | PacketReceived(kind: int)
    | Failure

  datatype Session = Session(loggedIn: bool, username: Bytes, pending: seq<Pending>, groups: map<Bytes, GroupInfo>,
                             incoming: Option<IncomingFile>, open: bool, ui: seq<UiEvent>)

  const FreshSession := Session(false, [], [], map[], None, true, [])

  function InfoOf(g: Group): GroupInfo {
    GroupInfo(g.id, g.name, Some(g.creator), Some(g.members))
  }

  function Emit(s: Session, e: UiEvent): Session {
    s.(ui := s.ui + [e])
  }

  // ---------- file begin payload ----------

  function GetLE64(b: Bytes): nat {
    if b == [] then 0 else b[0] as int + 256 * GetLE64(b[1..])
  }

  function PutLE64(n: nat, width: nat): (b: Bytes)
    ensures |b| == width
  {
    if width == 0 then [] else [(n % 256) as byte] + PutLE64(n / 256, width - 1)
  }

  function Pow256(k: nat): nat {
    if k == 0 then 1 else 256 * Pow256(k - 1)
  }

  lemma {:induction false} LE64RoundTrip(n: nat, width: nat)
    requires n < Pow256(width)
    ensures GetLE64(PutLE64(n, width)) == n
  {
    if width > 0 {
      assert n / 256 < Pow256(width - 1);
      LE64RoundTrip(n / 256, width - 1);
    }
  }

  const FILE_BEGIN_BYTES := FILE_NAME_MAX_LEN + 8

  /** `encodeFileBeginPayload`, and the C struct `FileBeginPayload` as laid out on x86-64. */
  function FileBeginPayload(filename: Bytes, filesize: nat): (d: Bytes)
    ensures |d| == FILE_BEGIN_BYTES
  {
    Fixed(filename, FILE_NAME_MAX_LEN) + PutLE64(filesize, 8)
  }

  /** Of eight bytes the first four count 1, 2^8, 2^16 and 2^24, and the others are empty for numbers under 2^32. */
  lemma FourOfEight(n: nat)
    requires n < 4294967296
    ensures var b := PutLE64(n, 8);
            && n == b[0] as int + b[1] as int * 256 + b[2] as int * 65536 + b[3] as int * 16777216
            && b[4] == b[5] == b[6] == b[7] == 0
  {
    var n1, n2, n3 := n / 256, n / 256 / 256, n / 256 / 256 / 256;
    assert n == n1 * 256 + n % 256 && n1 == n2 * 256 + n1 % 256 && n2 == n3 * 256 + n2 % 256 && n3 < 256;
    LowFirst(n, 8);
    LowFirst(n1, 7);
    LowFirst(n2, 6);
    LowFirst(n3, 5);
    LowFirst(0, 4);
    LowFirst(0, 3);
    LowFirst(0, 2);
    LowFirst(0, 1);
  }

  lemma LowFirst(n: nat, width: nat)
    requires width > 0
    ensures PutLE64(n, width) == [(n % 256) as byte] + PutLE64(n / 256, width - 1)
  {
  }

  /** The announcement: 256 bytes of name, then the size with the lowest byte first. */
  lemma FileBeginLayout(filename: Bytes, filesize: nat)
    requires filesize <= 10485760
    ensures var d := FileBeginPayload(filename, filesize);
            && |d| == 264 && d[..256] == Fixed(filename, 256)
            && filesize == d[256] as int + d[257] as int * 256 + d[258] as int * 65536 + d[259] as int * 16777216
            && d[260] == d[261] == d[262] == d[263] == 0
  {
    hide PutLE64, Fixed;
    FourOfEight(filesize);
    var b, d := PutLE64(filesize, 8), FileBeginPayload(filename, filesize);
    assert d[256..] == b && forall i :: 0 <= i < 8 ==> d[256 + i] == b[i];
  }

  datatype FileBegin = FileBegin(filename: Bytes, filesize: nat)

  /** `decodeFileBeginPayload` */
  function DecodeFileBegin(d: Bytes): Option<FileBegin> {
    if |d| != FILE_BEGIN_BYTES then None
    else Some(FileBegin(CString(d[..FILE_NAME_MAX_LEN]), GetLE64(d[FILE_NAME_MAX_LEN..])))
  }

  lemma FileBeginRoundTrip(filename: Bytes, filesize: nat)
    requires NUL !in filename && |filename| < FILE_NAME_MAX_LEN && filesize <= FILE_TRANSFER_MAX_BYTES
    ensures DecodeFileBegin(FileBeginPayload(filename, filesize)) == Some(FileBegin(filename, filesize))
  {
    var d := FileBeginPayload(filename, filesize);
    FixedReadsBack(filename, FILE_NAME_MAX_LEN);
    assert d[..FILE_NAME_MAX_LEN] == Fixed(filename, FILE_NAME_MAX_LEN) && d[FILE_NAME_MAX_LEN..] == PutLE64(filesize, 8);
    assert filesize < Pow256(8) by {
      assert Pow256(4) == 0x1_0000_0000;
      assert Pow256(8) == 256 * (256 * (256 * (256 * Pow256(4))));
    }
    LE64RoundTrip(filesize, 8);
  }

  // ---------- packets from the server ----------

  /** `handleCommandResponse` */
  function HandleCommandResponse(s: Session, p: JsPacket): Session {
    var ok := p.kind == MSG_OK;
    if s.pending == [] then Emit(s, CommandResult(None, ok))
    else
      var head, rest := s.pending[0], s.(pending := s.pending[1..]);
      match head
      case Auth(action, username) =>
        Emit(if ok && action == DoLogin then rest.(groups := map[], loggedIn := true, username := username) else rest,
             AuthResult(action, ok, username))
      case Status(action) =>
        if action == DoLogout
        then Emit(rest.(loggedIn := false, username := [], groups := map[]), LoggedOut(ok)).(open := false)
        else Emit(rest, CommandResult(Some(action), ok))
  }

  function HandleFileBegin(s: Session, p: JsPacket): Session {
    match DecodeFileBegin(p.data)
    case None => Emit(s, FileRefused)
    case Some(b) =>
      if b.filesize > FILE_TRANSFER_MAX_BYTES then Emit(s, FileRefused)
      else Emit(s.(incoming := Some(IncomingFile(p.sender, b.filename, b.filesize, 0, []))),
                FileProgress(p.sender, b.filename, 0, b.filesize))
  }

  function HandleFileChunk(s: Session, p: JsPacket): Session {
    match s.incoming
    case None => s
    case Some(f) =>
      var more := f.(chunks := f.chunks + [p.data], receivedSize := f.receivedSize + |p.data|);
      Emit(s.(incoming := Some(more)), FileProgress(f.sender, f.filename, more.receivedSize, f.expectedSize))
  }

  function HandleFileEnd(s: Session): Session {
    match s.incoming
    case None => s
    case Some(f) =>
      var data := Flatten(f.chunks);
      Emit(s.(incoming := None),
           if |data| != f.expectedSize then FileMismatch(|data|, f.expectedSize) else FileReceived(f.sender, f.filename, data))
  }

  /** `this.groupsById.set(id, {...(this.groupsById.get(id) || {}), id, name})` */
  function Named(groups: map<Bytes, GroupInfo>, m: GroupText): map<Bytes, GroupInfo> {
    groups[m.id := if m.id in groups then groups[m.id].(id := m.id, name := m.name)
                   else GroupInfo(m.id, m.name, None, None)]
  }

  /** `new Map(groups.map((group) => [group.id, group]))` */
  function ById(gs: seq<Group>): map<Bytes, GroupInfo> {
    if gs == [] then map[] else ById(gs[..|gs| - 1])[gs[|gs| - 1].id := InfoOf(gs[|gs| - 1])]
  }

  /** The server's text for an empty online list, in UTF-8. */
  const NOBODY_ONLINE: Bytes := [
    229, 189, 147, 229, 137, 141, 230, 178, 161, 230, 156, 137, 229, 156, 168, 231, 186, 191, 231, 148, 168, 230, 136, 183
  ]

  function LineLength(text: Bytes): (n: nat)
    ensures n <= |text| && NEWLINE !in text[..n] && (n < |text| ==> text[n] == NEWLINE)
  {
    if text == [] || text[0] == NEWLINE then 0 else LineLength(text[1..]) + 1
  }

  /** `text.split('\n').filter(Boolean)` */
  function Lines(text: Bytes): seq<Bytes> {
    if text == [] then []
    else if text[0] == NEWLINE then Lines(text[1..])
    else [text[..LineLength(text)]] + Lines(text[LineLength(text)..])
  }

  function ListedNames(text: Bytes): seq<Bytes> {
    if text == NOBODY_ONLINE then [] else Lines(text)
  }

  /** `handlePacket`. A payload that does not decode throws and leaves the session as it was. */
  function HandlePacket(s: Session, p: JsPacket): Session {
    if p.kind == MSG_OK || p.kind == MSG_ERROR then HandleCommandResponse(s, p)
    else if p.kind == MSG_ONLINE_LIST then Emit(s, OnlineUsers(ListedNames(p.text)))
    else if p.kind == MSG_PRIVATE then Emit(s, ChatMessage(false, p.sender, p.receiver, p.text))
    else if p.kind == MSG_GROUP then Emit(s, ChatMessage(true, p.sender, p.receiver, p.text))
    else if p.kind == MSG_GROUP_LIST then
      (match ListOf(p.data)
       case None => s
       case Some(gs) => Emit(s.(groups := ById(gs)), GroupsListed(gs)))
    else if p.kind == MSG_GROUP_EVENT then
      (match DecodeEvent(p.data)
       case None => s
       case Some(e) => Emit(s.(groups := s.groups[e.group.id := InfoOf(e.group)]), GroupChanged(e)))
    else if p.kind == MSG_GROUP_MESSAGE then
      (match DecodeMessage(p.data)
       case None => s
       case Some(m) => Emit(s.(groups := Named(s.groups, m)), GroupChat(p.sender, m)))
    else if p.kind == MSG_FILE_BEGIN then HandleFileBegin(s, p)
    else if p.kind == MSG_FILE_CHUNK then HandleFileChunk(s, p)
    else if p.kind == MSG_FILE_END then HandleFileEnd(s)
    else Emit(s, PacketReceived(p.kind))
  }

  /** A group payload that does not decode: the handler throws. */
  predicate Throws(p: JsPacket) {
    || (p.kind == MSG_GROUP_LIST && ListOf(p.data).None?)
    || (p.kind == MSG_GROUP_EVENT && DecodeEvent(p.data).None?)
    || (p.kind == MSG_GROUP_MESSAGE && DecodeMessage(p.data).None?)
  }

  /** `handleTcpData` on the packets of one chunk: when one throws, those after it are never handled. */
  function HandleChunk(s: Session, ps: seq<JsPacket>): Session
    decreases |ps|
  {
    if ps == [] || Throws(ps[0]) then s else HandleChunk(HandlePacket(s, ps[0]), ps[1..])
  }

  function HandleEach(s: Session, ps: seq<JsPacket>): Session
    decreases |ps|
  {
    if ps == [] then s else HandleEach(HandlePacket(s, ps[0]), ps[1..])
  }

  /** The packets of a chunk up to the first that throws are handled, and that one and those after it are not. */
  lemma {:induction false} ChunkStops(s: Session, ps: seq<JsPacket>, i: nat)
    requires i <= |ps| && (i < |ps| ==> Throws(ps[i])) && forall k :: 0 <= k < i ==> !Throws(ps[k])
    ensures HandleChunk(s, ps) == HandleEach(s, ps[..i])
    decreases i
  {
    hide HandlePacket, Throws;
    if i > 0 {
      ChunkStops(HandlePacket(s, ps[0]), ps[1..], i - 1);
      assert ps[..i][0] == ps[0] && ps[..i][1..] == ps[1..][..i - 1];
    }
  }

  /** A packet throws exactly when it is of a group and its payload cannot be read; the session stays as it was. */
  lemma ThrowingChangesNothing(s: Session, p: JsPacket)
    ensures Throws(p) ==> HandlePacket(s, p) == s && 15 <= p.kind <= 17
  {
    hide ListOf, DecodeEvent, DecodeMessage, ById, Named;
  }

  // ---------- requests from the browser ----------

  /** Browser actions, with every name already trimmed. */
  datatype Action =
    | Register(username: Bytes, password: Bytes)
    | Login(username: Bytes, password: Bytes)
    | OnlineList
    | Private(receiver: Bytes, text: Bytes)
    | ToAll(text: Bytes)
    | ListGroups
    | CreateGroup(name: Bytes, members: seq<Bytes>)
    | GroupMessage(groupId: Bytes, text: Bytes)
    | FileStart(receiver: Bytes, filename: Bytes, filesize: nat)
    | FileChunk(receiver: Bytes, data: Bytes)
    | FileDone(receiver: Bytes)
    | Logout

  predicate ValidPeer(s: Bytes) {
    s != [] && |s| < USERNAME_MAX_LEN && COLON !in s && NEWLINE !in s
  }

  predicate AllPeers(names: seq<Bytes>) {
    forall i :: 0 <= i < |names| ==> ValidPeer(names[i])
  }

  predicate ValidSecret(s: Bytes) {
    s != [] && |s| < PASSWORD_MAX_LEN && NEWLINE !in s
  }

  predicate ValidText(s: Bytes) {
    s != [] && |s| + 1 <= PACKET_DATA_MAX
  }

  /** A request on its way: the packet, and the queue entry made for it if its answer is awaited. */
  datatype Request = Request(packet: Packet, tag: Option<Pending>)

  /** The session after an action and the request it sent, if any. */
  datatype Acted = Acted(session: Session, request: Option<Request>)

  function Tracked(s: Session, tag: Pending, p: Packet): Acted {
    Acted(s.(pending := s.pending + [tag]), Some(Request(p, Some(tag))))
  }

  function Untracked(s: Session, p: Packet): Acted {
    Acted(s, Some(Request(p, None)))
  }

  function Refuse(s: Session): Acted {
    Acted(Emit(s, Failure), None)
  }

  /** `encodeGroupCreatePayload` */
  function CreatePayload(name: Bytes, members: seq<Bytes>): Option<Bytes> {
    if members == [] || !NulFree([name] + FirstSeen(members)) then None else Build([name] + FirstSeen(members))
  }

  predicate EncodableMessage(groupId: Bytes, text: Bytes) {
    |groupId| < USERNAME_MAX_LEN && NUL !in groupId && NUL !in text
  }

  function OtherThan(members: seq<Bytes>, username: Bytes): seq<Bytes> {
    if members == [] then []
    else (if members[0] == [] || members[0] == username then [] else [members[0]]) + OtherThan(members[1..], username)
  }

  function WithoutGroupMessages(pending: seq<Pending>): seq<Pending> {
    if pending == [] then []
    else (if pending[0] == Status(SendGroupMessage) then [] else [pending[0]]) + WithoutGroupMessages(pending[1..])
  }

  /** The request handlers of `ClientSession` on an open connection. */
  function Act(s: Session, a: Action): Acted {
    match a
    case Register(username, password) =>
      if !ValidPeer(username) || !ValidSecret(password) then Acted(Emit(s, AuthResult(DoRegister, false, username)), None)
      else Tracked(s, Auth(DoRegister, username), PackedPacket(MSG_REGISTER, username, [], password + [NUL]))
    case Login(username, password) =>
      if !ValidPeer(username) || !ValidSecret(password) then Acted(Emit(s, AuthResult(DoLogin, false, username)), None)
      else Tracked(s, Auth(DoLogin, username), PackedPacket(MSG_LOGIN, username, [], password + [NUL]))
    case Logout =>
      if s.loggedIn then Tracked(s, Status(DoLogout), PackedPacket(MSG_LOGOUT, s.username, [], []))
      else Acted(Emit(s.(username := [], groups := map[], open := false), UiEvent.LoggedOut(true)), None)
    case _ =>
      if !s.loggedIn || s.username == [] then Refuse(s) else
      match a
      case OnlineList => Untracked(s, PackedPacket(MSG_ONLINE_LIST, s.username, [], []))
      case ListGroups => Untracked(s, PackedPacket(MSG_GROUP_LIST, s.username, [], []))
      case Private(receiver, text) =>
        if !ValidPeer(receiver) || !ValidText(text) then Refuse(s)
        else Tracked(s, Status(SendPrivate), PackedPacket(MSG_PRIVATE, s.username, receiver, text + [NUL]))
      case ToAll(text) =>
        if !ValidText(text) then Refuse(s)
        else Tracked(s, Status(SendToAll), PackedPacket(MSG_GROUP, s.username, [], text + [NUL]))
      case CreateGroup(name, members) =>
        var others := OtherThan(members, s.username);
        if !ValidGroupName(name) || !AllPeers(others) then Refuse(s)
        else (match CreatePayload(name, others)
              case None => Refuse(s)
              case Some(d) => Tracked(s, Status(MakeGroup), PackedPacket(MSG_GROUP_CREATE, s.username, [], d)))
      case GroupMessage(groupId, text) =>
        if groupId == [] || !ValidText(text) then Refuse(s)
        else if !EncodableMessage(groupId, text) then
          // the entry is already queued when encoding throws; the handler then drops every entry of its kind
          Refuse(s.(pending := WithoutGroupMessages(s.pending + [Status(SendGroupMessage)])))
        else Tracked(s, Status(SendGroupMessage), PackedPacket(MSG_GROUP_MESSAGE, s.username, groupId, text + [NUL]))
      case FileStart(receiver, filename, filesize) =>
        if !ValidPeer(receiver) || filename == [] || |filename| >= FILE_NAME_MAX_LEN || NEWLINE in filename
           || filesize > FILE_TRANSFER_MAX_BYTES then Refuse(s)
        else Untracked(s, PackedPacket(MSG_FILE_BEGIN, s.username, receiver, FileBeginPayload(filename, filesize)))
      case FileChunk(receiver, data) =>
        if !ValidPeer(receiver) || data == [] || |data| > PACKET_DATA_MAX then Refuse(s)
        else Untracked(s, PackedPacket(MSG_FILE_CHUNK, s.username, receiver, data))
      case FileDone(receiver) =>
        if !ValidPeer(receiver) then Refuse(s)
        else Tracked(s, Status(SendFile), PackedPacket(MSG_FILE_END, s.username, receiver, []))
  }

  // ---------- the session object ----------

  class ClientSession {
    var loggedIn: bool
    var username: Bytes
    var pendingResponses: seq<Pending>
    var groupsById: map<Bytes, GroupInfo>
    var incomingFile: Option<IncomingFile>
    var open: bool
    var ui: seq<UiEvent>

    constructor ()
      ensures View() == FreshSession
    {
      loggedIn, username, pendingResponses, groupsById := false, [], [], map[];
      incomingFile, open, ui := None, true, [];
    }

    ghost function View(): Session
      reads this
    {
      Session(loggedIn, username, pendingResponses, groupsById, incomingFile, open, ui)
    }

    method Send(e: UiEvent)
      modifies this`ui
      ensures View() == Emit(old(View()), e)
    {
      ui := ui + [e];
    }

    method OnCommandResponse(p: JsPacket)
      modifies this
      ensures View() == HandleCommandResponse(old(View()), p)
    {
      var ok := p.kind == MSG_OK;
      if |pendingResponses| == 0 {
        Send(CommandResult(None, ok));
        return;
      }
      var pending := pendingResponses[0];
      pendingResponses := pendingResponses[1..];
      if pending.Auth? {
        if ok && pending.auth == DoLogin {
          groupsById := map[];
          loggedIn := true;
          username := pending.username;
        }
        Send(AuthResult(pending.auth, ok, pending.username));
        return;
      }
      if pending.action == DoLogout {
        loggedIn := false;
        username := [];
        groupsById := map[];
        Send(UiEvent.LoggedOut(ok));
        open := false;
        return;
      }
      Send(CommandResult(Some(pending.action), ok));
    }

    method OnFileBegin(p: JsPacket)
      modifies this
      ensures View() == HandleFileBegin(old(View()), p)
    {
      var payload := DecodeFileBegin(p.data);
      if payload.None? {
        Send(FileRefused);
        return;
      }
      if payload.value.filesize > FILE_TRANSFER_MAX_BYTES {
        Send(FileRefused);
        return;
      }
      incomingFile := Some(IncomingFile(p.sender, payload.value.filename, payload.value.filesize, 0, []));
      Send(FileProgress(p.sender, payload.value.filename, 0, payload.value.filesize));
    }

    method OnFileChunk(p: JsPacket)
      modifies this
      ensures View() == HandleFileChunk(old(View()), p)
    {
      if incomingFile.None? {
        return;
      }
      var file := incomingFile.value;
      file := file.(chunks := file.chunks + [p.data], receivedSize := file.receivedSize + |p.data|);
      incomingFile := Some(file);
      Send(FileProgress(file.sender, file.filename, file.receivedSize, file.expectedSize));
    }

    method OnFileEnd()
      modifies this
      ensures View() == HandleFileEnd(old(View()))
    {
      if incomingFile.None? {
        return;
      }
      var file := incomingFile.value;
      incomingFile := None;
      var data := Flatten(file.chunks);
      if |data| != file.expectedSize {
        Send(FileMismatch(|data|, file.expectedSize));
        return;
      }
      Send(FileReceived(file.sender, file.filename, data));
    }

    method OnPacket(p: JsPacket)
      modifies this
      ensures View() == HandlePacket(old(View()), p)
    {
      if p.kind == MSG_OK || p.kind == MSG_ERROR {
        OnCommandResponse(p);
      } else if p.kind == MSG_ONLINE_LIST {
        Send(OnlineUsers(ListedNames(p.text)));
      } else if p.kind == MSG_PRIVATE {
        Send(ChatMessage(false, p.sender, p.receiver, p.text));
      } else if p.kind == MSG_GROUP {
        Send(ChatMessage(true, p.sender, p.receiver, p.text));
      } else if p.kind == MSG_GROUP_LIST {
        var groups := DecodeList(p.data);
        if groups.None? {
          return;
        }
        groupsById := ById(groups.value);
        Send(GroupsListed(groups.value));
      } else if p.kind == MSG_GROUP_EVENT {
        var event := DecodeEvent(p.data);
        if event.None? {
          return;
        }
        groupsById := groupsById[event.value.group.id := InfoOf(event.value.group)];
        Send(GroupChanged(event.value));
      } else if p.kind == MSG_GROUP_MESSAGE {
        var decoded := DecodeMessage(p.data);
        if decoded.None? {
          return;
        }
        groupsById := Named(groupsById, decoded.value);
        Send(GroupChat(p.sender, decoded.value));
      } else if p.kind == MSG_FILE_BEGIN {
        OnFileBegin(p);
      } else if p.kind == MSG_FILE_CHUNK {
        OnFileChunk(p);
      } else if p.kind == MSG_FILE_END {
        OnFileEnd();
      } else {
        Send(PacketReceived(p.kind));
      }
    }

    /** `handleTcpData` once the decoder has reported the packets of a chunk; `thrown` is the exception. */
    method OnData(packets: seq<JsPacket>) returns (thrown: bool)
      modifies this
      ensures View() == HandleChunk(old(View()), packets)
      ensures thrown <==> exists i :: 0 <= i < |packets| && Throws(packets[i])
    {
      hide HandlePacket, Throws;
      ghost var start := View();
      assert packets[0..] == packets;
      var i := 0;
      while i < |packets|
        invariant i <= |packets| && forall k :: 0 <= k < i ==> !Throws(packets[k])
        invariant HandleChunk(start, packets) == HandleChunk(View(), packets[i..])
      {
        assert packets[i..][0] == packets[i] && packets[i..][1..] == packets[i + 1..];
        if Throws(packets[i]) {
          return true;
        }
        OnPacket(packets[i]);
        i := i + 1;
      }
      return false;
    }

    /** `handleGroupMessage`: the only handler whose encoding can fail after its entry is queued. */
    method OnGroupMessage(groupId: Bytes, text: Bytes) returns (request: Option<Request>)
      modifies this
      ensures Acted(View(), request) == Act(old(View()), GroupMessage(groupId, text))
    {
      if !loggedIn || username == [] || groupId == [] || !ValidText(text) {
        Send(Failure);
        return None;
      }
      pendingResponses := pendingResponses + [Status(SendGroupMessage)];
      if !EncodableMessage(groupId, text) {
        pendingResponses := WithoutGroupMessages(pendingResponses);
        Send(Failure);
        return None;
      }
      return Some(Request(PackedPacket(MSG_GROUP_MESSAGE, username, groupId, text + [NUL]), Some(Status(SendGroupMessage))));
    }

    /** `handleRegisterOrLogin` on the open connection */
    method OnRegisterOrLogin(action: AuthAction, user: Bytes, password: Bytes) returns (request: Option<Request>)
      modifies this
      ensures Acted(View(), request)
              == Act(old(View()), if action == DoRegister then Register(user, password) else Login(user, password))
    {
      if !ValidPeer(user) || !ValidSecret(password) {
        Send(AuthResult(action, false, user));
        return None;
      }
      var kind := if action == DoRegister then MSG_REGISTER else MSG_LOGIN;
      request := Track(Auth(action, user), PackedPacket(kind, user, [], password + [NUL]));
    }

    /** `requireLogin` */
    method RequireLogin() returns (ok: bool)
      modifies this`ui
      ensures ok == (loggedIn && username != [])
      ensures View() == if ok then old(View()) else Emit(old(View()), Failure)
    {
      ok := loggedIn && username != [];
      if !ok {
        Send(Failure);
      }
    }

    method Track(tag: Pending, p: Packet) returns (request: Option<Request>)
      modifies this`pendingResponses
      ensures Acted(View(), request) == Tracked(old(View()), tag, p)
    {
      pendingResponses := pendingResponses + [tag];
      return Some(Request(p, Some(tag)));
    }

    /** `handlePrivate` */
    method OnPrivate(receiver: Bytes, text: Bytes) returns (request: Option<Request>)
      modifies this
      ensures Acted(View(), request) == Act(old(View()), Private(receiver, text))
    {
      var ok := RequireLogin();
      if !ok {
        return None;
      }
      if !ValidPeer(receiver) || !ValidText(text) {
        Send(Failure);
        return None;
      }
      request := Track(Status(SendPrivate), PackedPacket(MSG_PRIVATE, username, receiver, text + [NUL]));
    }

    /** `handleGroup` */
    method OnGroup(text: Bytes) returns (request: Option<Request>)
      modifies this
      ensures Acted(View(), request) == Act(old(View()), ToAll(text))
    {
      var ok := RequireLogin();
      if !ok {
        return None;
      }
      if !ValidText(text) {
        Send(Failure);
        return None;
      }
      request := Track(Status(SendToAll), PackedPacket(MSG_GROUP, username, [], text + [NUL]));
    }

    /** `handleOnlineList` and `handleGroupList`: their answers are not awaited. */
    method OnListRequest(kind: int) returns (request: Option<Request>)
      requires kind == MSG_ONLINE_LIST || kind == MSG_GROUP_LIST
      modifies this
      ensures Acted(View(), request) == Act(old(View()), if kind == MSG_ONLINE_LIST then OnlineList else ListGroups)
    {
      var ok := RequireLogin();
      return if ok then Some(Request(PackedPacket(kind, username, [], []), None)) else None;
    }

    /** `handleCreateGroup` */
    method OnCreateGroup(name: Bytes, members: seq<Bytes>) returns (request: Option<Request>)
      modifies this
      ensures Acted(View(), request) == Act(old(View()), CreateGroup(name, members))
    {
      var ok := RequireLogin();
      if !ok {
        return None;
      }
      var others := OtherThan(members, username);
      if !ValidGroupName(name) {
        Send(Failure);
        return None;
      }
      var i := 0;
      while i < |others|
        invariant i <= |others| && forall k :: 0 <= k < i ==> ValidPeer(others[k])
      {
        if !ValidPeer(others[i]) {
          Send(Failure);
          return None;
        }
        i := i + 1;
      }
      var payload := CreatePayload(name, others);
      if payload.None? {
        Send(Failure);
        return None;
      }
      request := Track(Status(MakeGroup), PackedPacket(MSG_GROUP_CREATE, username, [], payload.value));
    }

    /** `handleSendFileBegin` */
    method OnSendFileBegin(receiver: Bytes, filename: Bytes, filesize: nat) returns (request: Option<Request>)
      modifies this
      ensures Acted(View(), request) == Act(old(View()), FileStart(receiver, filename, filesize))
    {
      var ok := RequireLogin();
      if !ok {
        return None;
      }
      if !ValidPeer(receiver) || filename == [] || |filename| >= FILE_NAME_MAX_LEN || NEWLINE in filename
         || filesize > FILE_TRANSFER_MAX_BYTES {
        Send(Failure);
        return None;
      }
      return Some(Request(PackedPacket(MSG_FILE_BEGIN, username, receiver, FileBeginPayload(filename, filesize)), None));
    }

    /** `handleSendFileChunk` */
    method OnSendFileChunk(receiver: Bytes, data: Bytes) returns (request: Option<Request>)
      modifies this
      ensures Acted(View(), request) == Act(old(View()), FileChunk(receiver, data))
    {
      var ok := RequireLogin();
      if !ok {
        return None;
      }
      if !ValidPeer(receiver) || |data| == 0 || |data| > PACKET_DATA_MAX {
        Send(Failure);
        return None;
      }
      return Some(Request(PackedPacket(MSG_FILE_CHUNK, username, receiver, data), None));
    }

    /** `handleSendFileEnd` */
    method OnSendFileEnd(receiver: Bytes) returns (request: Option<Request>)
      modifies this
      ensures Acted(View(), request) == Act(old(View()), FileDone(receiver))
    {
      var ok := RequireLogin();
      if !ok {
        return None;
      }
      if !ValidPeer(receiver) {
        Send(Failure);
        return None;
      }
      request := Track(Status(SendFile), PackedPacket(MSG_FILE_END, username, receiver, []));
    }

    /** The `logout` action */
    method OnLogout() returns (request: Option<Request>)
      modifies this
      ensures Acted(View(), request) == Act(old(View()), Logout)
    {
      if loggedIn {
        request := Track(Status(DoLogout), PackedPacket(MSG_LOGOUT, username, [], []));
        return;
      }
      username, groupsById, open := [], map[], false;
      Send(UiEvent.LoggedOut(true));
      return None;
    }

    /** `handleMessage`: one action of the browser. */
    method OnAction(a: Action) returns (request: Option<Request>)
      modifies this
      ensures Acted(View(), request) == Act(old(View()), a)
    {
      hide Act;
      match a
      case Register(user, password) => request := OnRegisterOrLogin(DoRegister, user, password);
      case Login(user, password) => request := OnRegisterOrLogin(DoLogin, user, password);
      case OnlineList => request := OnListRequest(MSG_ONLINE_LIST);
      case Private(receiver, text) => request := OnPrivate(receiver, text);
      case ToAll(text) => request := OnGroup(text);
      case ListGroups => request := OnListRequest(MSG_GROUP_LIST);
      case CreateGroup(name, members) => request := OnCreateGroup(name, members);
      case GroupMessage(groupId, text) => request := OnGroupMessage(groupId, text);
      case FileStart(receiver, filename, filesize) => request := OnSendFileBegin(receiver, filename, filesize);
      case FileChunk(receiver, data) => request := OnSendFileChunk(receiver, data);
      case FileDone(receiver) => request := OnSendFileEnd(receiver);
      case Logout => request := OnLogout();
    }
  }
}
