/**
 The chat server as a state machine over values. One step handles one packet or one closed connection;
 the result of every send is decided by an arbitrary `fate`, so all patterns of send failures are covered.
 */
module ServerModel {
  import opened Basics
  import opened Wire
  import opened Credentials
  import opened GroupModel
  import opened Payload
  import opened GroupStore
  import opened UserModel

  const MAX_ONLINE_SNAPSHOT := 256
  const SERVER_NAME: Bytes := [115, 101, 114, 118, 101, 114]

  type Text = s: Bytes | NUL !in s && |s| < PACKET_DATA_MAX witness []

  /** The answers the server gives in words. */
  datatype Reply =
    | RegisterOk | LoginOk | NobodyOnline | PrivateSent | PeerLost | NobodyElse | BroadcastSent | PleaseLogIn
    | BadCreateData | MembersOffline | ChooseSomeone | GroupCreated | BadMessageData | GroupMessageSent
    | FileSent | LoggedOut | HeartbeatOk | BadKind | UserFailure(u: UserResult) | GroupFailure(g: GroupError)

  /**
   What the model leaves open: the digest, the wording of the answers, and for each send in turn
   whether it succeeds.
   */
  datatype Env = Env(digest: Hasher, wording: Reply -> Text, fate: nat -> bool)

  datatype Attempt = Attempt(fd: int, packet: Packet, ok: bool)

  /** `issued` is one more than the number of groups ever created; `log` lists every send attempted. */
  datatype World = World(users: seq<User>, storage: Bytes, groups: seq<Group>, issued: nat, log: seq<Attempt>)

  // ---------- sending ----------

  predicate Delivers(env: Env, w: World) {
    env.fate(|w.log|)
  }

  /** `send_packet`: the attempt is recorded with its outcome. */
  function Send(env: Env, w: World, fd: int, p: Packet): (r: World)
    ensures r == w.(log := r.log)
  {
    w.(log := w.log + [Attempt(fd, p, Delivers(env, w))])
  }

  function TextPacket(kind: int, text: Bytes): Packet {
    PackedPacket(kind, SERVER_NAME, [], text + [NUL])
  }

  /** `send_text_response`; its result is ignored by every caller. */
  function Answer(env: Env, w: World, fd: int, kind: int, reply: Reply): (r: World)
    ensures r == w.(log := r.log)
  {
    Send(env, w, fd, TextPacket(kind, env.wording(reply)))
  }

  // ---------- the cascade ----------

  /** `cleanup_offline_fd` */
  function Cleanup(env: Env, w: World, fd: int): (r: World)
    ensures OnlineCount(r.users) <= OnlineCount(w.users)
    decreases OnlineCount(w.users), 0, 0
  {
    match NameByFd(w.users, fd)
    case None => w.(users := LogoutFd(w.users, fd))
    case Some(name) =>
      var all := Changed(w.groups, name);
      var changes := all[..Min(|all|, GROUP_EVENT_MAX_CHANGES)];
      OfflineLowersCount(w.users, FindFd(w.users, fd));
      PushChanges(env, w.(groups := RemoveMember(w.groups, name), users := LogoutFd(w.users, fd)), changes)
  }

  function PushChanges(env: Env, w: World, changes: seq<Group>): (r: World)
    ensures OnlineCount(r.users) <= OnlineCount(w.users)
    decreases OnlineCount(w.users), 4, |changes|
  {
    if changes == [] then w
    else PushChanges(env, PushEvent(env, w, EVENT_MEMBER_LEFT, changes[0]), changes[1..])
  }

  /** `push_group_event`: an event that does not fit is dropped. */
  function PushEvent(env: Env, w: World, event: Bytes, g: Group): (r: World)
    ensures OnlineCount(r.users) <= OnlineCount(w.users)
    decreases OnlineCount(w.users), 3, 0
  {
    match Build(EventFields(event, g))
    case None => w
    case Some(payload) => SendEach(env, w, g.members, PackedPacket(MSG_GROUP_EVENT, SERVER_NAME, g.id, payload))
  }

  /** One packet to every member who is online when its turn comes. */
  function SendEach(env: Env, w: World, members: seq<Bytes>, p: Packet): (r: World)
    ensures OnlineCount(r.users) <= OnlineCount(w.users)
    decreases OnlineCount(w.users), 2, |members|
  {
    if members == [] then w
    else SendEach(env, SendToMember(env, w, members[0], p), members[1..], p)
  }

  function SendToMember(env: Env, w: World, member: Bytes, p: Packet): (r: World)
    ensures OnlineCount(r.users) <= OnlineCount(w.users)
    decreases OnlineCount(w.users), 1, 1
  {
    match GetFd(w.users, member)
    case NoFd(_) => w
    case Fd(fd) => SendOrCleanup(env, w, fd, p)
  }

  /** `send_group_payload_to_fd`: a failed send takes the user of that socket offline. */
  function SendOrCleanup(env: Env, w: World, fd: int, p: Packet): (r: World)
    ensures OnlineCount(r.users) <= OnlineCount(w.users)
    decreases OnlineCount(w.users), 1, 0
  {
    if Delivers(env, w) then Send(env, w, fd, p) else Cleanup(env, Send(env, w, fd, p), fd)
  }

  // ---------- the handlers ----------

  function HandleRegister(env: Env, w: World, fd: int, p: Packet, salt: Option<Salt>, appended: bool): World {
    var r := Register(env.digest, w.users, w.storage, CString(p.sender), CString(p.data), salt, appended);
    var w1 := w.(users := r.users, storage := r.storage);
    if r.result == Ok then Answer(env, w1, fd, MSG_OK, RegisterOk)
    else Answer(env, w1, fd, MSG_ERROR, UserFailure(r.result))
  }

  function HandleLogin(env: Env, w: World, fd: int, p: Packet): World {
    var r := LoginUser(env.digest, w.users, CString(p.sender), CString(p.data), fd);
    var w1 := w.(users := r.users);
    if r.result == Ok then Answer(env, w1, fd, MSG_OK, LoginOk)
    else Answer(env, w1, fd, MSG_ERROR, UserFailure(r.result))
  }

  function HandleOnlineList(env: Env, w: World, fd: int): World {
    match OnlineText(w.users, [], 0)
    case None => Answer(env, w, fd, MSG_ERROR, UserFailure(IoFailure))
    case Some(text) =>
      if OnlineCount(w.users) == 0 then Answer(env, w, fd, MSG_ONLINE_LIST, NobodyOnline)
      else Send(env, w, fd, TextPacket(MSG_ONLINE_LIST, text))
  }

  /** The shared part of private messages and file packets: to one named user, or an error back. */
  function Forward(env: Env, w: World, fd: int, p: Packet, done: Option<Reply>): World {
    match GetFd(w.users, CString(p.receiver))
    case NoFd(e) => Answer(env, w, fd, MSG_ERROR, UserFailure(e))
    case Fd(target) =>
      var w1 := Send(env, w, target, p);
      if !Delivers(env, w) then Answer(env, Cleanup(env, w1, target), fd, MSG_ERROR, PeerLost)
      else if done.Some? then Answer(env, w1, fd, MSG_OK, done.value) else w1
  }

  function HandlePrivate(env: Env, w: World, fd: int, p: Packet): World {
    Forward(env, w, fd, p, Some(PrivateSent))
  }

  function HandleFile(env: Env, w: World, fd: int, p: Packet): World {
    Forward(env, w, fd, p, if p.kind == MSG_FILE_END then Some(FileSent) else None)
  }

  function SendToFds(env: Env, w: World, fds: seq<int>, p: Packet): World
    decreases |fds|
  {
    if fds == [] then w else SendToFds(env, SendOrCleanup(env, w, fds[0], p), fds[1..], p)
  }

  /** The old broadcast to everybody else online. */
  function HandleGroup(env: Env, w: World, fd: int, p: Packet): World {
    var fds := OnlineFds(w.users, fd, MAX_ONLINE_SNAPSHOT);
    if fds == [] then Answer(env, w, fd, MSG_ERROR, NobodyElse)
    else Answer(env, SendToFds(env, w, fds, p), fd, MSG_OK, BroadcastSent)
  }

  predicate AllOnline(us: seq<User>, names: seq<Bytes>) {
    forall i :: 0 <= i < |names| ==> GetFd(us, names[i]).Fd?
  }

  datatype CreateRequest = Refused(reply: Reply) | Wanted(user: Bytes, name: Bytes, members: seq<Bytes>)

  /** The checks `handle_group_create` makes before it touches the group store. */
  function CheckCreate(w: World, fd: int, p: Packet): (r: CreateRequest) {
    match NameByFd(w.users, fd)
    case None => Refused(PleaseLogIn)
    case Some(user) =>
      if !ParsesInC(p.data) || |Fields(p.data)| < 2 || |Fields(p.data)| - 1 > GROUP_MAX_MEMBERS
      then Refused(BadCreateData)
      else
        var members := Fields(p.data)[1..];
        if !AllOnline(w.users, members) then Refused(MembersOffline)
        else if forall i :: 0 <= i < |members| ==> members[i] == user then Refused(ChooseSomeone)
        else Wanted(user, Fields(p.data)[0], members)
  }

  function HandleGroupCreate(env: Env, w: World, fd: int, p: Packet): World {
    match CheckCreate(w, fd, p)
    case Refused(reply) => Answer(env, w, fd, MSG_ERROR, reply)
    case Wanted(user, name, members) =>
      match CreateGroup(w.groups, w.issued, user, name, members)
      case CreateFailed(e) => Answer(env, w, fd, MSG_ERROR, GroupFailure(e))
      case Created(g) =>
        var w1 := w.(groups := [g] + w.groups, issued := w.issued + 1);
        Answer(env, PushEvent(env, w1, EVENT_CREATED, g), fd, MSG_OK, GroupCreated)
  }

  function HandleGroupList(env: Env, w: World, fd: int): World {
    match NameByFd(w.users, fd)
    case None => Answer(env, w, fd, MSG_ERROR, PleaseLogIn)
    case Some(user) =>
      match Build(ListFields(GroupsOf(w.groups, user)))
      case None => Answer(env, w, fd, MSG_ERROR, GroupFailure(GroupError.Payload))
      case Some(payload) => SendOrCleanup(env, w, fd, PackedPacket(MSG_GROUP_LIST, SERVER_NAME, user, payload))
  }

  /** `packet_text_data`; `None` is NULL. */
  function PacketText(p: Packet): Option<Bytes> {
    if p.data == [] || |p.data| > PACKET_DATA_MAX || p.data[|p.data| - 1] != NUL then None else Some(CString(p.data))
  }

  function HandleGroupMessage(env: Env, w: World, fd: int, p: Packet): World {
    match NameByFd(w.users, fd)
    case None => Answer(env, w, fd, MSG_ERROR, PleaseLogIn)
    case Some(user) =>
      if CString(p.receiver) == [] || PacketText(p).None? || PacketText(p).value == []
      then Answer(env, w, fd, MSG_ERROR, BadMessageData)
      else match FindGroup(w.groups, CString(p.receiver))
        case Missing(e) => Answer(env, w, fd, MSG_ERROR, GroupFailure(e))
        case Found(g) =>
          if MemberIndex(g.members, user) < 0 then Answer(env, w, fd, MSG_ERROR, GroupFailure(NotMember))
          else match Build(MessageFields(g, PacketText(p).value))
            case None => Answer(env, w, fd, MSG_ERROR, GroupFailure(GroupError.Payload))
            case Some(payload) =>
              var copy := PackedPacket(MSG_GROUP_MESSAGE, user, g.id, payload);
              Answer(env, SendEach(env, w, g.members, copy), fd, MSG_OK, GroupMessageSent)
  }

  // ---------- steps and runs ----------

  /** `salt` and `appended` matter only for a registration. */
  datatype Event = Arrived(fd: int, packet: Packet, salt: Option<Salt>, appended: bool) | HungUp(fd: int)

  /** `process_packet` */
  function Process(env: Env, w: World, fd: int, p: Packet, salt: Option<Salt>, appended: bool): World {
    if p.kind == MSG_REGISTER then HandleRegister(env, w, fd, p, salt, appended)
    else if p.kind == MSG_LOGIN then HandleLogin(env, w, fd, p)
    else if p.kind == MSG_ONLINE_LIST then HandleOnlineList(env, w, fd)
    else if p.kind == MSG_PRIVATE then HandlePrivate(env, w, fd, p)
    else if p.kind == MSG_GROUP then HandleGroup(env, w, fd, p)
    else if p.kind == MSG_GROUP_CREATE then HandleGroupCreate(env, w, fd, p)
    else if p.kind == MSG_GROUP_LIST then HandleGroupList(env, w, fd)
    else if p.kind == MSG_GROUP_MESSAGE then HandleGroupMessage(env, w, fd, p)
    else if p.kind == MSG_FILE_BEGIN || p.kind == MSG_FILE_CHUNK || p.kind == MSG_FILE_END then HandleFile(env, w, fd, p)
    else if p.kind == MSG_LOGOUT then Answer(env, Cleanup(env, w, fd), fd, MSG_OK, LoggedOut)
    else if p.kind == MSG_HEARTBEAT then Answer(env, w, fd, MSG_OK, HeartbeatOk)
    else Answer(env, w, fd, MSG_ERROR, BadKind)
  }

  function Step(env: Env, w: World, e: Event): World {
    match e
    case Arrived(fd, p, salt, appended) => Process(env, w, fd, p, salt, appended)
    case HungUp(fd) => Cleanup(env, w, fd)
  }

  function Run(env: Env, w: World, es: seq<Event>): World
    decreases |es|
  {
    if es == [] then w else Run(env, Step(env, w, es[0]), es[1..])
  }

  /** The server as it starts: the users of the file, nobody online, no groups. */
  function Start(storage: Bytes): World {
    World(LoadFrom([], storage), storage, [], 1, [])
  }
}
