/** The server never sends a gateway a group payload that it cannot read. */
module ReadablePackets {
  import opened Basics
  import opened Wire
  import opened GroupModel
  import opened Payload
  import opened GroupStore
  import opened UserModel
  import opened ServerModel
  import opened ServerSafety
  import opened ServerRuns
  import G = Gateway

  /** The gateway's handler does not throw on the packet. */
  predicate Readable(p: Packet) {
    !G.Throws(JsView(p))
  }

  ghost predicate AllReadable(log: seq<Attempt>) {
    forall i :: 0 <= i < |log| ==> Readable(log[i].packet)
  }

  /** From `w` to `r` only readable packets are sent. */
  ghost predicate Clean(w: World, r: World) {
    w.log <= r.log && AllReadable(r.log[|w.log|..])
  }

  lemma CleanNothing(w: World, r: World)
    requires r.log == w.log
    ensures Clean(w, r)
  {
  }

  lemma CleanThen(a: World, b: World, c: World)
    requires Clean(a, b) && Clean(b, c)
    ensures Clean(a, c)
  {
    var x: seq<Attempt>, y: seq<Attempt> := b.log[|a.log|..], c.log[|b.log|..];
    var both := c.log[|a.log|..];
    forall i | 0 <= i < |both| ensures Readable(both[i].packet) {
      assert both[i] == if i < |x| then x[i] else y[i - |x|];
    }
  }

  lemma CleanSend(env: Env, w: World, fd: int, p: Packet)
    requires Readable(p)
    ensures Clean(w, Send(env, w, fd, p))
  {
    assert Send(env, w, fd, p).log[|w.log|..] == [Attempt(fd, p, Delivers(env, w))];
  }

  lemma AnswerIsClean(env: Env, w: World, fd: int, kind: int, reply: Reply)
    requires kind == MSG_OK || kind == MSG_ERROR || kind == MSG_ONLINE_LIST
    ensures Clean(w, Answer(env, w, fd, kind, reply))
  {
    CleanSend(env, w, fd, TextPacket(kind, env.wording(reply)));
  }

  /** Something clean followed by an answer. */
  lemma ThenAnswerIsClean(env: Env, w: World, r: World, fd: int, kind: int, reply: Reply)
    requires Clean(w, r) && (kind == MSG_OK || kind == MSG_ERROR || kind == MSG_ONLINE_LIST)
    ensures Clean(w, Answer(env, r, fd, kind, reply))
  {
    AnswerIsClean(env, r, fd, kind, reply);
    CleanThen(w, r, Answer(env, r, fd, kind, reply));
  }

  // ---------- the cascade ----------

  predicate AllValidChanges(changes: seq<Group>) {
    forall i :: 0 <= i < |changes| ==> ValidGroup(changes[i])
  }

  lemma PushedAreValid(gs: seq<Group>, name: Bytes, n: nat)
    requires AllValid(gs) && ValidName(name) && n <= |Changed(gs, name)|
    ensures AllValidChanges(Changed(gs, name)[..n])
  {
    hide ValidGroup;
    forall i | 0 <= i < n ensures ValidGroup(Changed(gs, name)[i]) {
      var j := ChangedAreKept(gs, name, i);
    }
  }

  lemma CleanupIsClean(env: Env, w: World, fd: int)
    requires Inv(w)
    ensures Clean(w, Cleanup(env, w, fd)) && Inv(Cleanup(env, w, fd))
    decreases OnlineCount(w.users), 0, 0
  {
    hide Inv, Clean;
    CleanupCascades(env, w, fd);
    match NameByFd(w.users, fd)
    case None => CleanNothing(w, Cleanup(env, w, fd));
    case Some(name) =>
      var all := Changed(w.groups, name);
      var changes := all[..Min(|all|, GROUP_EVENT_MAX_CHANGES)];
      var w1 := w.(groups := RemoveMember(w.groups, name), users := LogoutFd(w.users, fd));
      DepartureKeepsInv(w, fd);
      GroupsAreValid(w);
      PushedAreValid(w.groups, name, Min(|all|, GROUP_EVENT_MAX_CHANGES));
      OfflineLowersCount(w.users, FindFd(w.users, fd));
      PushChangesIsClean(env, w1, changes);
      CleanNothing(w, w1);
      CleanThen(w, w1, Cleanup(env, w, fd));
  }

  lemma GroupsAreValid(w: World)
    requires Inv(w)
    ensures AllValid(w.groups)
  {
  }

  lemma PushChangesIsClean(env: Env, w: World, changes: seq<Group>)
    requires Inv(w) && AllValidChanges(changes)
    ensures Clean(w, PushChanges(env, w, changes)) && Inv(PushChanges(env, w, changes))
    decreases OnlineCount(w.users), 4, |changes|
  {
    hide Inv, Clean, ValidGroup;
    if changes == [] {
      CleanNothing(w, w);
    } else {
      var w1 := PushEvent(env, w, EVENT_MEMBER_LEFT, changes[0]);
      PushEventIsClean(env, w, EVENT_MEMBER_LEFT, changes[0]);
      PushChangesIsClean(env, w1, changes[1..]);
      CleanThen(w, w1, PushChanges(env, w, changes));
    }
  }

  lemma PushEventIsClean(env: Env, w: World, event: Bytes, g: Group)
    requires Inv(w) && ValidGroup(g) && NUL !in event
    ensures Clean(w, PushEvent(env, w, event, g)) && Inv(PushEvent(env, w, event, g))
    decreases OnlineCount(w.users), 3, 0
  {
    hide Inv, Clean, Build, DecodeEvent, ListOf, DecodeMessage;
    match Build(EventFields(event, g))
    case None => CleanNothing(w, w);
    case Some(payload) =>
      ValidGroupNulFree(g);
      EventRoundTrip(event, g);
      SendEachIsClean(env, w, g.members, PackedPacket(MSG_GROUP_EVENT, SERVER_NAME, g.id, payload), EVENTS_ONLY);
  }

  lemma SendEachIsClean(env: Env, w: World, members: seq<Bytes>, p: Packet, kinds: set<int>)
    requires Inv(w) && Readable(p) && p.kind in kinds && MSG_GROUP_EVENT in kinds
    ensures Clean(w, SendEach(env, w, members, p)) && Inv(SendEach(env, w, members, p))
    decreases OnlineCount(w.users), 2, |members|
  {
    hide Inv, Clean, Readable;
    if members == [] {
      CleanNothing(w, w);
    } else {
      var w1 := SendToMember(env, w, members[0], p);
      SendToMemberIsClean(env, w, members[0], p, kinds);
      SendEachIsClean(env, w1, members[1..], p, kinds);
      CleanThen(w, w1, SendEach(env, w, members, p));
    }
  }

  lemma SendToMemberIsClean(env: Env, w: World, member: Bytes, p: Packet, kinds: set<int>)
    requires Inv(w) && Readable(p) && p.kind in kinds && MSG_GROUP_EVENT in kinds
    ensures Clean(w, SendToMember(env, w, member, p)) && Inv(SendToMember(env, w, member, p))
    decreases OnlineCount(w.users), 1, 1
  {
    hide Inv, Clean, Readable;
    match GetFd(w.users, member)
    case NoFd(_) => CleanNothing(w, w);
    case Fd(fd) => SendOrCleanupIsClean(env, w, fd, p, kinds);
  }

  lemma SendOrCleanupIsClean(env: Env, w: World, fd: int, p: Packet, kinds: set<int>)
    requires Inv(w) && Readable(p) && p.kind in kinds && MSG_GROUP_EVENT in kinds
    ensures Clean(w, SendOrCleanup(env, w, fd, p)) && Inv(SendOrCleanup(env, w, fd, p))
    decreases OnlineCount(w.users), 1, 0
  {
    hide Inv, Clean, Readable;
    var w1 := Send(env, w, fd, p);
    CleanSend(env, w, fd, p);
    InvIgnoresLog(w, w1);
    if !Delivers(env, w) {
      CleanupIsClean(env, w1, fd);
      CleanThen(w, w1, Cleanup(env, w1, fd));
    }
  }

  // ---------- the steps ----------

  lemma ForwardIsClean(env: Env, w: World, fd: int, p: Packet, done: Option<Reply>)
    requires Inv(w) && Readable(p)
    ensures Clean(w, Forward(env, w, fd, p, done))
  {
    hide Inv, Clean, Readable, Cleanup, Answer;
    match GetFd(w.users, CString(p.receiver))
    case NoFd(e) => AnswerIsClean(env, w, fd, MSG_ERROR, UserFailure(e));
    case Fd(target) =>
      var w1 := Send(env, w, target, p);
      CleanSend(env, w, target, p);
      InvIgnoresLog(w, w1);
      if !Delivers(env, w) {
        CleanupIsClean(env, w1, target);
        CleanThen(w, w1, Cleanup(env, w1, target));
        ThenAnswerIsClean(env, w, Cleanup(env, w1, target), fd, MSG_ERROR, PeerLost);
      } else if done.Some? {
        ThenAnswerIsClean(env, w, w1, fd, MSG_OK, done.value);
      }
  }

  lemma FdsAreClean(env: Env, w: World, fds: seq<int>, p: Packet)
    requires Inv(w) && Readable(p)
    ensures Clean(w, SendToFds(env, w, fds, p))
    decreases |fds|
  {
    hide Inv, Clean, Readable, SendOrCleanup;
    if fds == [] {
      CleanNothing(w, w);
    } else {
      var w1 := SendOrCleanup(env, w, fds[0], p);
      SendOrCleanupIsClean(env, w, fds[0], p, {p.kind, MSG_GROUP_EVENT});
      FdsAreClean(env, w1, fds[1..], p);
      CleanThen(w, w1, SendToFds(env, w, fds, p));
    }
  }

  lemma CreateIsClean(env: Env, w: World, fd: int, p: Packet)
    requires Inv(w)
    ensures Clean(w, HandleGroupCreate(env, w, fd, p))
  {
    hide Inv, Clean, CheckCreate, CreateGroup, PushEvent, Answer, ValidGroup;
    match CheckCreate(w, fd, p)
    case Refused(reply) => AnswerIsClean(env, w, fd, MSG_ERROR, reply);
    case Wanted(user, name, members) =>
      match CreateGroup(w.groups, w.issued, user, name, members)
      case CreateFailed(e) => AnswerIsClean(env, w, fd, MSG_ERROR, GroupFailure(e));
      case Created(g) =>
        var w1 := w.(groups := [g] + w.groups, issued := w.issued + 1);
        WantedIsOnline(w, fd, p);
        CreationKeepsInv(w, user, name, members);
        CreatedIsValid(w.groups, w.issued, user, name, members);
        PushEventIsClean(env, w1, EVENT_CREATED, g);
        CleanNothing(w, w1);
        CleanThen(w, w1, PushEvent(env, w1, EVENT_CREATED, g));
        ThenAnswerIsClean(env, w, PushEvent(env, w1, EVENT_CREATED, g), fd, MSG_OK, GroupCreated);
  }

  lemma MessageIsClean(env: Env, w: World, fd: int, p: Packet)
    requires Inv(w)
    ensures Clean(w, HandleGroupMessage(env, w, fd, p))
  {
    hide Inv, Clean, Build, FindGroup, MemberIndex, SendEach, CString, Fixed, PacketText, NameByFd, Answer, MessageFields;
    if MessageAccepted(w, fd, p) {
      MessageCopiesAreClean(env, w, fd, p);
    } else {
      var reply: Reply :| HandleGroupMessage(env, w, fd, p) == Answer(env, w, fd, MSG_ERROR, reply);
      AnswerIsClean(env, w, fd, MSG_ERROR, reply);
    }
  }

  lemma MessageCopiesAreClean(env: Env, w: World, fd: int, p: Packet)
    requires Inv(w) && MessageAccepted(w, fd, p)
    ensures Clean(w, HandleGroupMessage(env, w, fd, p))
  {
    hide Inv, Clean, Build, FindGroup, MemberIndex, SendEach, NameByFd, Answer, DecodeEvent, ListOf, DecodeMessage;
    var g, text := FindGroup(w.groups, CString(p.receiver)).group, PacketText(p).value;
    var copy := PackedPacket(MSG_GROUP_MESSAGE, NameByFd(w.users, fd).value, g.id, Build(MessageFields(g, text)).value);
    FoundGroupIsStored(w.groups, CString(p.receiver));
    StoredGroupIsValid(w, g);
    ValidGroupNulFree(g);
    MessageRoundTrip(g, text);
    SendEachIsClean(env, w, g.members, copy, {MSG_GROUP_MESSAGE, MSG_GROUP_EVENT});
    ThenAnswerIsClean(env, w, SendEach(env, w, g.members, copy), fd, MSG_OK, GroupMessageSent);
  }

  lemma ListIsClean(env: Env, w: World, fd: int)
    requires Inv(w)
    ensures Clean(w, HandleGroupList(env, w, fd))
  {
    hide Inv, Clean, Build, SendOrCleanup, Answer, DecodeEvent, ListOf, DecodeMessage, ListFields;
    match NameByFd(w.users, fd)
    case None => AnswerIsClean(env, w, fd, MSG_ERROR, PleaseLogIn);
    case Some(user) =>
      match Build(ListFields(GroupsOf(w.groups, user)))
      case None => AnswerIsClean(env, w, fd, MSG_ERROR, GroupFailure(GroupError.Payload));
      case Some(payload) =>
        MineAreReadable(w, user);
        ListRoundTrip(GroupsOf(w.groups, user));
        SendOrCleanupIsClean(env, w, fd, PackedPacket(MSG_GROUP_LIST, SERVER_NAME, user, payload), {MSG_GROUP_LIST, MSG_GROUP_EVENT});
  }

  lemma {:induction false} OwnGroups(gs: seq<Group>, user: Bytes)
    ensures forall g :: g in GroupsOf(gs, user) ==> g in gs
  {
    if gs != [] { OwnGroups(gs[1..], user); }
  }

  lemma MineAreReadable(w: World, user: Bytes)
    requires Inv(w)
    ensures forall i :: 0 <= i < |GroupsOf(w.groups, user)| ==> NulFreeGroup(GroupsOf(w.groups, user)[i])
  {
    hide Inv, ValidGroup;
    OwnGroups(w.groups, user);
    forall i | 0 <= i < |GroupsOf(w.groups, user)| ensures NulFreeGroup(GroupsOf(w.groups, user)[i]) {
      StoredGroupIsValid(w, GroupsOf(w.groups, user)[i]);
      ValidGroupNulFree(GroupsOf(w.groups, user)[i]);
    }
  }

  lemma OnlineListIsClean(env: Env, w: World, fd: int)
    ensures Clean(w, HandleOnlineList(env, w, fd))
  {
    hide Clean, OnlineText;
    match OnlineText(w.users, [], 0)
    case None => AnswerIsClean(env, w, fd, MSG_ERROR, UserFailure(IoFailure));
    case Some(text) =>
      AnswerIsClean(env, w, fd, MSG_ONLINE_LIST, NobodyOnline);
      CleanSend(env, w, fd, TextPacket(MSG_ONLINE_LIST, text));
  }

  /** No step sends a packet that a gateway cannot read, whatever arrives and whatever sends fail. */
  lemma StepIsClean(env: Env, w: World, e: Event)
    requires Inv(w)
    ensures Clean(w, Step(env, w, e))
  {
    hide Inv, Clean, Register, LoginUser, HandleGroupCreate, HandleGroupMessage, HandleGroupList, HandleOnlineList, Cleanup, Forward,
      SendToFds, OnlineFds, CString, Answer;
    match e
    case HungUp(fd) => CleanupIsClean(env, w, fd);
    case Arrived(fd, p, salt, appended) =>
      if p.kind == MSG_REGISTER {
        var g := Register(env.digest, w.users, w.storage, CString(p.sender), CString(p.data), salt, appended);
        var w1 := w.(users := g.users, storage := g.storage);
        CleanNothing(w, w1);
        ThenAnswerIsClean(env, w, w1, fd, MSG_OK, RegisterOk);
        ThenAnswerIsClean(env, w, w1, fd, MSG_ERROR, UserFailure(g.result));
      } else if p.kind == MSG_LOGIN {
        var g := LoginUser(env.digest, w.users, CString(p.sender), CString(p.data), fd);
        var w1 := w.(users := g.users);
        CleanNothing(w, w1);
        ThenAnswerIsClean(env, w, w1, fd, MSG_OK, LoginOk);
        ThenAnswerIsClean(env, w, w1, fd, MSG_ERROR, UserFailure(g.result));
      } else if p.kind == MSG_ONLINE_LIST {
        OnlineListIsClean(env, w, fd);
      } else if p.kind == MSG_GROUP_CREATE {
        CreateIsClean(env, w, fd, p);
      } else if p.kind == MSG_GROUP_MESSAGE {
        MessageIsClean(env, w, fd, p);
      } else if p.kind == MSG_GROUP_LIST {
        ListIsClean(env, w, fd);
      } else if p.kind == MSG_PRIVATE {
        ForwardIsClean(env, w, fd, p, Some(PrivateSent));
      } else if p.kind == MSG_FILE_BEGIN || p.kind == MSG_FILE_CHUNK || p.kind == MSG_FILE_END {
        ForwardIsClean(env, w, fd, p, if p.kind == MSG_FILE_END then Some(FileSent) else None);
      } else if p.kind == MSG_GROUP {
        var fds := OnlineFds(w.users, fd, MAX_ONLINE_SNAPSHOT);
        FdsAreClean(env, w, fds, p);
        AnswerIsClean(env, w, fd, MSG_ERROR, NobodyElse);
        ThenAnswerIsClean(env, w, SendToFds(env, w, fds, p), fd, MSG_OK, BroadcastSent);
      } else if p.kind == MSG_LOGOUT {
        CleanupIsClean(env, w, fd);
        ThenAnswerIsClean(env, w, Cleanup(env, w, fd), fd, MSG_OK, LoggedOut);
      } else {
        AnswerIsClean(env, w, fd, MSG_OK, HeartbeatOk);
        AnswerIsClean(env, w, fd, MSG_ERROR, BadKind);
      }
  }

  lemma {:induction false} RunIsClean(env: Env, w: World, es: seq<Event>)
    requires Inv(w)
    ensures Clean(w, Run(env, w, es))
    decreases |es|
  {
    hide Inv, Clean, Step;
    if es == [] {
      CleanNothing(w, w);
    } else {
      StepKeepsInv(env, w, es[0]);
      StepIsClean(env, w, es[0]);
      RunIsClean(env, Step(env, w, es[0]), es[1..]);
      CleanThen(w, Step(env, w, es[0]), Run(env, w, es));
    }
  }

  /**
   No packet that the server sends over any run makes a gateway's handler throw, so the packets of a
   chunk are handled as they would be one by one.
   */
  lemma NoPacketThrows(env: Env, storage: Bytes, es: seq<Event>)
    ensures AllReadable(Run(env, Start(storage), es).log)
    ensures forall s: G.Session, ps: seq<Packet> :: (forall p :: p in ps ==> WasSentIn(Run(env, Start(storage), es).log, p)) ==>
              G.HandleChunk(s, Views(ps)) == G.HandleEach(s, Views(ps))
  {
    var log := Run(env, Start(storage), es).log;
    StartInv(storage);
    RunIsClean(env, Start(storage), es);
    assert log[0..] == log;
    forall s: G.Session, ps: seq<Packet> | forall p :: p in ps ==> WasSentIn(log, p)
      ensures G.HandleChunk(s, Views(ps)) == G.HandleEach(s, Views(ps))
    {
      ChunkWithoutThrow(s, ps);
    }
  }

  ghost predicate WasSentIn(log: seq<Attempt>, p: Packet) {
    exists i :: 0 <= i < |log| && log[i].packet == p
  }

  lemma {:induction false} ChunkWithoutThrow(s: G.Session, ps: seq<Packet>)
    requires forall p :: p in ps ==> Readable(p)
    ensures G.HandleChunk(s, Views(ps)) == G.HandleEach(s, Views(ps))
    decreases |ps|
  {
    hide G.HandlePacket, G.Throws;
    if ps != [] {
      assert Readable(ps[0]);
      assert Views(ps)[0] == JsView(ps[0]) && Views(ps)[1..] == Views(ps[1..]);
      ChunkWithoutThrow(G.HandlePacket(s, JsView(ps[0])), ps[1..]);
    }
  }
}
