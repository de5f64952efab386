/** Cache agreement over whole runs of the system: every step of the server keeps every mirror right. */
module MirrorRuns {
  import opened Basics
  import opened Wire
  import opened Credentials
  import opened GroupModel
  import opened Payload
  import opened GroupStore
  import opened UserModel
  import opened ServerModel
  import opened ServerSafety
  import opened ServerRuns
  import opened ChatSystem
  import opened ResponseMatching
  import opened CacheAgreement
  import G = Gateway

  /** A caught-up session mirrors the user online on its socket. */
  ghost predicate Mirrors(w: World, fd: int, s: G.Session) {
    match NameByFd(w.users, fd)
    case None => true
    case Some(user) => s.loggedIn && CString(s.username) == user && Agrees(s.groups, w.groups, user)
  }

  // ---------- conditions on a step ----------

  predicate Leaves(e: Event) {
    e.HungUp? || e.packet.kind == MSG_LOGOUT
  }

  /**
   The login takes a free socket; a departure changes at most 64 surviving groups and all its events
   fit; the event of a new group fits and the identifier counter has not come round.
   */
  predicate Calm(env: Env, w: World, e: Event) {
    && (e.Arrived? && e.packet.kind == MSG_LOGIN
        && LoginUser(env.digest, w.users, CString(e.packet.sender), CString(e.packet.data), e.fd).result == Ok ==>
          NameByFd(w.users, e.fd).None?)
    && (Leaves(e) && NameByFd(w.users, e.fd).Some? ==>
          var changed := Changed(w.groups, NameByFd(w.users, e.fd).value);
          |changed| <= GROUP_EVENT_MAX_CHANGES && forall i :: 0 <= i < |changed| ==> FitsAsLeft(changed[i]))
    && (e.Arrived? && e.packet.kind == MSG_GROUP_CREATE && NewGroup(w, e.fd, e.packet).Some? ==>
          FitsAsCreated(NewGroup(w, e.fd, e.packet).value) && w.issued <= IDS)
  }

  predicate FitsAsCreated(g: Group) {
    Build(EventFields(EVENT_CREATED, g)).Some?
  }

  /** The group that a create request makes, if it is accepted. */
  function NewGroup(w: World, fd: int, p: Packet): Option<Group> {
    match CheckCreate(w, fd, p)
    case Refused(_) => None
    case Wanted(user, name, members) =>
      match CreateGroup(w.groups, w.issued, user, name, members)
      case CreateFailed(_) => None
      case Created(g) => Some(g)
  }

  /** What is known about the session of a step's own socket: the answer, if any, meets its entry. */
  predicate Awaits(e: Event, s: G.Session) {
    e.Arrived? && s.pending != [] && UpOk(G.Request(e.packet, Some(s.pending[0])))
  }

  // ---------- users and sockets ----------

  lemma NameByFdIs(us: seq<User>, fd: int, i: nat)
    requires i < |us| && At(us[i], fd) && OneEach(us)
    ensures FindFd(us, fd) == i && NameByFd(us, fd) == Some(us[i].name)
  {
    var k := FindFd(us, fd);
    assert us[k].online && us[i].online;
  }

  lemma NewUserElsewhere(us: seq<User>, u: User, fd: int)
    requires !u.online
    ensures NameByFd([u] + us, fd) == NameByFd(us, fd)
    ensures OneEach(us) ==> OneEach([u] + us)
  {
    FindFdIs([u] + us, fd, FindFd(us, fd) + 1);
    forall i, j | 0 <= i < j < |[u] + us| && ([u] + us)[i].online && ([u] + us)[j].online && OneEach(us)
      ensures ([u] + us)[i].fd != ([u] + us)[j].fd
    {
      assert us[i - 1].fd != us[j - 1].fd;
    }
  }

  lemma LoginElsewhere(us: seq<User>, i: nat, fd: int, to: int)
    requires i < |us| && !us[i].online && OneEach(us) && NameByFd(us, fd).None?
    ensures var vs := us[i := us[i].(online := true, fd := fd)];
            OneEach(vs) && NameByFd(vs, to) == if to == fd then Some(us[i].name) else NameByFd(us, to)
  {
    var vs := us[i := us[i].(online := true, fd := fd)];
    assert forall k :: 0 <= k < |us| ==> !At(us[k], fd);
    assert OneEach(vs);
    if to == fd {
      NameByFdIs(vs, fd, i);
    } else {
      FindFdIs(vs, to, FindFd(us, to));
    }
  }

  lemma LogoutElsewhere(us: seq<User>, fd: int, to: int)
    requires OneEach(us)
    ensures OneEach(LogoutFd(us, fd)) && NameByFd(LogoutFd(us, fd), to) == if to == fd then None else NameByFd(us, to)
  {
    var vs, i := LogoutFd(us, fd), FindFd(us, fd);
    if to == fd {
      FindFdIs(vs, to, |vs|);
    } else {
      FindFdIs(vs, to, FindFd(us, to));
    }
  }

  // ---------- steps that say nothing about groups ----------

  predicate QuietLog(log: seq<Attempt>) {
    forall i :: 0 <= i < |log| ==> PlainKind(log[i].packet.kind) || IsAnswer(log[i].packet.kind)
  }

  /** A step that changes no group and moves nobody, and what it sent. */
  predicate QuietStep(w: World, r: World, to: int) {
    && w.log <= r.log && QuietLog(r.log[|w.log|..]) && r.groups == w.groups
    && NameByFd(r.users, to) == NameByFd(w.users, to)
  }

  lemma QuietStepMirrors(w: World, r: World, fd: int, to: int, s: G.Session)
    requires QuietStep(w, r, to) && Mirrors(w, to, s)
    requires Answers(NewSends(w, r)) == [] || Answers(NewSends(w, r)) == [fd]
    requires to == fd && Answers(NewSends(w, r)) == [fd] ==>
               s.pending != [] && QuietAnswer(s.pending[0], PacketsTo(NewSends(w, r), to))
    ensures Mirrors(r, to, Absorb(s, PacketsTo(NewSends(w, r), to)))
  {
    hide NameByFd, Agrees;
    var log := NewSends(w, r);
    PacketsToWereSent(log, to);
    AnswersToOne(log, fd, to);
    QuietPackets(s, PacketsTo(log, to));
  }

  lemma {:induction false} SentKinds(log: seq<Attempt>, fd: int, kind: int)
    requires forall i :: 0 <= i < |log| ==> log[i].packet.kind != kind
    ensures forall i :: 0 <= i < |PacketsTo(log, fd)| ==> PacketsTo(log, fd)[i].kind != kind
  {
    PacketsToWereSent(log, fd);
  }

  lemma ReliableForward(env: Env, w: World, fd: int, p: Packet, done: Option<Reply>)
    requires Reliable(env) && PlainKind(p.kind)
    ensures var r := Forward(env, w, fd, p, done);
            r == w.(log := r.log) && w.log <= r.log && QuietLog(r.log[|w.log|..])
  {
    hide Cleanup;
    assert env.fate(|w.log|);
  }

  lemma ReliableFds(env: Env, w: World, fds: seq<int>, p: Packet)
    requires Reliable(env) && PlainKind(p.kind)
    ensures var r := SendToFds(env, w, fds, p);
            r == w.(log := r.log) && w.log <= r.log && QuietLog(r.log[|w.log|..])
    decreases |fds|
  {
    if fds != [] {
      assert env.fate(|w.log|);
      var w1 := SendOrCleanup(env, w, fds[0], p);
      assert w1 == Send(env, w, fds[0], p);
      ReliableFds(env, w1, fds[1..], p);
    }
  }

  /** Which requests leave all groups and all sockets as they are. */
  lemma QuietRequests(env: Env, w: World, fd: int, p: Packet, salt: Option<Salt>, appended: bool, to: int)
    requires Reliable(env) && Inv(w)
    requires p.kind != MSG_GROUP_MESSAGE && p.kind != MSG_GROUP_LIST
    requires p.kind == MSG_LOGIN ==> LoginUser(env.digest, w.users, CString(p.sender), CString(p.data), fd).result != Ok
    requires p.kind == MSG_GROUP_CREATE ==> NewGroup(w, fd, p).None?
    requires p.kind == MSG_LOGOUT ==> NameByFd(w.users, fd).None?
    ensures var r := Process(env, w, fd, p, salt, appended);
            && QuietStep(w, r, to) && (OneEach(w.users) ==> OneEach(r.users))
            && (p.kind == MSG_LOGIN ==> forall i :: 0 <= i < |NewSends(w, r)| ==> NewSends(w, r)[i].packet.kind != MSG_OK)
  {
    hide Inv, Register, LoginUser, OnlineText, CheckCreate, CreateGroup, HandleGroupMessage, HandleGroupList,
      Cleanup, SendToFds, OnlineFds, SendOrCleanup, Forward, CString, Fixed, NameByFd, OneEach, OnlineCount;
    var r := Process(env, w, fd, p, salt, appended);
    if p.kind == MSG_REGISTER {
      var name, password := CString(p.sender), CString(p.data);
      var g := Register(env.digest, w.users, w.storage, name, password, salt, appended);
      RegisteredIsPrintable(env.digest, w.users, w.storage, name, password, salt, appended);
      if g.users != w.users {
        assert g.users == [g.users[0]] + w.users;
        NewUserElsewhere(w.users, g.users[0], to);
      }
    } else if p.kind == MSG_LOGIN {
      FailedLogin(env, w, CString(p.sender), CString(p.data), fd);
    } else if p.kind == MSG_PRIVATE || p.kind == MSG_FILE_BEGIN || p.kind == MSG_FILE_CHUNK || p.kind == MSG_FILE_END {
      ReliableForward(env, w, fd, p, Some(PrivateSent));
      ReliableForward(env, w, fd, p, Some(FileSent));
      ReliableForward(env, w, fd, p, None);
    } else if p.kind == MSG_GROUP {
      ReliableFds(env, w, OnlineFds(w.users, fd, MAX_ONLINE_SNAPSHOT), p);
    } else if p.kind == MSG_LOGOUT {
      NobodyLeaves(env, w, fd);
    }
  }

  lemma FailedLogin(env: Env, w: World, name: Bytes, password: Bytes, fd: int)
    ensures var r := LoginUser(env.digest, w.users, name, password, fd);
            r.result != Ok ==> r.users == w.users
  {
  }

  // ---------- steps that do ----------

  lemma GroupOfUser(w: World, g: Group, user: Bytes, cache: map<Bytes, G.GroupInfo>)
    requires g in w.groups && user in g.members && Agrees(cache, w.groups, user)
    ensures g.id in cache && cache[g.id] == G.InfoOf(g)
  {
    var i :| 0 <= i < |w.groups| && w.groups[i] == g;
  }

  lemma MessageCopyIsQuiet(g: Group, user: Bytes, text: Bytes, groups: map<Bytes, G.GroupInfo>)
    requires ValidGroup(g) && NUL !in text && Build(MessageFields(g, text)).Some?
    requires g.id in groups && groups[g.id] == G.InfoOf(g)
    ensures QuietFor(PackedPacket(MSG_GROUP_MESSAGE, user, g.id, Build(MessageFields(g, text)).value), groups)
  {
    hide Build, DecodeMessage, MessageFields;
    ValidGroupNulFree(g);
    MessageRoundTrip(g, text);
    var m := GroupText(g.id, g.name, text);
    assert groups[g.id].(id := g.id, name := g.name) == groups[g.id];
    assert G.Named(groups, m) == groups[g.id := groups[g.id]] == groups;
  }

  /** What an accepted group message sends to one socket when no send fails. */
  lemma MessagePackets(env: Env, w: World, fd: int, p: Packet, to: int)
    requires Reliable(env) && Inv(w) && OneEach(w.users) && MessageAccepted(w, fd, p)
    ensures var r := HandleGroupMessage(env, w, fd, p);
            var g := FindGroup(w.groups, CString(p.receiver)).group;
            var copy := PackedPacket(MSG_GROUP_MESSAGE, NameByFd(w.users, fd).value, g.id,
                                    Build(MessageFields(g, PacketText(p).value)).value);
            && r == w.(log := r.log) && w.log <= r.log && ValidGroup(g) && g in w.groups
            && forall i :: 0 <= i < |PacketsTo(NewSends(w, r), to)| ==>
                 var q := PacketsTo(NewSends(w, r), to)[i];
                 (q == copy && NameByFd(w.users, to).Some? && NameByFd(w.users, to).value in g.members) || IsAnswer(q.kind)
  {
    hide Inv, Build, FindGroup, MemberIndex, NameByFd, MessageFields, HandleGroupMessage, PacketsTo, PacketText, CString, Fixed,
      SendEach, ValidGroup;
    var g := FindGroup(w.groups, CString(p.receiver)).group;
    var copy := PackedPacket(MSG_GROUP_MESSAGE, NameByFd(w.users, fd).value, g.id,
                            Build(MessageFields(g, PacketText(p).value)).value);
    FoundGroupIsStored(w.groups, CString(p.receiver));
    StoredGroupIsValid(w, g);
    InvParts(w);
    AcceptedRun(env, w, fd, p);
    assert ValidMembers(g.members) by { MembersOfValid(g); }
    var answer := CopiesThenAnswer(env, w, fd, g.members, copy, to);
  }

  lemma AcceptedRun(env: Env, w: World, fd: int, p: Packet)
    requires MessageAccepted(w, fd, p)
    ensures var g := FindGroup(w.groups, CString(p.receiver)).group;
            var copy := PackedPacket(MSG_GROUP_MESSAGE, NameByFd(w.users, fd).value, g.id,
                                    Build(MessageFields(g, PacketText(p).value)).value);
            HandleGroupMessage(env, w, fd, p) == Answer(env, SendEach(env, w, g.members, copy), fd, MSG_OK, GroupMessageSent)
  {
    hide Build, FindGroup, MemberIndex, NameByFd, MessageFields, PacketText, CString, Fixed, SendEach, Answer;
  }

  lemma LogSuffix<T>(log: seq<T>, a: seq<T>, b: seq<T>)
    ensures log <= log + a + b && (log + a + b)[|log|..] == a + b
  {
    Regroup(log, a, b);
  }

  lemma PacketsToOne(a: Attempt, fd: int)
    ensures PacketsTo([a], fd) == if a.fd == fd then [a.packet] else []
  {
    assert [a][1..] == [];
  }

  /** A round of sends without failures and an answer, as each socket sees it. */
  lemma CopiesThenAnswer(env: Env, w: World, fd: int, members: seq<Bytes>, copy: Packet, to: int) returns (answer: Packet)
    requires Reliable(env) && UsersOk(w.users) && OneEach(w.users) && ValidMembers(members)
    ensures var r := Answer(env, SendEach(env, w, members, copy), fd, MSG_OK, GroupMessageSent);
            && r == w.(log := r.log) && w.log <= r.log && answer.kind == MSG_OK
            && PacketsTo(NewSends(w, r), to)
               == (if NameByFd(w.users, to).Some? && NameByFd(w.users, to).value in members then [copy] else [])
                  + if to == fd then [answer] else []
  {
    hide UsersOk, OneEach, ValidMembers, SendEach, Copies, NameByFd, PackedPacket, PacketsTo;
    answer := TextPacket(MSG_OK, env.wording(GroupMessageSent));
    ReliableCopies(env, w, members, copy);
    CopiesReachMembers(w.users, members, copy, to);
    var copies := Copies(w.users, members, copy);
    var last := [Attempt(fd, answer, Delivers(env, SendEach(env, w, members, copy)))];
    LogSuffix(w.log, copies, last);
    PacketsToAppend(copies, last, to);
    PacketsToOne(last[0], to);
  }

  lemma RefusedMessage(env: Env, w: World, fd: int, p: Packet, to: int)
    requires !MessageAccepted(w, fd, p)
    ensures var r := HandleGroupMessage(env, w, fd, p);
            && r == w.(log := r.log) && w.log <= r.log
            && forall i :: 0 <= i < |PacketsTo(NewSends(w, r), to)| ==> IsAnswer(PacketsTo(NewSends(w, r), to)[i].kind)
  {
    hide Build, FindGroup, MemberIndex, SendEach, NameByFd;
    PacketsToWereSent(NewSends(w, HandleGroupMessage(env, w, fd, p)), to);
  }

  /** A group message changes no mirror. */
  lemma MessageMirrors(env: Env, w: World, fd: int, p: Packet, to: int, s: G.Session)
    requires Reliable(env) && Inv(w) && OneEach(w.users) && Mirrors(w, to, s)
    requires to == fd ==> s.pending != [] && s.pending[0].Status? && s.pending[0].action != G.DoLogout
    ensures var r := HandleGroupMessage(env, w, fd, p);
            r == w.(log := r.log) && w.log <= r.log && Mirrors(r, to, Absorb(s, PacketsTo(NewSends(w, r), to)))
  {
    hide Inv, Build, FindGroup, MessageAccepted, HandleGroupMessage, NameByFd, Agrees, DecodeMessage, MessageFields;
    var r := HandleGroupMessage(env, w, fd, p);
    MessageAnswers(env, w, fd, p);
    var ps := PacketsTo(NewSends(w, r), to);
    AnswersToOne(NewSends(w, r), fd, to);
    if MessageAccepted(w, fd, p) {
      MessagePackets(env, w, fd, p, to);
      AcceptedParts(w, fd, p);
      var g := FindGroup(w.groups, CString(p.receiver)).group;
      var receiver := NameByFd(w.users, to);
      if receiver.Some? && receiver.value in g.members {
        GroupOfUser(w, g, receiver.value, s.groups);
        MessageCopyIsQuiet(g, NameByFd(w.users, fd).value, PacketText(p).value, s.groups);
      }
    } else {
      RefusedMessage(env, w, fd, p, to);
    }
    QuietPackets(s, ps);
  }

  lemma AcceptedParts(w: World, fd: int, p: Packet)
    requires MessageAccepted(w, fd, p)
    ensures NameByFd(w.users, fd).Some? && PacketText(p).Some? && NUL !in PacketText(p).value
    ensures FindGroup(w.groups, CString(p.receiver)).Found?
    ensures Build(MessageFields(FindGroup(w.groups, CString(p.receiver)).group, PacketText(p).value)).Some?
  {
  }

  lemma InvParts(w: World)
    requires Inv(w)
    ensures UsersOk(w.users) && AllValid(w.groups) && (w.issued <= IDS + 1 ==> DistinctIds(w.groups))
  {
  }

  ghost predicate HasId(gs: seq<Group>, id: Bytes) {
    exists i :: 0 <= i < |gs| && gs[i].id == id
  }

  lemma {:induction false} ByIdAgrees(gs: seq<Group>)
    requires DistinctIds(gs)
    ensures forall i :: 0 <= i < |gs| ==> gs[i].id in G.ById(gs) && G.ById(gs)[gs[i].id] == G.InfoOf(gs[i])
    ensures forall id :: id in G.ById(gs) ==> HasId(gs, id)
  {
    if gs != [] {
      var before := gs[..|gs| - 1];
      ByIdAgrees(before);
      forall id | HasId(before, id) ensures HasId(gs, id) {
        var i :| 0 <= i < |before| && before[i].id == id;
        assert gs[i].id == id;
      }
      assert HasId(gs, gs[|gs| - 1].id);
    }
  }

  lemma {:induction false} GroupsOfMeaning(gs: seq<Group>, user: Bytes)
    ensures forall g :: g in GroupsOf(gs, user) <==> g in gs && user in g.members
    ensures DistinctIds(gs) ==> DistinctIds(GroupsOf(gs, user))
    ensures AllValid(gs) ==> AllValid(GroupsOf(gs, user))
  {
    hide ValidGroup;
    if gs != [] {
      GroupsOfMeaning(gs[1..], user);
      var rest := GroupsOf(gs[1..], user);
      if user in gs[0].members {
        assert GroupsOf(gs, user) == [gs[0]] + rest;
        if DistinctIds(gs) {
          forall j | 0 <= j < |rest| ensures rest[j].id != gs[0].id {
            assert rest[j] in gs[1..];
          }
        }
      } else {
        assert GroupsOf(gs, user) == rest;
      }
    }
  }

  lemma ListedAgrees(gs: seq<Group>, user: Bytes)
    requires DistinctIds(gs)
    ensures Agrees(G.ById(GroupsOf(gs, user)), gs, user)
  {
    hide G.ById, GroupsOf;
    var mine := GroupsOf(gs, user);
    GroupsOfMeaning(gs, user);
    ByIdAgrees(mine);
    forall i | 0 <= i < |gs| && user in gs[i].members ensures gs[i].id in G.ById(mine) && G.ById(mine)[gs[i].id] == G.InfoOf(gs[i]) {
      assert gs[i] in mine;
      var k :| 0 <= k < |mine| && mine[k] == gs[i];
    }
    forall id | id in G.ById(mine) ensures exists i :: 0 <= i < |gs| && gs[i].id == id && user in gs[i].members {
      assert HasId(mine, id);
      var k :| 0 <= k < |mine| && mine[k].id == id;
      assert mine[k] in gs;
      var i :| 0 <= i < |gs| && gs[i] == mine[k];
    }
  }

  /** A list sets the mirror of the user who asked, and nobody else's. */
  lemma ListMirrors(env: Env, w: World, fd: int, to: int, s: G.Session)
    requires Reliable(env) && Inv(w) && w.issued <= IDS + 1 && Mirrors(w, to, s)
    requires to == fd ==> !ListRefused(w, fd)
    ensures var r := HandleGroupList(env, w, fd);
            r == w.(log := r.log) && w.log <= r.log && Mirrors(r, to, Absorb(s, PacketsTo(NewSends(w, r), to)))
  {
    hide Inv, Build, Join, Agrees, ListOf, GroupsOf, G.ById, ListFields;
    InvParts(w);
    assert env.fate(|w.log|);
    var r := HandleGroupList(env, w, fd);
    var log := NewSends(w, r);
    assert |log| == 1 && log[0].fd == fd && log == [log[0]] && log[1..] == [];
    assert PacketsTo(log, to) == if to == fd then [log[0].packet] else [];
    assert PacketsTo(log, to)[|PacketsTo(log, to)|..] == [];
    if to == fd {
      var ps := PacketsTo(log, to);
      assert ps[1..] == [];
      var user := NameByFd(w.users, fd).value;
      var mine := GroupsOf(w.groups, user);
      BuildMeaning(ListFields(mine));
      var payload := Build(ListFields(mine)).value;
      GroupsOfMeaning(w.groups, user);
      forall i | 0 <= i < |mine| ensures NulFreeGroup(mine[i]) {
        ValidGroupNulFree(mine[i]);
      }
      ListRoundTrip(mine);
      ListedAgrees(w.groups, user);
      assert Absorb(s, ps) == Absorb(Receive(s, ps[0]), []) == Receive(s, ps[0]);
    }
  }

  lemma CreatedPacket(s: G.Session, g: Group)
    requires FitsAsCreated(g) && ValidGroup(g)
    ensures Announced(s, Receive(s, CreatedEvent(g)), s.groups[g.id := G.InfoOf(g)])
  {
    hide Build, EventFields, DecodeEvent;
    ValidGroupNulFree(g);
    EventRoundTrip(EVENT_CREATED, g);
  }

  lemma OneMoreGroupAgrees(cache: map<Bytes, G.GroupInfo>, gs: seq<Group>, g: Group, user: Bytes)
    requires Agrees(cache, gs, user) && DistinctIds([g] + gs)
    ensures user in g.members ==> Agrees(cache[g.id := G.InfoOf(g)], [g] + gs, user)
    ensures user !in g.members ==> Agrees(cache, [g] + gs, user)
  {
    hide G.InfoOf;
    var all, after := [g] + gs, if user in g.members then cache[g.id := G.InfoOf(g)] else cache;
    forall i | 0 <= i < |all| && user in all[i].members ensures all[i].id in after && after[all[i].id] == G.InfoOf(all[i]) {
      assert all[i] == if i == 0 then g else gs[i - 1];
      assert i > 0 ==> all[0].id != all[i].id;
    }
    forall id | id in after ensures exists i :: 0 <= i < |all| && all[i].id == id && user in all[i].members {
      if id in cache {
        var i :| 0 <= i < |gs| && gs[i].id == id && user in gs[i].members;
        assert all[i + 1] == gs[i];
      } else {
        assert all[0] == g;
      }
    }
  }

  function CreatedEvent(g: Group): Packet
    requires FitsAsCreated(g)
  {
    PackedPacket(MSG_GROUP_EVENT, SERVER_NAME, g.id, Build(EventFields(EVENT_CREATED, g)).value)
  }

  /** What a successful creation does, and what it sends to each socket. */
  lemma CreateSends(env: Env, w: World, fd: int, p: Packet, to: int) returns (answer: Packet)
    requires Reliable(env) && Inv(w) && OneEach(w.users) && w.issued <= IDS
    requires NewGroup(w, fd, p).Some? && FitsAsCreated(NewGroup(w, fd, p).value)
    ensures var r, g := HandleGroupCreate(env, w, fd, p), NewGroup(w, fd, p).value;
            && r.users == w.users && r.groups == [g] + w.groups && r.issued == w.issued + 1
            && w.log <= r.log && answer.kind == MSG_OK && ValidGroup(g) && DistinctIds(r.groups)
            && PacketsTo(NewSends(w, r), to)
               == (if NameByFd(w.users, to).Some? && NameByFd(w.users, to).value in g.members then [CreatedEvent(g)] else [])
                  + (if to == fd then [answer] else [])
  {
    hide Inv, Build, EventFields, SendEach, Copies, NameByFd, CheckCreate, CreateGroup, PackedPacket, CString;
    var r := HandleGroupCreate(env, w, fd, p);
    var wanted := CheckCreate(w, fd, p);
    var g := NewGroup(w, fd, p).value;
    var w1 := w.(groups := [g] + w.groups, issued := w.issued + 1);
    WantedIsOnline(w, fd, p);
    CreationKeepsInv(w, wanted.user, wanted.name, wanted.members);
    InvParts(w1);
    assert ValidGroup(w1.groups[0]);
    var packet := CreatedEvent(g);
    ReliableCopies(env, w1, g.members, packet);
    CopiesReachMembers(w.users, g.members, packet, to);
    var copies := Copies(w.users, g.members, packet);
    var w2 := PushEvent(env, w1, EVENT_CREATED, g);
    assert w2 == SendEach(env, w1, g.members, packet);
    answer := TextPacket(MSG_OK, env.wording(GroupCreated));
    var last := Attempt(fd, answer, Delivers(env, w2));
    assert r == Answer(env, w2, fd, MSG_OK, GroupCreated);
    LogSuffix(w.log, copies, [last]);
    PacketsToAppend(copies, [last], to);
    PacketsToOne(last, to);
  }

  /** A new group enters the mirrors of exactly its members. */
  lemma CreateMirrors(env: Env, w: World, fd: int, p: Packet, to: int, s: G.Session)
    requires Reliable(env) && Inv(w) && OneEach(w.users) && w.issued <= IDS && Mirrors(w, to, s)
    requires NewGroup(w, fd, p).Some? && FitsAsCreated(NewGroup(w, fd, p).value)
    requires to == fd ==> s.pending != [] && s.pending[0].Status? && s.pending[0].action != G.DoLogout
    ensures var r := HandleGroupCreate(env, w, fd, p);
            && r.users == w.users && r.groups == [NewGroup(w, fd, p).value] + w.groups && r.issued == w.issued + 1
            && w.log <= r.log && Mirrors(r, to, Absorb(s, PacketsTo(NewSends(w, r), to)))
  {
    hide Inv, NameByFd, Agrees, NewGroup, HandleGroupCreate, PacketsTo, NewSends, FitsAsCreated, CreatedEvent, Receive;
    var g := NewGroup(w, fd, p).value;
    var answer := CreateSends(env, w, fd, p, to);
    var receiver := NameByFd(w.users, to);
    if receiver.Some? {
      var packet := CreatedEvent(g);
      var first, last := if receiver.value in g.members then [packet] else [], if to == fd then [answer] else [];
      AbsorbAppend(s, first, last);
      OneMoreGroupAgrees(s.groups, w.groups, g, receiver.value);
      if receiver.value in g.members {
        assert [packet][1..] == [];
        assert Absorb(s, [packet]) == Absorb(Receive(s, packet), []) == Receive(s, packet);
        CreatedPacket(s, g);
      }
      AnswerLast(Absorb(s, first), last);
    }
  }

  lemma AnswerLast(s: G.Session, last: seq<Packet>)
    requires last == [] || (|last| == 1 && IsAnswer(last[0].kind) && s.pending != [] && s.pending[0].Status?
                            && s.pending[0].action != G.DoLogout)
    ensures SameMirror(s, Absorb(s, last))
  {
    if last != [] { assert last[1..] == []; }
    QuietPackets(s, last);
  }

  /** The changes of a departure that are pushed. */
  function Pushed(gs: seq<Group>, name: Bytes): seq<Group> {
    var all := Changed(gs, name);
    all[..Min(|all|, GROUP_EVENT_MAX_CHANGES)]
  }

  /** Every surviving group that the two shared fits in an event and is among the first 64 that change. */
  predicate AllAnnounced(gs: seq<Group>, name: Bytes, user: Bytes) {
    var all := Changed(gs, name);
    forall i :: 0 <= i < |all| && user in all[i].members ==> i < GROUP_EVENT_MAX_CHANGES && FitsAsLeft(all[i])
  }

  /** A departure without failed sends, as one batch of events. */
  lemma ReliableCleanup(env: Env, w: World, fd: int)
    requires ReliableFrom(env, |w.log|) && NameByFd(w.users, fd).Some?
    ensures var name := NameByFd(w.users, fd).value;
            Cleanup(env, w, fd)
            == World(LogoutFd(w.users, fd), w.storage, RemoveMember(w.groups, name), w.issued,
                     w.log + LeftCopies(LogoutFd(w.users, fd), Pushed(w.groups, name)))
  {
    var name := NameByFd(w.users, fd).value;
    ReliableLeft(env, w.(groups := RemoveMember(w.groups, name), users := LogoutFd(w.users, fd)), Pushed(w.groups, name));
  }

  lemma PushedFacts(gs: seq<Group>, name: Bytes)
    requires AllValid(gs) && ValidName(name) && DistinctIds(gs)
    ensures DistinctIds(Pushed(gs, name))
    ensures forall c :: c in Pushed(gs, name) ==> c in Changed(gs, name) && ValidGroup(c) && ValidMembers(c.members)
  {
    ChangedDistinct(gs, name);
    forall c | c in Pushed(gs, name) ensures c in Changed(gs, name) && ValidGroup(c) && ValidMembers(c.members) {
      var i :| 0 <= i < |Pushed(gs, name)| && Pushed(gs, name)[i] == c;
      assert Changed(gs, name)[i] == c;
      MembersOfValid(c);
    }
  }

  /** Being told of all shared surviving groups is for each of them to fit and be among those pushed. */
  lemma ToldOfAll(gs: seq<Group>, name: Bytes, user: Bytes)
    requires AllValid(gs) && ValidName(name) && DistinctIds(gs)
    ensures (forall c :: c in Changed(gs, name) && user in c.members ==> c in ToldOf(Pushed(gs, name), user))
            <==> AllAnnounced(gs, name, user)
  {
    hide FitsAsLeft, Changed, ValidGroup;
    var all, pushed := Changed(gs, name), Pushed(gs, name);
    ChangedDistinct(gs, name);
    ToldOfMeaning(pushed, user);
    if AllAnnounced(gs, name, user) {
      forall c | c in all && user in c.members ensures c in ToldOf(pushed, user) {
        var i :| 0 <= i < |all| && all[i] == c;
        assert pushed[i] == c;
      }
    }
    if forall c :: c in all && user in c.members ==> c in ToldOf(pushed, user) {
      forall i | 0 <= i < |all| && user in all[i].members ensures i < GROUP_EVENT_MAX_CHANGES && FitsAsLeft(all[i]) {
        assert all[i] in pushed;
        var k :| 0 <= k < |pushed| && pushed[k] == all[i];
        assert all[k].id == all[i].id;
      }
    }
  }

  /**
   After a departure without failed sends, the mirror of anybody else is right exactly when each
   surviving group the two shared fits in an event and is among the first 64 that change.
   */
  lemma DepartureMirrors(env: Env, w: World, fd: int, to: int, s: G.Session)
    requires Reliable(env) && Inv(w) && OneEach(w.users) && w.issued <= IDS + 1
    requires NameByFd(w.users, fd).Some? && to != fd && Mirrors(w, to, s)
    ensures var r, name, user := Cleanup(env, w, fd), NameByFd(w.users, fd).value, NameByFd(w.users, to);
            && w.log <= r.log
            && (Mirrors(r, to, Absorb(s, PacketsTo(NewSends(w, r), to)))
                <==> (user.Some? ==> AllAnnounced(w.groups, name, user.value)))
  {
    hide Inv, FitsAsLeft, LeftCopies, Agrees, ValidGroup, NameByFd, AllAnnounced, Pushed;
    var name := NameByFd(w.users, fd).value;
    var pushed := Pushed(w.groups, name);
    var us := LogoutFd(w.users, fd);
    DepartureKeepsInv(w, fd);
    InvParts(w);
    InvParts(w.(groups := RemoveMember(w.groups, name), users := us));
    ReliableCleanup(env, w, fd);
    LogoutElsewhere(w.users, fd, to);
    PushedFacts(w.groups, name);
    LeftReachesMembers(us, pushed, to);
    LeftCarries(us, pushed);
    assert NewSends(w, Cleanup(env, w, fd)) == LeftCopies(us, pushed);
    if NameByFd(w.users, to).Some? {
      var user := NameByFd(w.users, to).value;
      var told := ToldOf(pushed, user);
      ToldOfMeaning(pushed, user);
      ToldOfAll(w.groups, name, user);
      OtherUser(w.users, fd, to);
      forall i | 0 <= i < |told| ensures FitsAsLeft(told[i]) && ValidGroup(told[i]) { assert told[i] in pushed; }
      AbsorbLeft(s, told);
      MirrorAfterDeparture(s.groups, w.groups, name, user, told);
    }
  }

  lemma MembersOfValid(g: Group)
    requires ValidGroup(g)
    ensures ValidMembers(g.members)
  {
  }

  lemma OtherUser(us: seq<User>, fd: int, to: int)
    requires UsersOk(us) && fd != to && NameByFd(us, fd).Some? && NameByFd(us, to).Some?
    ensures NameByFd(us, fd).value != NameByFd(us, to).value
  {
    var i, j := FindFd(us, fd), FindFd(us, to);
    assert i != j;
  }

  // ---------- one step of the server ----------

  lemma NewLoginMirrors(env: Env, w: World, fd: int, p: Packet, to: int, s: G.Session)
    requires Inv(w) && OneEach(w.users) && Mirrors(w, to, s) && NameByFd(w.users, fd).None?
    requires LoginUser(env.digest, w.users, CString(p.sender), CString(p.data), fd).result == Ok
    requires to == fd ==> s.pending != [] && s.pending[0].Auth? && s.pending[0].auth == G.DoLogin
                          && CString(s.pending[0].username) == CString(p.sender)
    ensures var r := HandleLogin(env, w, fd, p);
            && OneEach(r.users) && w.log <= r.log && Mirrors(r, to, Absorb(s, PacketsTo(NewSends(w, r), to)))
            && (forall k :: 0 <= k < |r.users| && r.users[k].online ==> r.users[k].fd == fd || At(w.users[k], r.users[k].fd))
  {
    hide Inv, VerifyPassword;
    InvParts(w);
    var name := CString(p.sender);
    var i := FindUser(w.users, name);
    LoginElsewhere(w.users, i, fd, to);
    var r := HandleLogin(env, w, fd, p);
    var log := NewSends(w, r);
    assert log == [log[0]] && log[1..] == [];
    assert PacketsTo(log, to) == if to == fd then [log[0].packet] else [];
    if to == fd {
      var ps := PacketsTo(log, to);
      assert ps[1..] == [];
      assert Absorb(s, ps) == Absorb(Receive(s, ps[0]), []) == Receive(s, ps[0]);
      OfflineInNoGroup(w, name);
    }
  }

  lemma OfflineInNoGroup(w: World, name: Bytes)
    requires Inv(w) && !IsOnline(w.users, name)
    ensures forall i :: 0 <= i < |w.groups| ==> name !in w.groups[i].members
    ensures Agrees(map[], w.groups, name)
  {
  }

  /** An arrival that is quiet, up to the answer a logout gets from a socket nobody is on. */
  lemma QuietArrivalMirrors(env: Env, w: World, fd: int, p: Packet, salt: Option<Salt>, appended: bool, to: int, s: G.Session)
    requires Reliable(env) && Inv(w) && Mirrors(w, to, s)
    requires p.kind != MSG_GROUP_MESSAGE && p.kind != MSG_GROUP_LIST
    requires p.kind == MSG_LOGIN ==> LoginUser(env.digest, w.users, CString(p.sender), CString(p.data), fd).result != Ok
    requires p.kind == MSG_GROUP_CREATE ==> NewGroup(w, fd, p).None?
    requires p.kind == MSG_LOGOUT ==> NameByFd(w.users, fd).None? && to != fd
    requires to == fd ==> Awaits(Arrived(fd, p, salt, appended), s)
                          || (UntrackedKind(p.kind) && !UntrackedAnswered(env, w, fd, p))
    ensures var r := Process(env, w, fd, p, salt, appended);
            w.log <= r.log && Mirrors(r, to, Absorb(s, PacketsTo(NewSends(w, r), to)))
  {
    hide Inv, Mirrors, Process, NameByFd, Absorb, PacketsTo, LoginUser, NewGroup, CString;
    var r := Process(env, w, fd, p, salt, appended);
    assert Step(env, w, Arrived(fd, p, salt, appended)) == r;
    ServerAnswers(env, w, Arrived(fd, p, salt, appended));
    QuietRequests(env, w, fd, p, salt, appended, to);
    SentKindsIf(NewSends(w, r), to, MSG_OK);
    QuietStepMirrors(w, r, fd, to, s);
  }

  /** What a calm step grants, by its kind. */
  lemma CalmFacts(env: Env, w: World, e: Event)
    requires Calm(env, w, e)
    ensures Leaves(e) && NameByFd(w.users, e.fd).Some? ==>
              var changed := Changed(w.groups, NameByFd(w.users, e.fd).value);
              |changed| <= GROUP_EVENT_MAX_CHANGES && forall i :: 0 <= i < |changed| ==> FitsAsLeft(changed[i])
    ensures Leaves(e) && NameByFd(w.users, e.fd).Some? ==>
              forall user :: AllAnnounced(w.groups, NameByFd(w.users, e.fd).value, user)
    ensures e.Arrived? && e.packet.kind == MSG_LOGIN
            && LoginUser(env.digest, w.users, CString(e.packet.sender), CString(e.packet.data), e.fd).result == Ok ==>
              NameByFd(w.users, e.fd).None?
    ensures e.Arrived? && e.packet.kind == MSG_GROUP_CREATE && NewGroup(w, e.fd, e.packet).Some? ==>
              FitsAsCreated(NewGroup(w, e.fd, e.packet).value) && w.issued <= IDS
  {
    hide NameByFd, LoginUser, NewGroup, FitsAsCreated, FitsAsLeft, CString, Changed;
  }

  /** The entry at the front of the queue, by the kind of the request that awaits it. */
  lemma AwaitFacts(env: Env, w: World, e: Event, s: G.Session)
    requires e.Arrived? && (Awaits(e, s) || (UntrackedKind(e.packet.kind) && !UntrackedAnswered(env, w, e.fd, e.packet)))
    ensures e.packet.kind == MSG_GROUP_MESSAGE || e.packet.kind == MSG_GROUP_CREATE ==>
              s.pending != [] && s.pending[0].Status? && s.pending[0].action != G.DoLogout
    ensures e.packet.kind == MSG_GROUP_LIST ==> !ListRefused(w, e.fd)
    ensures e.packet.kind == MSG_LOGIN ==>
              s.pending != [] && s.pending[0].Auth? && s.pending[0].auth == G.DoLogin
              && CString(s.pending[0].username) == CString(e.packet.sender)
  {
    hide CString, ListRefused, GetFd;
  }

  lemma Dispatched(env: Env, w: World, fd: int, p: Packet, salt: Option<Salt>, appended: bool)
    ensures var r := Step(env, w, Arrived(fd, p, salt, appended));
            && r == Process(env, w, fd, p, salt, appended)
            && (p.kind == MSG_GROUP_MESSAGE ==> r == HandleGroupMessage(env, w, fd, p))
            && (p.kind == MSG_GROUP_LIST ==> r == HandleGroupList(env, w, fd))
            && (p.kind == MSG_GROUP_CREATE ==> r == HandleGroupCreate(env, w, fd, p))
            && (p.kind == MSG_LOGIN ==> r == HandleLogin(env, w, fd, p))
            && (p.kind == MSG_LOGOUT ==> r == Answer(env, Cleanup(env, w, fd), fd, MSG_OK, LoggedOut))
    ensures Step(env, w, HungUp(fd)) == Cleanup(env, w, fd)
  {
    hide HandleGroupMessage, HandleGroupList, HandleGroupCreate, HandleLogin, Cleanup, HandleRegister, HandleOnlineList, HandlePrivate,
      HandleFile, HandleGroup, Answer;
  }

  /**
   One step of the server keeps every mirror: whatever it sends to a socket brings the caught-up
   session there from the user's old groups to the new ones.
   */
  lemma StepMirrors(env: Env, w: World, e: Event, to: int, s: G.Session)
    requires Reliable(env) && Inv(w) && w.issued <= IDS + 1 && OneEach(w.users) && Calm(env, w, e)
    requires Mirrors(w, to, s)
    requires to == e.fd ==> Awaits(e, s) || (e.Arrived? && UntrackedKind(e.packet.kind)
                                             && !UntrackedAnswered(env, w, e.fd, e.packet))
    ensures var r := Step(env, w, e);
            w.log <= r.log && Mirrors(r, to, Absorb(s, PacketsTo(NewSends(w, r), to)))
  {
    hide *;
    CalmFacts(env, w, e);
    var r := Step(env, w, e);
    match e
    case HungUp(fd) =>
      LeavesOn(e, s);
      HangUpMirrors(env, w, fd, to, s);
    case Arrived(fd, p, salt, appended) =>
      Dispatched(env, w, fd, p, salt, appended);
      LeavesOn(e, s);
      if to == fd { AwaitFacts(env, w, e, s); }
      if p.kind == MSG_GROUP_MESSAGE {
        MessageMirrors(env, w, fd, p, to, s);
      } else if p.kind == MSG_GROUP_LIST {
        ListMirrors(env, w, fd, to, s);
      } else if p.kind == MSG_GROUP_CREATE && NewGroup(w, fd, p).Some? {
        CreateMirrors(env, w, fd, p, to, s);
      } else if p.kind == MSG_LOGIN && LoginUser(env.digest, w.users, CString(p.sender), CString(p.data), fd).result == Ok {
        NewLoginMirrors(env, w, fd, p, to, s);
      } else if p.kind == MSG_LOGOUT && NameByFd(w.users, fd).Some? {
        LogoutMirrors(env, w, fd, to, s);
      } else if p.kind == MSG_LOGOUT && to == fd {
        NobodyLogsOut(env, w, fd);
        NobodyMirrors(r, to, Absorb(s, PacketsTo(NewSends(w, r), to)));
      } else {
        QuietArrivalMirrors(env, w, fd, p, salt, appended, to, s);
      }
  }

  lemma LeavesOn(e: Event, s: G.Session)
    ensures Leaves(e) <==> e.HungUp? || e.packet.kind == MSG_LOGOUT
    ensures e.HungUp? ==> !Awaits(e, s)
  {
  }

  lemma HangUpMirrors(env: Env, w: World, fd: int, to: int, s: G.Session)
    requires Reliable(env) && Inv(w) && w.issued <= IDS + 1 && OneEach(w.users) && Calm(env, w, HungUp(fd)) && Mirrors(w, to, s)
    requires to != fd
    ensures var r := Step(env, w, HungUp(fd));
            w.log <= r.log && Mirrors(r, to, Absorb(s, PacketsTo(NewSends(w, r), to)))
  {
    hide Inv, Mirrors, NameByFd, Cleanup, Absorb, PacketsTo, Calm, AllAnnounced, FitsAsLeft;
    CalmFacts(env, w, HungUp(fd));
    if NameByFd(w.users, fd).Some? {
      DepartureMirrors(env, w, fd, to, s);
    } else {
      NobodyLeaves(env, w, fd);
      QuietStepMirrors(w, Step(env, w, HungUp(fd)), fd, to, s);
    }
  }

  lemma NobodyLogsOut(env: Env, w: World, fd: int)
    requires NameByFd(w.users, fd).None?
    ensures var r := Answer(env, Cleanup(env, w, fd), fd, MSG_OK, LoggedOut);
            r.users == w.users && w.log <= r.log
  {
    hide NameByFd, TextPacket;
    NobodyLeaves(env, w, fd);
  }

  lemma SentKindsIf(log: seq<Attempt>, fd: int, kind: int)
    ensures (forall i :: 0 <= i < |log| ==> log[i].packet.kind != kind) ==>
              forall i :: 0 <= i < |PacketsTo(log, fd)| ==> PacketsTo(log, fd)[i].kind != kind
  {
    if forall i :: 0 <= i < |log| ==> log[i].packet.kind != kind { SentKinds(log, fd, kind); }
  }

  lemma NobodyMirrors(w: World, fd: int, s: G.Session)
    requires NameByFd(w.users, fd).None?
    ensures Mirrors(w, fd, s)
  {
  }

  lemma NobodyLeaves(env: Env, w: World, fd: int)
    requires NameByFd(w.users, fd).None?
    ensures Cleanup(env, w, fd) == w && QuietLog([])
    ensures w.log <= w.log && NewSends(w, w) == []
  {
  }

  lemma LogoutMirrors(env: Env, w: World, fd: int, to: int, s: G.Session)
    requires Reliable(env) && Inv(w) && OneEach(w.users) && w.issued <= IDS + 1
    requires NameByFd(w.users, fd).Some? && Mirrors(w, to, s)
    requires var changed := Changed(w.groups, NameByFd(w.users, fd).value);
             |changed| <= GROUP_EVENT_MAX_CHANGES && forall i :: 0 <= i < |changed| ==> FitsAsLeft(changed[i])
    ensures var r := Answer(env, Cleanup(env, w, fd), fd, MSG_OK, LoggedOut);
            w.log <= r.log && Mirrors(r, to, Absorb(s, PacketsTo(NewSends(w, r), to)))
  {
    hide Inv, Mirrors, Agrees, NameByFd, Cleanup, FitsAsLeft, Absorb;
    var w1 := Cleanup(env, w, fd);
    var r := Answer(env, w1, fd, MSG_OK, LoggedOut);
    ReliableCleanup(env, w, fd);
    LogoutElsewhere(w.users, fd, to);
    if to == fd {
      NobodyMirrors(r, to, Absorb(s, PacketsTo(NewSends(w, r), to)));
    } else {
      DepartureMirrors(env, w, fd, to, s);
      var answer := [r.log[|w1.log|]];
      assert NewSends(w, r) == NewSends(w, w1) + answer;
      PacketsToAppend(NewSends(w, w1), answer, to);
      assert answer[1..] == [] && PacketsTo(answer, to) == [];
      assert PacketsTo(NewSends(w, w1), to) + [] == PacketsTo(NewSends(w, w1), to);
      SameGroupsMirrors(w1, r, to, Absorb(s, PacketsTo(NewSends(w, w1), to)));
    }
  }

  lemma SameGroupsMirrors(w: World, r: World, fd: int, s: G.Session)
    requires Mirrors(w, fd, s) && r.users == w.users && r.groups == w.groups
    ensures Mirrors(r, fd, s)
  {
  }

  // ---------- sockets in use ----------

  /** Everybody online is on a connection, one user each. */
  predicate Seated(us: seq<User>, fds: set<int>) {
    OneEach(us) && forall k :: 0 <= k < |us| && us[k].online ==> us[k].fd in fds
  }

  lemma StepSeats(env: Env, w: World, e: Event, fds: set<int>)
    requires Reliable(env) && Inv(w) && Calm(env, w, e) && Seated(w.users, fds) && e.fd in fds
    ensures Seated(Step(env, w, e).users, if e.HungUp? then fds - {e.fd} else fds)
  {
    hide Inv, Register, LoginUser, OnlineText, CheckCreate, CreateGroup, NameByFd, Cleanup,
      HandleGroupMessage, HandleGroupCreate, HandleGroupList, FitsAsCreated, FitsAsLeft, Mirrors;
    match e
    case HungUp(fd) => CleanupSeats(env, w, fd, fds);
    case Arrived(fd, p, salt, appended) =>
      if p.kind == MSG_GROUP_MESSAGE {
        MessageUsers(env, w, fd, p);
      } else if p.kind == MSG_GROUP_LIST {
        ListUsers(env, w, fd);
      } else if p.kind == MSG_GROUP_CREATE {
        CreateUsers(env, w, fd, p);
      } else if p.kind == MSG_LOGIN {
        LoginSeats(env, w, CString(p.sender), CString(p.data), fd, fds);
      } else if p.kind == MSG_LOGOUT {
        CleanupSeats(env, w, fd, fds);
      } else if p.kind == MSG_REGISTER {
        RegisterSeats(env, w, CString(p.sender), CString(p.data), salt, appended, fds);
      } else if p.kind == MSG_PRIVATE || p.kind == MSG_FILE_BEGIN || p.kind == MSG_FILE_CHUNK || p.kind == MSG_FILE_END {
        ReliableForward(env, w, fd, p, Some(PrivateSent));
        ReliableForward(env, w, fd, p, Some(FileSent));
        ReliableForward(env, w, fd, p, None);
      } else if p.kind == MSG_GROUP {
        ReliableFds(env, w, OnlineFds(w.users, fd, MAX_ONLINE_SNAPSHOT), p);
      }
  }

  lemma MessageUsers(env: Env, w: World, fd: int, p: Packet)
    requires Reliable(env)
    ensures HandleGroupMessage(env, w, fd, p).users == w.users
  {
    hide Build, FindGroup, MemberIndex;
    if MessageAccepted(w, fd, p) {
      var g := FindGroup(w.groups, CString(p.receiver)).group;
      var copy := PackedPacket(MSG_GROUP_MESSAGE, NameByFd(w.users, fd).value, g.id,
                              Build(MessageFields(g, PacketText(p).value)).value);
      ReliableSendEach(env, w, g.members, copy);
    }
  }

  lemma ListUsers(env: Env, w: World, fd: int)
    requires Reliable(env)
    ensures HandleGroupList(env, w, fd).users == w.users
  {
    hide Build;
    assert env.fate(|w.log|);
  }

  lemma CreateUsers(env: Env, w: World, fd: int, p: Packet)
    requires Reliable(env)
    ensures HandleGroupCreate(env, w, fd, p).users == w.users
  {
    hide Build, CheckCreate, CreateGroup;
    var g := NewGroup(w, fd, p);
    if g.Some? && FitsAsCreated(g.value) {
      ReliableSendEach(env, w.(groups := [g.value] + w.groups, issued := w.issued + 1), g.value.members,
        PackedPacket(MSG_GROUP_EVENT, SERVER_NAME, g.value.id, Build(EventFields(EVENT_CREATED, g.value)).value));
    }
  }

  lemma CleanupSeats(env: Env, w: World, fd: int, fds: set<int>)
    requires Reliable(env) && Seated(w.users, fds)
    ensures Seated(Cleanup(env, w, fd).users, fds - {fd})
  {
    ReliableCleanupUsers(env, w, fd);
    LogoutElsewhere(w.users, fd, fd);
    var us := LogoutFd(w.users, fd);
    assert forall k :: 0 <= k < |us| ==> !At(us[k], fd);
  }

  lemma LoginSeats(env: Env, w: World, name: Bytes, password: Bytes, fd: int, fds: set<int>)
    requires Seated(w.users, fds) && fd in fds
    requires LoginUser(env.digest, w.users, name, password, fd).result == Ok ==> NameByFd(w.users, fd).None?
    ensures Seated(LoginUser(env.digest, w.users, name, password, fd).users, fds)
  {
    if LoginUser(env.digest, w.users, name, password, fd).result == Ok {
      LoginElsewhere(w.users, FindUser(w.users, name), fd, fd);
    } else {
      FailedLogin(env, w, name, password, fd);
    }
  }

  lemma RegisterSeats(env: Env, w: World, name: Bytes, password: Bytes, salt: Option<Salt>, appended: bool, fds: set<int>)
    requires Seated(w.users, fds)
    ensures Seated(Register(env.digest, w.users, w.storage, name, password, salt, appended).users, fds)
  {
    hide Register;
    var r := Register(env.digest, w.users, w.storage, name, password, salt, appended);
    RegisteredIsPrintable(env.digest, w.users, w.storage, name, password, salt, appended);
    if r.users != w.users {
      NewUserElsewhere(w.users, r.users[0], 0);
      assert r.users == [r.users[0]] + w.users;
      forall k | 0 <= k < |r.users| && r.users[k].online ensures r.users[k].fd in fds {
        assert r.users[k] == w.users[k - 1];
      }
    }
  }

  lemma StepIssued(env: Env, w: World, e: Event)
    requires Inv(w) && Calm(env, w, e) && w.issued <= IDS + 1
    ensures Step(env, w, e).issued <= IDS + 1
  {
    hide Inv, Register, LoginUser, OnlineText, CheckCreate, CreateGroup, Build, FindGroup, MemberIndex, NameByFd, FitsAsLeft,
      HandleGroupMessage, HandleGroupCreate, HandleGroupList, Cleanup, SendToFds, OnlineFds, CString, Fixed, Zeros;
    match e
    case HungUp(fd) => CleanupCascades(env, w, fd);
    case Arrived(fd, p, salt, appended) =>
      if p.kind == MSG_GROUP_MESSAGE {
        IssuedByMessage(env, w, fd, p);
      } else if p.kind == MSG_GROUP_LIST {
        IssuedByList(env, w, fd);
      } else if p.kind == MSG_GROUP_CREATE {
        IssuedByCreate(env, w, fd, p);
      } else if p.kind == MSG_GROUP {
        IssuedByFds(env, w, OnlineFds(w.users, fd, MAX_ONLINE_SNAPSHOT), p);
      } else {
        CleanupCascades(env, w, fd);
        match GetFd(w.users, CString(p.receiver))
        case NoFd(_) =>
        case Fd(target) =>
          InvIgnoresLog(w, Send(env, w, target, p));
          CleanupCascades(env, Send(env, w, target, p), target);
      }
  }

  lemma IssuedByMessage(env: Env, w: World, fd: int, p: Packet)
    requires Inv(w)
    ensures HandleGroupMessage(env, w, fd, p).issued == w.issued
  {
    hide Inv, Build, FindGroup, MemberIndex;
    if MessageAccepted(w, fd, p) {
      var g := FindGroup(w.groups, CString(p.receiver)).group;
      var copy := PackedPacket(MSG_GROUP_MESSAGE, NameByFd(w.users, fd).value, g.id,
                              Build(MessageFields(g, PacketText(p).value)).value);
      SendEachCascades(env, w, g.members, copy, {MSG_GROUP_MESSAGE, MSG_GROUP_EVENT});
    }
  }

  lemma IssuedByList(env: Env, w: World, fd: int)
    requires Inv(w)
    ensures HandleGroupList(env, w, fd).issued == w.issued
  {
    hide Inv, Build;
    var r := HandleGroupList(env, w, fd);
    if r != w.(log := r.log) {
      var user := NameByFd(w.users, fd).value;
      var payload := Build(ListFields(GroupsOf(w.groups, user))).value;
      SendOrCleanupCascades(env, w, fd, PackedPacket(MSG_GROUP_LIST, SERVER_NAME, user, payload), {MSG_GROUP_LIST, MSG_GROUP_EVENT});
    }
  }

  lemma IssuedByCreate(env: Env, w: World, fd: int, p: Packet)
    requires Inv(w) && w.issued <= IDS + 1
    requires NewGroup(w, fd, p).Some? ==> w.issued <= IDS
    ensures HandleGroupCreate(env, w, fd, p).issued <= IDS + 1
  {
    hide Inv, CheckCreate, CreateGroup, Build;
    if NewGroup(w, fd, p).Some? {
      var wanted := CheckCreate(w, fd, p);
      WantedIsOnline(w, fd, p);
      CreationKeepsInv(w, wanted.user, wanted.name, wanted.members);
      var g := NewGroup(w, fd, p).value;
      PushEventCascades(env, w.(groups := [g] + w.groups, issued := w.issued + 1), EVENT_CREATED, g);
    }
  }

  lemma IssuedByFds(env: Env, w: World, fds: seq<int>, p: Packet)
    requires Inv(w)
    ensures SendToFds(env, w, fds, p).issued == w.issued
    decreases |fds|
  {
    hide Inv;
    if fds != [] {
      SendOrCleanupCascades(env, w, fds[0], p, {p.kind, MSG_GROUP_EVENT});
      IssuedByFds(env, SendOrCleanup(env, w, fds[0], p), fds[1..], p);
    }
  }

  // ---------- moves of the system ----------

  ghost predicate LinkMirrors(w: World, fd: int, l: Link) {
    l.Session? ==> Mirrors(w, fd, CaughtUp(l))
  }

  /** Everything that holds between the moves of a calm run. */
  ghost predicate Consistent(s: System) {
    && AllMatched(s) && s.world.issued <= IDS + 1
    && Seated(s.world.users, s.links.Keys)
    && forall fd :: fd in s.links ==> LinkMirrors(s.world, fd, s.links[fd])
  }

  /** The server event that a move amounts to. */
  function EventOf(s: System, m: Move): Option<Event>
    requires Enabled(s, m)
  {
    match m
    case Serve(fd, salt, appended) => Some(Arrived(fd, s.links[fd].up[0].packet, salt, appended))
    case Raw(fd, packet, salt, appended) => Some(Arrived(fd, packet, salt, appended))
    case Close(fd) => Some(HungUp(fd))
    case _ => None
  }

  ghost predicate CalmMove(env: Env, s: System, m: Move)
    requires Enabled(s, m)
  {
    Orderly(env, s, m) && (EventOf(s, m).Some? ==> Calm(env, s.world, EventOf(s, m).value))
  }

  /** The same mirror, with at least the same entries queued. */
  predicate Behind(s: G.Session, t: G.Session) {
    SameMirror(s, t) && s.pending <= t.pending
  }

  lemma BehindAnswer(s: G.Session, t: G.Session, p: Packet)
    requires Behind(s, t) && IsAnswer(p.kind) && s.pending != []
    ensures var s', t' := Receive(s, p), Receive(t, p);
            Behind(s', t') && s'.pending == s.pending[1..]
  {
    hide G.HandlePacket, CString;
    AnswerEffect(s, JsView(p));
    AnswerEffect(t, JsView(p));
    assert s.pending[0] == t.pending[0] && s.pending[1..] <= t.pending[1..];
  }

  /** An answer acts on the mirror by the first entry of the queue alone. */
  lemma AnswerEffect(s: G.Session, p: JsPacket)
    requires IsAnswer(p.kind) && s.pending != []
    ensures var r := G.HandlePacket(s, p);
            var leaves := s.pending[0] == G.Status(G.DoLogout);
            var enters := p.kind == MSG_OK && s.pending[0].Auth? && s.pending[0].auth == G.DoLogin;
            && r.pending == s.pending[1..]
            && r.loggedIn == (enters || (s.loggedIn && !leaves))
            && r.username == (if enters then s.pending[0].username else if leaves then [] else s.username)
            && r.groups == if enters || leaves then map[] else s.groups
  {
  }

  /** The groups after a packet that answers no request. */
  function GroupsAfter(groups: map<Bytes, G.GroupInfo>, p: JsPacket): map<Bytes, G.GroupInfo> {
    if p.kind == MSG_GROUP_LIST then (match ListOf(p.data) case None => groups case Some(gs) => G.ById(gs))
    else if p.kind == MSG_GROUP_EVENT then
      (match DecodeEvent(p.data) case None => groups case Some(e) => groups[e.group.id := G.InfoOf(e.group)])
    else if p.kind == MSG_GROUP_MESSAGE then
      (match DecodeMessage(p.data) case None => groups case Some(m) => G.Named(groups, m))
    else groups
  }

  lemma NoAnswerEffect(s: G.Session, p: JsPacket)
    requires !IsAnswer(p.kind)
    ensures var r := G.HandlePacket(s, p);
            r.pending == s.pending && r.loggedIn == s.loggedIn && r.username == s.username
            && r.groups == GroupsAfter(s.groups, p)
  {
    hide ListOf, DecodeEvent, DecodeMessage, G.DecodeFileBegin, G.ById, G.InfoOf, G.Named, Flatten;
  }

  lemma BehindOther(s: G.Session, t: G.Session, p: Packet)
    requires Behind(s, t) && !IsAnswer(p.kind)
    ensures var s', t' := Receive(s, p), Receive(t, p);
            Behind(s', t') && s'.pending == s.pending
  {
    hide G.HandlePacket, GroupsAfter, CString;
    NoAnswerEffect(s, JsView(p));
    NoAnswerEffect(t, JsView(p));
  }

  lemma BehindStep(s: G.Session, t: G.Session, p: Packet)
    requires Behind(s, t) && (IsAnswer(p.kind) ==> s.pending != [])
    ensures Behind(Receive(s, p), Receive(t, p))
    ensures |Receive(s, p).pending| == |s.pending| - (if IsAnswer(p.kind) then 1 else 0)
  {
    hide Receive;
    if IsAnswer(p.kind) { BehindAnswer(s, t, p); } else { BehindOther(s, t, p); }
  }

  lemma {:induction false} LaterEntriesDoNotMatter(s: G.Session, t: G.Session, ps: seq<Packet>)
    requires Behind(s, t) && AnswerCount(ps) <= |s.pending|
    ensures SameMirror(Absorb(s, ps), Absorb(t, ps))
    decreases |ps|
  {
    hide Receive;
    if ps != [] {
      BehindStep(s, t, ps[0]);
      LaterEntriesDoNotMatter(Receive(s, ps[0]), Receive(t, ps[0]), ps[1..]);
    }
  }

  lemma {:induction false} AnswersInFlight(down: seq<Down>)
    requires AllCaused(down)
    ensures AnswerCount(PacketsOf(down)) == |Causes(down)|
  {
    if down != [] {
      AllCausedCons(down);
      AnswersInFlight(down[1..]);
      assert PacketsOf(down)[1..] == PacketsOf(down[1..]);
    }
  }

  lemma ActKeepsMirror(s: G.Session, a: G.Action)
    requires s.open && G.Act(s, a).session.open
    ensures SameMirror(s, G.Act(s, a).session)
  {
    hide G.CreatePayload, G.FileBeginPayload, G.WithoutGroupMessages;
  }

  lemma BrowseMirrors(w: World, fd: int, l: Link, a: G.Action)
    requires l.Session? && Matched(l) && LinkMirrors(w, fd, l) && l.session.open && G.Act(l.session, a).session.open
    requires EncodeFails(l.session, a) ==> G.Status(G.SendGroupMessage) !in l.session.pending
    ensures forall up :: LinkMirrors(w, fd, Session(G.Act(l.session, a).session, up, l.down))
  {
    hide G.Act, Agrees, NameByFd;
    var t := G.Act(l.session, a).session;
    ActKeepsMirror(l.session, a);
    ActSends(l.session, a);
    if EncodeFails(l.session, a) { DroppedEntries(l.session.pending); }
    AnswersInFlight(l.down);
    LaterEntriesDoNotMatter(l.session, t, PacketsOf(l.down));
  }

  lemma DeliverMirrors(w: World, fd: int, l: Link)
    requires l.Session? && l.down != [] && LinkMirrors(w, fd, l)
    ensures LinkMirrors(w, fd, Session(Receive(l.session, l.down[0].packet), l.up, l.down[1..]))
  {
    hide Receive, Mirrors;
    assert PacketsOf(l.down)[0] == l.down[0].packet && PacketsOf(l.down)[1..] == PacketsOf(l.down[1..]);
  }

  /** The sends of a step carry every other connection's mirror over. */
  lemma ArrivalMirrors(env: Env, s: System, e: Event, tag: Option<G.Pending>, links: map<int, Link>, to: int)
    requires Reliable(env) && Inv(s.world) && s.world.issued <= IDS + 1 && OneEach(s.world.users)
    requires Calm(env, s.world, e) && to in links && Matched(links[to]) && LinkMirrors(s.world, to, links[to])
    requires to == e.fd && links[to].Session? ==>
               Awaits(e, CaughtUp(links[to]))
               || (e.Arrived? && UntrackedKind(e.packet.kind) && !UntrackedAnswered(env, s.world, e.fd, e.packet))
    ensures var r := Served(env, s, e.fd, e, tag, links);
            to in r.links && LinkMirrors(r.world, to, r.links[to])
  {
    hide Inv, Calm, Step, Mirrors, OneEach, UpOk, Receive;
    var w1 := Step(env, s.world, e);
    var log := NewSends(s.world, w1);
    ArriveEffect(links, log, e.fd, tag, to);
    var l' := ArriveAll(links, log, e.fd, tag)[to];
    if l'.Session? {
      var d := DownsTo(log, to, e.fd, tag);
      DownsAreThePackets(log, to, e.fd, tag);
      assert PacketsOf(links[to].down + d) == PacketsOf(links[to].down) + PacketsOf(d);
      AbsorbAppend(links[to].session, PacketsOf(links[to].down), PacketsOf(d));
      StepMirrors(env, s.world, e, to, CaughtUp(links[to]));
    }
  }

  /** The request the server takes up next meets its own entry at the head of the caught-up queue. */
  lemma HeadAwaits(l: Link, e: Event)
    requires l.Session? && Matched(l) && l.up != [] && e.Arrived? && e.packet == l.up[0].packet && l.up[0].tag.Some?
    ensures Awaits(e, CaughtUp(l))
  {
    hide Receive;
    CaughtUpQueue(l);
    assert UpOk(l.up[0]);
    assert l.up[0] == G.Request(e.packet, Some(l.up[0].tag.value));
  }

  lemma ServeMirrors(env: Env, s: System, fd: int, salt: Option<Salt>, appended: bool)
    requires Reliable(env) && Consistent(s) && Enabled(s, Serve(fd, salt, appended)) && CalmMove(env, s, Serve(fd, salt, appended))
    ensures var r := Next(env, s, Serve(fd, salt, appended));
            && r.links.Keys == s.links.Keys
            && forall to :: to in r.links ==> LinkMirrors(r.world, to, r.links[to])
  {
    hide Inv, Calm, Step, Mirrors, Matched, UpOk, Receive, Answered;
    var l := s.links[fd];
    var e := Arrived(fd, l.up[0].packet, salt, appended);
    var links := s.links[fd := l.(up := l.up[1..])];
    var r := Served(env, s, fd, e, l.up[0].tag, links);
    assert forall to :: to in links && to != fd ==> Matched(links[to]) && LinkMirrors(s.world, to, links[to]);
    ServeLinks(env, s, e, fd, l.up[0].tag, links);
    forall to | to in links ensures LinkMirrors(r.world, to, r.links[to]) {
      if to != fd {
        ArrivalMirrors(env, s, e, l.up[0].tag, links, to);
      } else {
        OwnMirror(env, s, e, l);
      }
    }
    assert r.links.Keys == links.Keys == s.links.Keys;
  }

  /** The mirror on the connection whose request is served. */
  lemma OwnMirror(env: Env, s: System, e: Event, l: Link)
    requires Reliable(env) && Consistent(s) && e.Arrived? && e.fd in s.links && s.links[e.fd] == l
    requires l.Session? && l.up != [] && e.packet == l.up[0].packet && Calm(env, s.world, e)
    requires l.up[0].tag.None? ==> !UntrackedAnswered(env, s.world, e.fd, e.packet)
    ensures var links := s.links[e.fd := l.(up := l.up[1..])];
            var r := Served(env, s, e.fd, e, l.up[0].tag, links);
            e.fd in r.links && LinkMirrors(r.world, e.fd, r.links[e.fd])
  {
    hide Inv, Calm, Step, Mirrors, Receive;
    var links := s.links[e.fd := l.(up := l.up[1..])];
    var log := NewSends(s.world, Step(env, s.world, e));
    ArriveEffect(links, log, e.fd, l.up[0].tag, e.fd);
    var l' := ArriveAll(links, log, e.fd, l.up[0].tag)[e.fd];
    if l'.Session? {
      var d := DownsTo(log, e.fd, e.fd, l.up[0].tag);
      DownsAreThePackets(log, e.fd, e.fd, l.up[0].tag);
      assert PacketsOf(l.down + d) == PacketsOf(l.down) + PacketsOf(d);
      AbsorbAppend(l.session, PacketsOf(l.down), PacketsOf(d));
      assert UpOk(l.up[0]);
      if l.up[0].tag.Some? { HeadAwaits(l, e); }
      StepMirrors(env, s.world, e, e.fd, CaughtUp(l));
    }
  }

  lemma OtherMirrors(env: Env, s: System, e: Event, links: map<int, Link>)
    requires Reliable(env) && Consistent(s) && Calm(env, s.world, e)
    requires forall to :: to in links ==> to in s.links && links[to] == s.links[to]
    requires e.fd in links ==> links[e.fd].Plain?
    ensures var r := Served(env, s, e.fd, e, None, links);
            && r.links.Keys == links.Keys
            && forall to :: to in r.links ==> LinkMirrors(r.world, to, r.links[to])
  {
    hide Inv, Calm, Step, Mirrors, Matched;
    ServeLinks(env, s, e, e.fd, None, links);
    forall to | to in links ensures LinkMirrors(Step(env, s.world, e), to, Served(env, s, e.fd, e, None, links).links[to]) {
      ArrivalMirrors(env, s, e, None, links, to);
    }
  }

  lemma FreshMirrors(w: World, fd: int, fds: set<int>)
    requires Seated(w.users, fds) && fd !in fds
    ensures LinkMirrors(w, fd, Session(G.FreshSession, [], [])) && LinkMirrors(w, fd, Plain)
  {
  }

  lemma PlainMirrors(w: World, fd: int)
    ensures LinkMirrors(w, fd, Plain)
  {
  }

  /** Every calm move keeps every mirror. */
  lemma MoveKeepsConsistent(env: Env, s: System, m: Move)
    requires Reliable(env) && Consistent(s) && Enabled(s, m) && CalmMove(env, s, m)
    ensures Consistent(Next(env, s, m))
  {
    hide Inv, Calm, Step, AllMatched, LinkMirrors, Orderly, G.Act, Receive, Seated, Served;
    MoveKeepsMatching(env, s, m);
    var r := Next(env, s, m);
    match m
    case Connect(fd, gateway) =>
      FreshMirrors(s.world, fd, s.links.Keys);
      MoreSeats(s.world.users, s.links.Keys, r.links.Keys);
    case Browse(fd, a) =>
      assert r.links.Keys == s.links.Keys;
      PlainMirrors(s.world, fd);
      BrowseStep(env, s, fd, a);
    case Deliver(fd) =>
      assert r.links.Keys == s.links.Keys;
      PlainMirrors(s.world, fd);
      DeliverMirrors(s.world, fd, s.links[fd]);
    case Serve(fd, salt, appended) =>
      var e := Arrived(fd, s.links[fd].up[0].packet, salt, appended);
      ServeMirrors(env, s, fd, salt, appended);
      ServedWorld(env, s, e, s.links[fd].up[0].tag, s.links[fd := s.links[fd].(up := s.links[fd].up[1..])]);
    case Raw(fd, packet, salt, appended) =>
      var e := Arrived(fd, packet, salt, appended);
      OtherMirrors(env, s, e, s.links);
      ServedWorld(env, s, e, None, s.links);
    case Close(fd) =>
      OtherMirrors(env, s, HungUp(fd), s.links - {fd});
      ServedWorld(env, s, HungUp(fd), None, s.links - {fd});
      assert (s.links - {fd}).Keys == s.links.Keys - {fd};
  }

  lemma MoreSeats(us: seq<User>, fds: set<int>, more: set<int>)
    requires Seated(us, fds) && fds <= more
    ensures Seated(us, more)
  {
  }

  lemma BrowseStep(env: Env, s: System, fd: int, a: G.Action)
    requires Consistent(s) && Enabled(s, Browse(fd, a)) && Orderly(env, s, Browse(fd, a))
    ensures G.Act(s.links[fd].session, a).session.open ==>
              LinkMirrors(s.world, fd, Next(env, s, Browse(fd, a)).links[fd])
  {
    hide Inv, LinkMirrors, G.Act, Matched;
    if G.Act(s.links[fd].session, a).session.open { BrowseMirrors(s.world, fd, s.links[fd], a); }
  }

  lemma ServedWorld(env: Env, s: System, e: Event, tag: Option<G.Pending>, links: map<int, Link>)
    requires Reliable(env) && Consistent(s) && Calm(env, s.world, e) && e.fd in s.links
    ensures var r := Served(env, s, e.fd, e, tag, links);
            && r.world.issued <= IDS + 1
            && Seated(r.world.users, if e.HungUp? then s.links.Keys - {e.fd} else s.links.Keys)
  {
    hide Inv, Calm, Step, Matched, LinkMirrors;
    StepSeats(env, s.world, e, s.links.Keys);
    StepIssued(env, s.world, e);
  }

  // ---------- runs ----------

  ghost predicate AllCalm(env: Env, s: System, moves: seq<Move>)
    decreases |moves|
  {
    moves == []
    || (if Enabled(s, moves[0]) then CalmMove(env, s, moves[0]) && AllCalm(env, Next(env, s, moves[0]), moves[1..])
        else AllCalm(env, s, moves[1..]))
  }

  lemma {:induction false} RunKeepsConsistent(env: Env, s: System, moves: seq<Move>)
    requires Reliable(env) && Consistent(s) && AllCalm(env, s, moves)
    ensures Consistent(RunSystem(env, s, moves))
    decreases |moves|
  {
    hide Consistent, CalmMove, Enabled, Next;
    if moves != [] {
      if Enabled(s, moves[0]) {
        MoveKeepsConsistent(env, s, moves[0]);
        RunKeepsConsistent(env, Next(env, s, moves[0]), moves[1..]);
      } else {
        RunKeepsConsistent(env, s, moves[1..]);
      }
    }
  }

  lemma {:induction false} LoadedOffline(us: seq<User>, file: Bytes)
    requires forall i :: 0 <= i < |us| ==> !us[i].online
    ensures forall i :: 0 <= i < |LoadFrom(us, file)| ==> !LoadFrom(us, file)[i].online
    decreases |file|
  {
    if file != [] { LoadedOffline(LoadLine(us, NextLine(file)), file[|NextLine(file)|..]); }
  }

  /**
   Cache agreement: over any calm run without failed sends, with any number of sessions and other
   clients, applying the packets in flight to the session of an online user gives a logged-in session
   of that user whose mirror is exactly the server's groups with that user in them: the same ids, names,
   creators and ordered members, and no others.
   */
  lemma CacheAgrees(env: Env, storage: Bytes, moves: seq<Move>, fd: int)
    requires Reliable(env) && AllCalm(env, Boot(storage), moves)
    requires var s := RunSystem(env, Boot(storage), moves); OnSession(s, fd) && NameByFd(s.world.users, fd).Some?
    ensures var s := RunSystem(env, Boot(storage), moves);
            var user, session := NameByFd(s.world.users, fd).value, CaughtUp(s.links[fd]);
            && session.loggedIn && CString(session.username) == user
            && (forall i :: 0 <= i < |s.world.groups| && user in s.world.groups[i].members ==>
                  s.world.groups[i].id in session.groups
                  && session.groups[s.world.groups[i].id] == G.InfoOf(s.world.groups[i]))
            && (forall id :: id in session.groups ==>
                  exists i :: 0 <= i < |s.world.groups| && s.world.groups[i].id == id && user in s.world.groups[i].members)
  {
    StartInv(storage);
    LoadedOffline([], storage);
    assert Consistent(Boot(storage));
    RunKeepsConsistent(env, Boot(storage), moves);
  }
}
