/** Delivery of group messages, runs without failed sends, and restarting. */
module ServerRuns {
  import opened Basics
  import opened Wire
  import opened Credentials
  import opened GroupModel
  import opened Payload
  import opened GroupStore
  import opened UserModel
  import opened ServerModel
  import opened ServerSafety

  // ---------- group messages ----------

  /** The sockets to which packets of one kind were sent, in order. */
  function SentTo(log: seq<Attempt>, kind: int): seq<int> {
    if log == [] then [] else (if log[0].packet.kind == kind then [log[0].fd] else []) + SentTo(log[1..], kind)
  }

  predicate AllCopiesOf(log: seq<Attempt>, p: Packet) {
    forall i :: 0 <= i < |log| && log[i].packet.kind == p.kind ==> log[i].packet == p
  }

  lemma {:induction false} SentToAppend(a: seq<Attempt>, b: seq<Attempt>, kind: int)
    ensures SentTo(a + b, kind) == SentTo(a, kind) + SentTo(b, kind)
  {
    if a == [] {
      assert a + b == b;
    } else {
      SentToAppend(a[1..], b, kind);
      assert (a + b)[0] == a[0] && (a + b)[1..] == a[1..] + b;
      Regroup(if a[0].packet.kind == kind then [a[0].fd] else [], SentTo(a[1..], kind), SentTo(b, kind));
    }
  }

  lemma {:induction false} SentToOthers(log: seq<Attempt>, kind: int)
    requires forall i :: 0 <= i < |log| ==> log[i].packet.kind != kind
    ensures SentTo(log, kind) == []
  {
    if log != [] { SentToOthers(log[1..], kind); }
  }

  /** The members who are still online when their turn comes. */
  function Reached(env: Env, w: World, members: seq<Bytes>, p: Packet): seq<Bytes>
    decreases |members|
  {
    if members == [] then []
    else (if IsOnline(w.users, members[0]) then [members[0]] else [])
         + Reached(env, SendToMember(env, w, members[0], p), members[1..], p)
  }

  /** Where the named users were connected. */
  function SocketsOf(us: seq<User>, names: seq<Bytes>): seq<int>
    requires NamesOnline(us, names)
  {
    if names == [] then [] else
      assert IsOnline(us, names[0]);
      [us[FindUser(us, names[0])].fd] + SocketsOf(us, names[1..])
  }

  lemma StillSameSocket(us: seq<User>, vs: seq<User>, name: Bytes)
    requires Shrinks(us, vs) && IsOnline(vs, name)
    ensures IsOnline(us, name) && us[FindUser(us, name)].fd == vs[FindUser(vs, name)].fd
  {
    SameFind(us, vs, name);
  }

  lemma {:induction false} SocketsStay(us: seq<User>, vs: seq<User>, names: seq<Bytes>)
    requires Shrinks(us, vs) && NamesOnline(vs, names)
    ensures NamesOnline(us, names)
    ensures SocketsOf(vs, names) == SocketsOf(us, names)
  {
    forall i | 0 <= i < |names| ensures IsOnline(us, names[i]) {
      StillSameSocket(us, vs, names[i]);
    }
    if names != [] {
      StillSameSocket(us, vs, names[0]);
      SocketsStay(us, vs, names[1..]);
    }
  }

  lemma OneTurn(env: Env, w: World, member: Bytes, p: Packet)
    requires Inv(w) && ValidName(member) && p.kind != MSG_GROUP_EVENT
    ensures var r := SendToMember(env, w, member, p);
            && Inv(r) && Shrinks(w.users, r.users) && w.log <= r.log
            && SentTo(r.log[|w.log|..], p.kind)
               == (if IsOnline(w.users, member) then [w.users[FindUser(w.users, member)].fd] else [])
            && AllCopiesOf(r.log[|w.log|..], p)
  {
    hide Inv;
    var r := SendToMember(env, w, member, p);
    SendToMemberCascades(env, w, member, p, {p.kind, MSG_GROUP_EVENT});
    if IsOnline(w.users, member) {
      var fd := w.users[FindUser(w.users, member)].fd;
      var w1 := Send(env, w, fd, p);
      var copy := Attempt(fd, p, Delivers(env, w));
      InvIgnoresLog(w, w1);
      CleanupCascades(env, w1, fd);
      var more := r.log[|w1.log|..];
      assert r.log[|w.log|..] == [copy] + more;
      SentToOthers(more, p.kind);
      assert [copy][1..] == [] && SentTo([copy], p.kind) == [fd];
      SentToAppend([copy], more, p.kind);
    }
  }

  /** Nobody is reached who was not a member online from the start. */
  lemma {:induction false} ReachedWereOnline(env: Env, w: World, members: seq<Bytes>, p: Packet)
    requires Inv(w) && forall i :: 0 <= i < |members| ==> ValidName(members[i])
    requires p.kind != MSG_GROUP_EVENT
    ensures forall m :: m in Reached(env, w, members, p) ==> m in members && IsOnline(w.users, m)
    decreases |members|
  {
    hide Inv, SendToMember, FindUser;
    if members != [] {
      var w1 := SendToMember(env, w, members[0], p);
      OneTurn(env, w, members[0], p);
      ReachedWereOnline(env, w1, members[1..], p);
      forall m | m in Reached(env, w1, members[1..], p) ensures IsOnline(w.users, m) {
        StillSameSocket(w.users, w1.users, m);
      }
    }
  }

  predicate NamesOnline(us: seq<User>, names: seq<Bytes>) {
    forall i :: 0 <= i < |names| ==> IsOnline(us, names[i])
  }

  /**
   Each member still online at its turn is sent exactly one copy, to the socket it had when the
   snapshot was taken; nobody else is sent one, whatever cascades the failed sends set off.
   */
  lemma {:induction false} ExactlyOneCopyEach(env: Env, w: World, members: seq<Bytes>, p: Packet)
    requires Inv(w) && p.kind != MSG_GROUP_EVENT && forall i :: 0 <= i < |members| ==> ValidName(members[i])
    ensures NamesOnline(w.users, Reached(env, w, members, p))
    ensures var r := SendEach(env, w, members, p);
            && Inv(r) && w.log <= r.log && AllCopiesOf(r.log[|w.log|..], p)
            && SentTo(r.log[|w.log|..], p.kind) == SocketsOf(w.users, Reached(env, w, members, p))
    decreases |members|
  {
    hide Inv, SendToMember, IsOnline, FindUser, Shrinks;
    ReachedWereOnline(env, w, members, p);
    if members != [] {
      var r, w1 := SendEach(env, w, members, p), SendToMember(env, w, members[0], p);
      OneTurn(env, w, members[0], p);
      ExactlyOneCopyEach(env, w1, members[1..], p);
      var later := Reached(env, w1, members[1..], p);
      SocketsStay(w.users, w1.users, later);
      JoinTurns(w.log, w1.log, r.log, p);
      ReachedSplit(w.users, members[0], later);
    }
  }

  lemma JoinTurns(a: seq<Attempt>, b: seq<Attempt>, c: seq<Attempt>, p: Packet)
    requires a <= b <= c && AllCopiesOf(b[|a|..], p) && AllCopiesOf(c[|b|..], p)
    ensures AllCopiesOf(c[|a|..], p) && SentTo(c[|a|..], p.kind) == SentTo(b[|a|..], p.kind) + SentTo(c[|b|..], p.kind)
  {
    assert c[|a|..] == b[|a|..] + c[|b|..];
    SentToAppend(b[|a|..], c[|b|..], p.kind);
  }

  lemma ReachedSplit(us: seq<User>, member: Bytes, later: seq<Bytes>)
    requires NamesOnline(us, later)
    ensures IsOnline(us, member) ==>
              NamesOnline(us, [member] + later)
              && SocketsOf(us, [member] + later) == [us[FindUser(us, member)].fd] + SocketsOf(us, later)
    ensures [] + later == later
  {
    assert ([member] + later)[1..] == later;
  }

  /** When does a group message go out, and which group and text does it carry? */
  predicate MessageAccepted(w: World, fd: int, p: Packet) {
    && NameByFd(w.users, fd).Some? && CString(p.receiver) != []
    && PacketText(p).Some? && PacketText(p).value != []
    && FindGroup(w.groups, CString(p.receiver)).Found?
    && MemberIndex(FindGroup(w.groups, CString(p.receiver)).group.members, NameByFd(w.users, fd).value) >= 0
    && Build(MessageFields(FindGroup(w.groups, CString(p.receiver)).group, PacketText(p).value)).Some?
  }

  lemma {:induction false} FoundGroupIsStored(gs: seq<Group>, id: Bytes)
    requires FindGroup(gs, id).Found?
    ensures FindGroup(gs, id).group in gs && FindGroup(gs, id).group.id == id
  {
    if gs[0].id != id { FoundGroupIsStored(gs[1..], id); }
  }

  /**
   Group message delivery: an accepted message goes, as one copy each, to exactly the members still
   online at their turn, and each copy reads back as the group's id and name and the text; a message
   that is not accepted reaches nobody.
   */
  lemma GroupMessageDelivery(env: Env, w: World, fd: int, p: Packet)
    requires Inv(w)
    ensures w.log <= HandleGroupMessage(env, w, fd, p).log
    ensures var sent := HandleGroupMessage(env, w, fd, p).log[|w.log|..];
            if MessageAccepted(w, fd, p) then
              var g := FindGroup(w.groups, CString(p.receiver)).group;
              var user, text := NameByFd(w.users, fd).value, PacketText(p).value;
              var payload := Build(MessageFields(g, text)).value;
              var copy := PackedPacket(MSG_GROUP_MESSAGE, user, g.id, payload);
              && user in g.members
              && DecodeMessage(payload) == Some(GroupText(g.id, g.name, text))
              && (forall m :: m in Reached(env, w, g.members, copy) ==> m in g.members)
              && NamesOnline(w.users, Reached(env, w, g.members, copy))
              && SentTo(sent, MSG_GROUP_MESSAGE) == SocketsOf(w.users, Reached(env, w, g.members, copy))
              && AllCopiesOf(sent, copy)
            else SentTo(sent, MSG_GROUP_MESSAGE) == []
  {
    hide Inv, Build, FindGroup, MemberIndex, SendEach, Reached, CString, Fixed, DecodeMessage, MessageFields, ValidGroup;
    var r := HandleGroupMessage(env, w, fd, p);
    if MessageAccepted(w, fd, p) {
      var g := FindGroup(w.groups, CString(p.receiver)).group;
      var user, text := NameByFd(w.users, fd).value, PacketText(p).value;
      var copy := PackedPacket(MSG_GROUP_MESSAGE, user, g.id, Build(MessageFields(g, text)).value);
      FoundGroupIsStored(w.groups, CString(p.receiver));
      assert ValidGroup(g) by { StoredGroupIsValid(w, g); }
      ValidGroupNulFree(g);
      MessageRoundTrip(g, text);
      MembersAreValid(g);
      ExactlyOneCopyEach(env, w, g.members, copy);
      ReachedWereOnline(env, w, g.members, copy);
      var w1 := SendEach(env, w, g.members, copy);
      var answer := [Attempt(fd, TextPacket(MSG_OK, env.wording(GroupMessageSent)), Delivers(env, w1))];
      assert r.log[|w.log|..] == w1.log[|w.log|..] + answer;
      SentToOthers(answer, MSG_GROUP_MESSAGE);
      SentToAppend(w1.log[|w.log|..], answer, MSG_GROUP_MESSAGE);
    } else {
      SentToOthers(r.log[|w.log|..], MSG_GROUP_MESSAGE);
    }
  }

  lemma MembersAreValid(g: Group)
    requires ValidGroup(g)
    ensures forall i :: 0 <= i < |g.members| ==> ValidName(g.members[i])
    ensures forall name :: MemberIndex(g.members, name) >= 0 ==> name in g.members
  {
  }

  lemma StoredGroupIsValid(w: World, g: Group)
    requires Inv(w) && g in w.groups
    ensures ValidGroup(g)
  {
  }

  // ---------- runs without failed sends ----------

  ghost predicate Reliable(env: Env) {
    forall k: nat :: env.fate(k)
  }

  /** No send fails from the given one on. */
  ghost predicate ReliableFrom(env: Env, n: nat) {
    forall k: nat :: n <= k ==> env.fate(k)
  }

  /** The `m` sends from the given one on succeed. */
  ghost predicate ReliableFor(env: Env, n: nat, m: nat) {
    forall k: nat :: n <= k < n + m ==> env.fate(k)
  }

  lemma ReliableSendEach(env: Env, w: World, members: seq<Bytes>, p: Packet)
    requires Reliable(env)
    ensures var r := SendEach(env, w, members, p);
            r == w.(log := r.log) && w.log <= r.log
    decreases |members|
  {
    if members != [] {
      assert env.fate(|w.log|);
      var w1 := SendToMember(env, w, members[0], p);
      if GetFd(w.users, members[0]).Fd? {
        assert w1 == SendOrCleanup(env, w, GetFd(w.users, members[0]).fd, p) == Send(env, w, GetFd(w.users, members[0]).fd, p);
      }
      ReliableSendEach(env, w1, members[1..], p);
    }
  }

  lemma ReliablePush(env: Env, w: World, changes: seq<Group>)
    requires Reliable(env)
    ensures var r := PushChanges(env, w, changes);
            r == w.(log := r.log) && w.log <= r.log
    decreases |changes|
  {
    if changes != [] {
      var w1 := PushEvent(env, w, EVENT_MEMBER_LEFT, changes[0]);
      if Build(EventFields(EVENT_MEMBER_LEFT, changes[0])).Some? {
        ReliableSendEach(env, w, changes[0].members,
          PackedPacket(MSG_GROUP_EVENT, SERVER_NAME, changes[0].id, Build(EventFields(EVENT_MEMBER_LEFT, changes[0])).value));
      }
      ReliablePush(env, w1, changes[1..]);
    }
  }

  // ---------- departures ----------

  lemma ReliableCleanupUsers(env: Env, w: World, fd: int)
    requires Reliable(env)
    ensures Cleanup(env, w, fd).users == LogoutFd(w.users, fd)
  {
    match NameByFd(w.users, fd)
    case None =>
    case Some(name) =>
      var all := Changed(w.groups, name);
      ReliablePush(env, w.(groups := RemoveMember(w.groups, name), users := LogoutFd(w.users, fd)),
                   all[..Min(|all|, GROUP_EVENT_MAX_CHANGES)]);
  }

  predicate FitsAsLeft(g: Group) {
    Build(EventFields(EVENT_MEMBER_LEFT, g)).Some?
  }

  /** The event that tells of a departure. */
  function LeftPacket(g: Group): Packet
    requires FitsAsLeft(g)
  {
    PackedPacket(MSG_GROUP_EVENT, SERVER_NAME, g.id, Build(EventFields(EVENT_MEMBER_LEFT, g)).value)
  }

  lemma OnlineTurn(env: Env, w: World, member: Bytes, p: Packet)
    requires GetFd(w.users, member).Fd?
    ensures var fd := GetFd(w.users, member).fd;
            SendToMember(env, w, member, p)
            == if Delivers(env, w) then Send(env, w, fd, p) else Cleanup(env, Send(env, w, fd, p), fd)
  {
    hide Cleanup, GetFd;
    assert SendToMember(env, w, member, p) == SendOrCleanup(env, w, GetFd(w.users, member).fd, p);
  }

  lemma SendInTurn(env: Env, w: World, m: Bytes, n: Bytes, p: Packet)
    ensures SendEach(env, w, [m], p) == SendToMember(env, w, m, p)
    ensures SendEach(env, w, [m, n], p) == SendToMember(env, SendToMember(env, w, m, p), n, p)
  {
    hide SendToMember;
    assert [m][1..] == [] && [m, n][1..] == [n] && [n][1..] == [];
    assert SendEach(env, w, [m], p) == SendEach(env, SendToMember(env, w, m, p), [], p);
    var w1 := SendToMember(env, w, m, p);
    assert SendEach(env, w1, [n], p) == SendEach(env, SendToMember(env, w1, n, p), [], p);
  }

  /** The only group loses its first member. */
  lemma OnlyGroupDeparture(env: Env, w: World, i: nat, fd: int, g: Group, rest: seq<Bytes>)
    requires FindFd(w.users, fd) == i < |w.users| && ValidName(w.users[i].name)
    requires w.groups == [g] && g.members == [w.users[i].name] + rest && rest != []
    requires FitsAsLeft(g.(members := rest))
    ensures var g' := g.(members := rest);
            Cleanup(env, w, fd)
            == SendEach(env, w.(groups := [g'], users := SetOffline(w.users, i)), rest, LeftPacket(g'))
  {
    hide SendEach, PushChanges, PushEvent, FitsAsLeft;
    var g', name := g.(members := rest), w.users[i].name;
    FirstLeaves(g, name, rest);
    var w1 := w.(groups := [g'], users := SetOffline(w.users, i));
    assert NameByFd(w.users, fd) == Some(name) && LogoutFd(w.users, fd) == w1.users;
    assert [g'][..1] == [g'] && |Changed(w.groups, name)| == 1;
    assert Cleanup(env, w, fd) == PushChanges(env, w1, [g']);
    PushOne(env, w1, g');
  }

  lemma FirstIsFound(g: Group, name: Bytes, rest: seq<Bytes>)
    requires g.members == [name] + rest && ValidName(name)
    ensures MemberIndex(g.members, name) == 0 && Without(g, 0) == g.(members := rest)
  {
    assert RemoveAt(g.members, 0) == rest;
  }

  lemma FirstLeaves(g: Group, name: Bytes, rest: seq<Bytes>)
    requires g.members == [name] + rest && rest != [] && ValidName(name)
    ensures RemoveMember([g], name) == [g.(members := rest)] && Changed([g], name) == [g.(members := rest)]
  {
    FirstIsFound(g, name, rest);
    hide MemberIndex, Without;
    assert [g][1..] == [] && RemoveMember([], name) == [] && Changed([], name) == [];
    assert RemoveMember([g], name) == [Without(g, 0)] + [] && Changed([g], name) == [Without(g, 0)] + [];
  }

  /** Pushing a change is one round of sends. */
  lemma PushRound(env: Env, w: World, g: Group, rest: seq<Group>)
    requires FitsAsLeft(g)
    ensures PushChanges(env, w, [g] + rest) == PushChanges(env, SendEach(env, w, g.members, LeftPacket(g)), rest)
  {
    hide SendEach, Build, EventFields;
    assert ([g] + rest)[0] == g && ([g] + rest)[1..] == rest;
    assert PushEvent(env, w, EVENT_MEMBER_LEFT, g) == SendEach(env, w, g.members, LeftPacket(g));
  }

  lemma PushOne(env: Env, w: World, g: Group)
    requires FitsAsLeft(g)
    ensures PushChanges(env, w, [g]) == SendEach(env, w, g.members, LeftPacket(g))
  {
    hide SendEach, Build, EventFields, FitsAsLeft, LeftPacket;
    assert [g] + [] == [g];
    PushRound(env, w, g, []);
  }

  // ---------- restarting ----------

  /** A registration that leaves a user in memory whose line does not reach the file. */
  predicate LeavesUnsaved(w: World, e: Event) {
    && e.Arrived? && e.packet.kind == MSG_REGISTER && !e.appended
    && AddsUser(w.users, CString(e.packet.sender), CString(e.packet.data), e.salt)
  }

  function UnsavedIn(env: Env, w: World, es: seq<Event>): nat
    decreases |es|
  {
    if es == [] then 0
    else (if LeavesUnsaved(w, es[0]) then 1 else 0) + UnsavedIn(env, Step(env, w, es[0]), es[1..])
  }

  /** The users before, possibly behind one new one, with the same names, salts and hashes. */
  predicate SameRecords(us: seq<User>, vs: seq<User>) {
    |us| == |vs| && forall i :: 0 <= i < |us| ==> vs[i].name == us[i].name && vs[i].salt == us[i].salt && vs[i].hash == us[i].hash
  }

  lemma StepRecords(env: Env, w: World, e: Event)
    requires Inv(w)
    ensures var r := Step(env, w, e);
            if e.Arrived? && e.packet.kind == MSG_REGISTER then
              var g := Register(env.digest, w.users, w.storage, CString(e.packet.sender), CString(e.packet.data), e.salt, e.appended);
              r.users == g.users && r.storage == g.storage
            else SameRecords(w.users, r.users) && r.storage == w.storage
  {
    hide Inv, Register, OnlineText, HandleGroupCreate, HandleGroupMessage, HandleGroupList, Build, FindGroup, MemberIndex;
    hide Forward, Cleanup, SendToFds, OnlineFds, SendOrCleanup, CString, Fixed, HandleRegister, HandleLogin, HandleOnlineList, SameRecords;
    SameItself(w.users);
    match e
    case HungUp(fd) => CleanupRecords(env, w, fd);
    case Arrived(fd, p, salt, appended) =>
      if p.kind == MSG_REGISTER {
        RegisterRecords(env, w, fd, p, salt, appended);
      } else if p.kind == MSG_LOGIN {
        LoginRecords(env, w, fd, p);
      } else if p.kind == MSG_ONLINE_LIST {
        OnlineListRecords(env, w, fd);
      } else if p.kind == MSG_GROUP_CREATE {
        CreateRecords(env, w, fd, p);
      } else if p.kind == MSG_GROUP_MESSAGE {
        MessageRecords(env, w, fd, p);
      } else if p.kind == MSG_GROUP_LIST {
        ListRecords(env, w, fd);
      } else if p.kind == MSG_PRIVATE || p.kind == MSG_FILE_BEGIN || p.kind == MSG_FILE_CHUNK || p.kind == MSG_FILE_END {
        ForwardRecords(env, w, fd, p, Some(PrivateSent));
        ForwardRecords(env, w, fd, p, Some(FileSent));
        ForwardRecords(env, w, fd, p, None);
      } else if p.kind == MSG_GROUP {
        FdsRecords(env, w, OnlineFds(w.users, fd, MAX_ONLINE_SNAPSHOT), p);
      } else if p.kind == MSG_LOGOUT {
        CleanupRecords(env, w, fd);
      }
  }

  lemma SameItself(us: seq<User>)
    ensures SameRecords(us, us)
  {
  }

  lemma RegisterRecords(env: Env, w: World, fd: int, p: Packet, salt: Option<Salt>, appended: bool)
    ensures var g := Register(env.digest, w.users, w.storage, CString(p.sender), CString(p.data), salt, appended);
            var r := HandleRegister(env, w, fd, p, salt, appended);
            r.users == g.users && r.storage == g.storage
  {
    hide Register, CString, TextPacket;
  }

  lemma LoginRecords(env: Env, w: World, fd: int, p: Packet)
    ensures SameRecords(w.users, HandleLogin(env, w, fd, p).users) && HandleLogin(env, w, fd, p).storage == w.storage
  {
    hide CString, TextPacket, VerifyPassword;
  }

  lemma OnlineListRecords(env: Env, w: World, fd: int)
    ensures HandleOnlineList(env, w, fd).users == w.users && HandleOnlineList(env, w, fd).storage == w.storage
  {
    hide OnlineText, TextPacket;
  }

  lemma CleanupRecords(env: Env, w: World, fd: int)
    requires Inv(w)
    ensures SameRecords(w.users, Cleanup(env, w, fd).users) && Cleanup(env, w, fd).storage == w.storage
  {
    hide Inv, Cleanup;
    CleanupCascades(env, w, fd);
  }

  lemma CreateRecords(env: Env, w: World, fd: int, p: Packet)
    requires Inv(w)
    ensures SameRecords(w.users, HandleGroupCreate(env, w, fd, p).users) && HandleGroupCreate(env, w, fd, p).storage == w.storage
  {
    hide Inv, HandleGroupCreate;
    CreateStepKeepsInv(env, w, fd, p);
  }

  lemma MessageRecords(env: Env, w: World, fd: int, p: Packet)
    requires Inv(w)
    ensures SameRecords(w.users, HandleGroupMessage(env, w, fd, p).users) && HandleGroupMessage(env, w, fd, p).storage == w.storage
  {
    hide Inv, Build, FindGroup, MemberIndex;
    var r := HandleGroupMessage(env, w, fd, p);
    if r != w.(log := r.log) {
      var g := FindGroup(w.groups, CString(p.receiver)).group;
      var payload := Build(MessageFields(g, PacketText(p).value)).value;
      SendEachCascades(env, w, g.members, PackedPacket(MSG_GROUP_MESSAGE, NameByFd(w.users, fd).value, g.id, payload),
                       {MSG_GROUP_MESSAGE, MSG_GROUP_EVENT});
    }
  }

  lemma ListRecords(env: Env, w: World, fd: int)
    requires Inv(w)
    ensures SameRecords(w.users, HandleGroupList(env, w, fd).users) && HandleGroupList(env, w, fd).storage == w.storage
  {
    hide Inv, Build;
    var r := HandleGroupList(env, w, fd);
    if r != w.(log := r.log) {
      var user := NameByFd(w.users, fd).value;
      var payload := Build(ListFields(GroupsOf(w.groups, user))).value;
      SendOrCleanupCascades(env, w, fd, PackedPacket(MSG_GROUP_LIST, SERVER_NAME, user, payload), {MSG_GROUP_LIST, MSG_GROUP_EVENT});
    }
  }

  lemma ForwardRecords(env: Env, w: World, fd: int, p: Packet, done: Option<Reply>)
    requires Inv(w)
    ensures SameRecords(w.users, Forward(env, w, fd, p, done).users) && Forward(env, w, fd, p, done).storage == w.storage
  {
    hide Inv;
    match GetFd(w.users, CString(p.receiver))
    case NoFd(e) =>
    case Fd(target) =>
      var w1 := Send(env, w, target, p);
      InvIgnoresLog(w, w1);
      CleanupCascades(env, w1, target);
  }

  lemma FdsRecords(env: Env, w: World, fds: seq<int>, p: Packet)
    requires Inv(w)
    ensures SameRecords(w.users, SendToFds(env, w, fds, p).users) && SendToFds(env, w, fds, p).storage == w.storage
    decreases |fds|
  {
    hide Inv;
    if fds != [] {
      SendOrCleanupCascades(env, w, fds[0], p, {p.kind, MSG_GROUP_EVENT});
      FdsRecords(env, SendOrCleanup(env, w, fds[0], p), fds[1..], p);
    }
  }

  lemma SameRecordsSameStorage(us: seq<User>, vs: seq<User>)
    requires SameRecords(us, vs)
    ensures AllOffline(us) == AllOffline(vs)
  {
  }

  /** How the file and the list drift apart: by exactly the unsaved registrations. */
  lemma StepStorage(env: Env, w: World, e: Event)
    requires Inv(w) && WholeLines(w.storage)
    ensures var r := Step(env, w, e);
            && WholeLines(r.storage)
            && (StorageMatches(w.users, w.storage) ==> (StorageMatches(r.users, r.storage) <==> !LeavesUnsaved(w, e)))
            && |LoadFrom([], r.storage)| - |LoadFrom([], w.storage)|
               <= |r.users| - |w.users| - (if LeavesUnsaved(w, e) then 1 else 0)
  {
    hide Inv, Step, WholeLines, LoadFrom;
    StepRecords(env, w, e);
    var r := Step(env, w, e);
    if e.Arrived? && e.packet.kind == MSG_REGISTER {
      var name, password := CString(e.packet.sender), CString(e.packet.data);
      RegisteredIsPrintable(env.digest, w.users, w.storage, name, password, e.salt, e.appended);
      if StorageMatches(w.users, w.storage) {
        RegistrationAndStorage(env.digest, w.users, w.storage, name, password, e.salt, e.appended);
      }
      if r.storage != w.storage {
        LoadAppends([], w.storage, r.users[0]);
      }
    } else {
      SameRecordsSameStorage(w.users, r.users);
    }
  }

  lemma {:induction false} RunStorage(env: Env, w: World, es: seq<Event>)
    requires Inv(w) && WholeLines(w.storage)
    ensures var r := Run(env, w, es);
            && WholeLines(r.storage)
            && (StorageMatches(w.users, w.storage) && UnsavedIn(env, w, es) == 0 ==> StorageMatches(r.users, r.storage))
            && |LoadFrom([], r.storage)| - |LoadFrom([], w.storage)| <= |r.users| - |w.users| - UnsavedIn(env, w, es)
    decreases |es|
  {
    hide Inv, Step, WholeLines, LoadFrom, StorageMatches, LeavesUnsaved;
    if es != [] {
      StepKeepsInv(env, w, es[0]);
      StepStorage(env, w, es[0]);
      RunStorage(env, Step(env, w, es[0]), es[1..]);
    }
  }

  /**
   Restart round trip: after any run from an empty file, loading the file gives back the same users in
   the same order, with the same salts and hashes and all offline, exactly when no registration of the
   run added a user whose line failed to be written.
   */
  lemma RestartRoundTrip(env: Env, es: seq<Event>)
    ensures var w := Run(env, Start([]), es);
            LoadFrom([], w.storage) == AllOffline(w.users) <==> UnsavedIn(env, Start([]), es) == 0
  {
    StartInv([]);
    RunStorage(env, Start([]), es);
    assert StorageMatches([], []);
  }

  /** Whatever is registered stays registered with the same credentials. */
  predicate Registered(us: seq<User>, name: Bytes, salt: Bytes, hash: Bytes) {
    exists i :: 0 <= i < |us| && us[i].name == name && us[i].salt == salt && us[i].hash == hash
  }

  lemma {:induction false} RegisteredForGood(env: Env, w: World, es: seq<Event>, name: Bytes, salt: Bytes, hash: Bytes)
    requires Inv(w) && Registered(w.users, name, salt, hash)
    ensures Registered(Run(env, w, es).users, name, salt, hash)
    decreases |es|
  {
    hide Inv, Step;
    if es != [] {
      var e, r := es[0], Step(env, w, es[0]);
      StepKeepsInv(env, w, e);
      StepRecords(env, w, e);
      var i :| 0 <= i < |w.users| && w.users[i].name == name && w.users[i].salt == salt && w.users[i].hash == hash;
      if e.Arrived? && e.packet.kind == MSG_REGISTER {
        RegisteredIsPrintable(env.digest, w.users, w.storage, CString(e.packet.sender), CString(e.packet.data), e.salt, e.appended);
        if r.users != w.users {
          assert r.users[i + 1] == r.users[1..][i];
        }
      } else {
        assert r.users[i].name == name;
      }
      RegisteredForGood(env, r, es[1..], name, salt, hash);
    }
  }

  /**
   After a registration that succeeded, any further run in which every line was written, and a restart, exactly
   those passwords let the user in that are valid and have the registered password's salted digest.
   */
  lemma PasswordSurvivesRestart(env: Env, before: seq<Event>, reg: Event, after: seq<Event>, attempt: Bytes, fd: int)
    requires reg.Arrived? && reg.packet.kind == MSG_REGISTER
    requires var w := Run(env, Start([]), before);
             Register(env.digest, w.users, w.storage, CString(reg.packet.sender), CString(reg.packet.data),
                      reg.salt, reg.appended).result == Ok
    requires UnsavedIn(env, Start([]), before + [reg] + after) == 0
    ensures reg.salt.Some?
    ensures var w := Run(env, Start([]), before + [reg] + after);
            LoginUser(env.digest, LoadFrom([], w.storage), CString(reg.packet.sender), attempt, fd).result == Ok
            <==> ValidPassword(attempt)
                 && env.digest(reg.salt.value, attempt) == env.digest(reg.salt.value, CString(reg.packet.data))
  {
    hide Register, LoginUser, Step, Inv, Knows, ValidName, ValidPassword, WholeLines, LoadFrom, UnsavedIn, CString, ToHex, FromHex;
    var name, password := CString(reg.packet.sender), CString(reg.packet.data);
    var w0 := Run(env, Start([]), before);
    var w1 := Step(env, w0, reg);
    var w := Run(env, Start([]), before + [reg] + after);
    StartInv([]);
    RunKeepsInv(env, Start([]), before);
    StepKeepsInv(env, w0, reg);
    StepRecords(env, w0, reg);
    RunAppend(env, Start([]), before, [reg] + after);
    assert before + [reg] + after == before + ([reg] + after) && ([reg] + after)[1..] == after;
    RegisterMeaning(env.digest, w0.users, w0.storage, name, password, reg.salt, reg.appended);
    var salt, hash := ToHex(reg.salt.value), ToHex(env.digest(reg.salt.value, password));
    assert w1.users[0] == User(name, salt, hash, false, -1);
    assert Registered(w1.users, name, salt, hash);
    RegisteredForGood(env, w1, after, name, salt, hash);
    RestartRoundTrip(env, before + [reg] + after);
    RunKeepsInv(env, w1, after);
    var i :| 0 <= i < |w.users| && w.users[i].name == name && w.users[i].salt == salt && w.users[i].hash == hash;
    assert UniqueNames(w.users) by { InvUsers(w); }
    LoginAfterRestart(env.digest, AllOffline(w.users), i, reg.salt.value, password, attempt, fd);
  }

  lemma InvUsers(w: World)
    requires Inv(w)
    ensures UsersOk(w.users) && UniqueNames(w.users)
  {
  }

  lemma LoginAfterRestart(digest: Hasher, us: seq<User>, i: nat, salt: Salt, password: Bytes, attempt: Bytes, fd: int)
    requires i < |us| && UniqueNames(us) && !us[i].online && ValidName(us[i].name)
    requires us[i].salt == ToHex(salt) && us[i].hash == ToHex(digest(salt, password))
    ensures LoginUser(digest, us, us[i].name, attempt, fd).result == Ok
            <==> ValidPassword(attempt) && digest(salt, attempt) == digest(salt, password)
  {
    hide LoginUser, VerifyPassword, ToHex, FromHex;
    LoginMeaning(digest, us, us[i].name, attempt, fd);
    HexRoundTrip(salt);
    HexRoundTrip(digest(salt, attempt));
    HexRoundTrip(digest(salt, password));
    forall k | 0 <= k < |us| && us[k].name == us[i].name ensures k == i { FindUserAt(us, k); FindUserAt(us, i); }
  }

  lemma {:induction false} RunAppend(env: Env, w: World, a: seq<Event>, b: seq<Event>)
    ensures Run(env, w, a + b) == Run(env, Run(env, w, a), b)
    decreases |a|
  {
    hide Step;
    if a == [] {
      assert a + b == b;
    } else {
      assert (a + b)[1..] == a[1..] + b;
      RunAppend(env, Step(env, w, a[0]), a[1..], b);
    }
  }
}
