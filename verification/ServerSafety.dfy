/** What every step of the server keeps, over all runs of packets, disconnects and send failures. */
module ServerSafety {
  import opened Basics
  import opened Wire
  import opened Credentials
  import opened GroupModel
  import opened Payload
  import opened GroupStore
  import opened UserModel
  import opened ServerModel

  /** Every member of every group is a registered user who is online. */
  ghost predicate MembersOnline(w: World) {
    forall i, m :: 0 <= i < |w.groups| && m in w.groups[i].members ==> IsOnline(w.users, m)
  }

  /** The invariant across the two stores. */
  ghost predicate Inv(w: World) {
    && UsersOk(w.users) && AllValid(w.groups) && |w.groups| <= GROUP_MAX_GROUPS
    && MembersOnline(w)
    && 1 <= w.issued && (w.issued <= IDS + 1 ==> GroupsOk(w.groups, w.issued))
  }

  // ---------- users that only go offline ----------

  /** The same users in the same order, some of them taken offline. */
  predicate Shrinks(us: seq<User>, vs: seq<User>) {
    && |us| == |vs|
    && forall i :: 0 <= i < |us| ==> vs[i] == us[i] || (us[i].online && vs[i] == us[i].(online := false, fd := -1))
  }

  lemma SameFind(us: seq<User>, vs: seq<User>, name: Bytes)
    requires |us| == |vs| && forall i :: 0 <= i < |us| ==> vs[i].name == us[i].name
    ensures FindUser(vs, name) == FindUser(us, name)
  {
    FindUserIs(vs, name, FindUser(us, name));
  }

  lemma OfflineShrinks(us: seq<User>, i: nat)
    requires i < |us| && us[i].online && UsersOk(us)
    ensures Shrinks(us, SetOffline(us, i)) && UsersOk(SetOffline(us, i))
    ensures forall m :: m != us[i].name && IsOnline(us, m) ==> IsOnline(SetOffline(us, i), m)
    ensures !IsOnline(SetOffline(us, i), us[i].name)
  {
    var vs := SetOffline(us, i);
    forall m ensures FindUser(vs, m) == FindUser(us, m) {
      SameFind(us, vs, m);
    }
    FindUserAt(us, i);
  }

  // ---------- the cascade ----------

  const EVENTS_ONLY: set<int> := {MSG_GROUP_EVENT}

  /** Sends that one departure can cause: at most 64 events to at most 64 members each. */
  const DEPARTURE_SENDS := GROUP_EVENT_MAX_CHANGES * GROUP_MAX_MEMBERS

  predicate NewKinds(old_: seq<Attempt>, new_: seq<Attempt>, kinds: set<int>) {
    old_ <= new_ && forall i :: |old_| <= i < |new_| ==> new_[i].packet.kind in kinds
  }

  /**
   What a cascade may do to the world: users only go offline, nothing is registered or created, the
   invariant holds again, and all sends beyond `sends` are paid for by users taken offline.
   */
  ghost predicate Cascade(w: World, r: World, sends: nat, kinds: set<int>) {
    && Inv(w) && Inv(r) && Shrinks(w.users, r.users)
    && OnlineCount(r.users) <= OnlineCount(w.users)
    && r.storage == w.storage && r.issued == w.issued
    && NewKinds(w.log, r.log, kinds)
    && |r.log| - |w.log| <= sends + DEPARTURE_SENDS * (OnlineCount(w.users) - OnlineCount(r.users))
  }

  lemma CascadeNothing(w: World, kinds: set<int>)
    requires Inv(w)
    ensures Cascade(w, w, 0, kinds)
  {
  }

  lemma CascadeThen(a: World, b: World, c: World, s: nat, t: nat, kinds: set<int>)
    requires Cascade(a, b, s, kinds) && Cascade(b, c, t, kinds)
    ensures Cascade(a, c, s + t, kinds)
  {
    hide Inv, OnlineCount;
  }

  lemma CascadeSend(env: Env, w: World, fd: int, p: Packet, kinds: set<int>)
    requires Inv(w) && p.kind in kinds
    ensures Cascade(w, Send(env, w, fd, p), 1, kinds)
  {
    InvIgnoresLog(w, Send(env, w, fd, p));
    hide Inv, OnlineCount;
  }

  lemma InvIgnoresLog(w: World, r: World)
    requires Inv(w) && r == w.(log := r.log)
    ensures Inv(r)
  {
  }

  /** One user leaves: out of every group and offline, by the same lookup. */
  lemma DepartureKeepsInv(w: World, fd: int)
    requires Inv(w) && NameByFd(w.users, fd).Some?
    ensures var name := NameByFd(w.users, fd).value;
            var r := w.(groups := RemoveMember(w.groups, name), users := LogoutFd(w.users, fd));
            && Inv(r) && Shrinks(w.users, r.users) && OnlineCount(r.users) == OnlineCount(w.users) - 1
            && ValidName(name) && IsOnline(w.users, name) && !IsOnline(r.users, name)
  {
    var i := FindFd(w.users, fd);
    var name := w.users[i].name;
    var r := w.(groups := RemoveMember(w.groups, name), users := LogoutFd(w.users, fd));
    assert ValidUser(w.users[i]);
    FindUserAt(w.users, i);
    OfflineLowersCount(w.users, i);
    OfflineShrinks(w.users, i);
    RemovalSmaller(w.groups, name);
    if w.issued <= IDS + 1 {
      RemovalKeepsGroups(w.groups, name, w.issued);
    }
    forall j, m | 0 <= j < |r.groups| && m in r.groups[j].members ensures IsOnline(r.users, m) {
      var k := RemovedFrom(w.groups, name, j);
      assert m in w.groups[k].members && m != name;
    }
    forall j | 0 <= j < |r.groups| ensures ValidGroup(r.groups[j]) {
      var k := RemovedFrom(w.groups, name, j);
    }
  }

  lemma {:induction false} RemovalSmaller(gs: seq<Group>, name: Bytes)
    ensures |RemoveMember(gs, name)| <= |gs| && |Changed(gs, name)| <= |gs|
  {
    if gs != [] { RemovalSmaller(gs[1..], name); }
  }

  predicate Small(changes: seq<Group>) {
    forall i :: 0 <= i < |changes| ==> |changes[i].members| <= GROUP_MAX_MEMBERS
  }

  lemma ChangesAreSmall(gs: seq<Group>, name: Bytes)
    requires AllValid(gs) && ValidName(name)
    ensures Small(Changed(gs, name))
  {
    forall c | 0 <= c < |Changed(gs, name)| ensures |Changed(gs, name)[c].members| <= GROUP_MAX_MEMBERS {
      var j := ChangedAreKept(gs, name, c);
    }
  }

  /**
   A cleanup ends, whatever sends fail: every user it takes offline pays for at most 64 * 64 sends,
   all of them group events.
   */
  lemma CleanupCascades(env: Env, w: World, fd: int)
    requires Inv(w)
    ensures Cascade(w, Cleanup(env, w, fd), 0, EVENTS_ONLY)
    ensures NameByFd(w.users, fd).Some? ==> OnlineCount(Cleanup(env, w, fd).users) < OnlineCount(w.users)
    decreases OnlineCount(w.users), 0, 0
  {
    match NameByFd(w.users, fd)
    case None => CascadeNothing(w, EVENTS_ONLY);
    case Some(name) =>
      var all := Changed(w.groups, name);
      var changes := all[..Min(|all|, GROUP_EVENT_MAX_CHANGES)];
      var w1 := w.(groups := RemoveMember(w.groups, name), users := LogoutFd(w.users, fd));
      DepartureKeepsInv(w, fd);
      ChangesAreSmall(w.groups, name);
      PushChangesCascades(env, w1, changes);
      DepartureThenEvents(w, w1, Cleanup(env, w, fd), |changes|);
  }

  lemma DepartureThenEvents(w: World, w1: World, r: World, changes: nat)
    requires Inv(w) && Shrinks(w.users, w1.users) && OnlineCount(w1.users) == OnlineCount(w.users) - 1
    requires w1.storage == w.storage && w1.issued == w.issued && w1.log == w.log
    requires changes <= GROUP_EVENT_MAX_CHANGES
    requires Cascade(w1, r, changes * GROUP_MAX_MEMBERS, EVENTS_ONLY)
    ensures Cascade(w, r, 0, EVENTS_ONLY)
  {
    hide Inv, OnlineCount;
  }

  lemma PushChangesCascades(env: Env, w: World, changes: seq<Group>)
    requires Inv(w) && Small(changes)
    ensures Cascade(w, PushChanges(env, w, changes), |changes| * GROUP_MAX_MEMBERS, EVENTS_ONLY)
    decreases OnlineCount(w.users), 4, |changes|
  {
    if changes == [] {
      CascadeNothing(w, EVENTS_ONLY);
    } else {
      var w1 := PushEvent(env, w, EVENT_MEMBER_LEFT, changes[0]);
      PushEventCascades(env, w, EVENT_MEMBER_LEFT, changes[0]);
      PushChangesCascades(env, w1, changes[1..]);
      CascadeThen(w, w1, PushChanges(env, w, changes), GROUP_MAX_MEMBERS, |changes[1..]| * GROUP_MAX_MEMBERS, EVENTS_ONLY);
    }
  }

  lemma PushEventCascades(env: Env, w: World, event: Bytes, g: Group)
    requires Inv(w) && |g.members| <= GROUP_MAX_MEMBERS
    ensures Cascade(w, PushEvent(env, w, event, g), GROUP_MAX_MEMBERS, EVENTS_ONLY)
    decreases OnlineCount(w.users), 3, 0
  {
    match Build(EventFields(event, g))
    case None => CascadeNothing(w, EVENTS_ONLY);
    case Some(payload) =>
      SendEachCascades(env, w, g.members, PackedPacket(MSG_GROUP_EVENT, SERVER_NAME, g.id, payload), EVENTS_ONLY);
  }

  lemma SendEachCascades(env: Env, w: World, members: seq<Bytes>, p: Packet, kinds: set<int>)
    requires Inv(w) && p.kind in kinds && MSG_GROUP_EVENT in kinds
    ensures Cascade(w, SendEach(env, w, members, p), |members|, kinds)
    decreases OnlineCount(w.users), 2, |members|
  {
    if members == [] {
      CascadeNothing(w, kinds);
    } else {
      var w1 := SendToMember(env, w, members[0], p);
      SendToMemberCascades(env, w, members[0], p, kinds);
      SendEachCascades(env, w1, members[1..], p, kinds);
      CascadeThen(w, w1, SendEach(env, w, members, p), 1, |members| - 1, kinds);
    }
  }

  lemma SendToMemberCascades(env: Env, w: World, member: Bytes, p: Packet, kinds: set<int>)
    requires Inv(w) && p.kind in kinds && MSG_GROUP_EVENT in kinds
    ensures Cascade(w, SendToMember(env, w, member, p), 1, kinds)
    decreases OnlineCount(w.users), 1, 1
  {
    match GetFd(w.users, member)
    case NoFd(_) => CascadeNothing(w, kinds);
    case Fd(fd) => SendOrCleanupCascades(env, w, fd, p, kinds);
  }

  lemma SendOrCleanupCascades(env: Env, w: World, fd: int, p: Packet, kinds: set<int>)
    requires Inv(w) && p.kind in kinds && MSG_GROUP_EVENT in kinds
    ensures Cascade(w, SendOrCleanup(env, w, fd, p), 1, kinds)
    decreases OnlineCount(w.users), 1, 0
  {
    var w1 := Send(env, w, fd, p);
    CascadeSend(env, w, fd, p, kinds);
    if !Delivers(env, w) {
      CleanupCascades(env, w1, fd);
      CascadeWeaker(w1, Cleanup(env, w1, fd), kinds);
      CascadeThen(w, w1, Cleanup(env, w1, fd), 1, 0, kinds);
    }
  }

  lemma CascadeWeaker(w: World, r: World, kinds: set<int>)
    requires Cascade(w, r, 0, EVENTS_ONLY) && MSG_GROUP_EVENT in kinds
    ensures Cascade(w, r, 0, kinds)
  {
    hide Inv, OnlineCount;
  }

  // ---------- the steps ----------

  lemma SendToFdsKeepsInv(env: Env, w: World, fds: seq<int>, p: Packet)
    requires Inv(w)
    ensures Inv(SendToFds(env, w, fds, p))
    decreases |fds|
  {
    if fds != [] {
      SendOrCleanupCascades(env, w, fds[0], p, {p.kind, MSG_GROUP_EVENT});
      SendToFdsKeepsInv(env, SendOrCleanup(env, w, fds[0], p), fds[1..], p);
    }
  }

  lemma NewUserKeepsInv(w: World, u: User, storage: Bytes)
    requires Inv(w) && ValidUser(u) && FindUser(w.users, u.name) == |w.users|
    ensures Inv(w.(users := [u] + w.users, storage := storage))
  {
    var us := [u] + w.users;
    forall m | IsOnline(w.users, m) ensures IsOnline(us, m) {
      assert m != u.name;
      FindUserIs(us, m, FindUser(w.users, m) + 1);
    }
  }

  lemma LoginKeepsInv(w: World, i: nat, fd: int)
    requires Inv(w) && i < |w.users|
    ensures Inv(w.(users := w.users[i := w.users[i].(online := true, fd := fd)]))
  {
    var us := w.users[i := w.users[i].(online := true, fd := fd)];
    forall m | IsOnline(w.users, m) ensures IsOnline(us, m) {
      SameFind(w.users, us, m);
    }
  }

  lemma RegisterKeepsInv(env: Env, w: World, name: Bytes, password: Bytes, salt: Option<Salt>, appended: bool)
    requires Inv(w)
    ensures var r := Register(env.digest, w.users, w.storage, name, password, salt, appended);
            Inv(w.(users := r.users, storage := r.storage))
  {
    var r := Register(env.digest, w.users, w.storage, name, password, salt, appended);
    RegisteredIsPrintable(env.digest, w.users, w.storage, name, password, salt, appended);
    if r.users != w.users {
      NewUserKeepsInv(w, r.users[0], r.storage);
      assert r.users == [r.users[0]] + w.users;
    }
  }

  lemma AnyLoginKeepsInv(env: Env, w: World, name: Bytes, password: Bytes, fd: int)
    requires Inv(w)
    ensures Inv(w.(users := LoginUser(env.digest, w.users, name, password, fd).users))
  {
    if LoginUser(env.digest, w.users, name, password, fd).result == Ok {
      LoginKeepsInv(w, FindUser(w.users, name), fd);
    }
  }

  /** A user found by socket is online under the name that was found. */
  lemma FoundByFdIsOnline(w: World, fd: int)
    requires Inv(w) && NameByFd(w.users, fd).Some?
    ensures IsOnline(w.users, NameByFd(w.users, fd).value)
  {
    FindUserAt(w.users, FindFd(w.users, fd));
  }

  /**
   Inserting a group is safe exactly when its creator and members are online at that moment: this is
   why the online check and the insertion must be one step.
   */
  lemma CreationKeepsInv(w: World, creator: Bytes, name: Bytes, members: seq<Bytes>)
    requires Inv(w) && CreateGroup(w.groups, w.issued, creator, name, members).Created?
    ensures var g := CreateGroup(w.groups, w.issued, creator, name, members).group;
            Inv(w.(groups := [g] + w.groups, issued := w.issued + 1))
            <==> IsOnline(w.users, creator) && AllOnline(w.users, members)
    ensures |CreateGroup(w.groups, w.issued, creator, name, members).group.members| <= GROUP_MAX_MEMBERS
  {
    var g := CreateGroup(w.groups, w.issued, creator, name, members).group;
    CreatedIsValid(w.groups, w.issued, creator, name, members);
    CreateMeaning(w.groups, w.issued, creator, name, members);
    CreatedFits(w, creator, name, members);
    OneMoreGroup(w, g, w.issued + 1);
    forall k | 0 <= k < |members| ensures GetFd(w.users, members[k]).Fd? <==> IsOnline(w.users, members[k]) {
      assert members[k] in g.members && ValidName(members[k]);
    }
    hide Inv, MembersOnline, CreateGroup, Creatable, ValidGroup, IsOnline, GetFd;
    if AllOnline(w.users, members) && IsOnline(w.users, creator) {
      forall m | m in g.members ensures IsOnline(w.users, m) {
        if m != creator {
          var k :| 0 <= k < |members| && members[k] == m;
        }
      }
    }
    if forall m :: m in g.members ==> IsOnline(w.users, m) {
      forall k | 0 <= k < |members| ensures GetFd(w.users, members[k]).Fd? {
        assert members[k] in g.members;
      }
    }
  }

  /** A created group can only break the invariant by a member who is not online. */
  lemma CreatedFits(w: World, creator: Bytes, name: Bytes, members: seq<Bytes>)
    requires Inv(w) && CreateGroup(w.groups, w.issued, creator, name, members).Created?
    ensures var g := CreateGroup(w.groups, w.issued, creator, name, members).group;
            var r := w.(groups := [g] + w.groups, issued := w.issued + 1);
            Inv(r) <==> MembersOnline(r)
  {
    hide MembersOnline, ValidGroup, UsersOk, GroupsOk;
    var g := CreateGroup(w.groups, w.issued, creator, name, members).group;
    CreatedIsValid(w.groups, w.issued, creator, name, members);
    assert |w.groups| < GROUP_MAX_GROUPS by { CreateMeaning(w.groups, w.issued, creator, name, members); }
    if w.issued <= IDS { CreationKeepsGroups(w.groups, w.issued, creator, name, members); }
    hide CreateGroup;
    AllValidInFront(g, w.groups);
  }

  lemma AllValidInFront(g: Group, gs: seq<Group>)
    requires ValidGroup(g) && AllValid(gs)
    ensures AllValid([g] + gs)
  {
    hide ValidGroup;
  }

  /** A new group keeps all members online exactly when its own members are. */
  lemma OneMoreGroup(w: World, g: Group, issued: nat)
    requires MembersOnline(w)
    ensures MembersOnline(w.(groups := [g] + w.groups, issued := issued))
            <==> forall m :: m in g.members ==> IsOnline(w.users, m)
  {
    hide IsOnline;
    var r := w.(groups := [g] + w.groups, issued := issued);
    if forall m :: m in g.members ==> IsOnline(w.users, m) {
      forall i, m | 0 <= i < |r.groups| && m in r.groups[i].members ensures IsOnline(r.users, m) {
        assert r.groups[i] == if i == 0 then g else w.groups[i - 1];
      }
    }
    if MembersOnline(r) {
      assert r.groups[0] == g;
    }
  }

  lemma WantedIsOnline(w: World, fd: int, p: Packet)
    requires Inv(w) && CheckCreate(w, fd, p).Wanted?
    ensures IsOnline(w.users, CheckCreate(w, fd, p).user) && AllOnline(w.users, CheckCreate(w, fd, p).members)
    ensures NameByFd(w.users, fd) == Some(CheckCreate(w, fd, p).user)
  {
    hide Inv, Fields;
    FoundByFdIsOnline(w, fd);
  }

  lemma CreateStepKeepsInv(env: Env, w: World, fd: int, p: Packet)
    requires Inv(w)
    ensures Inv(HandleGroupCreate(env, w, fd, p))
    ensures Shrinks(w.users, HandleGroupCreate(env, w, fd, p).users) && HandleGroupCreate(env, w, fd, p).storage == w.storage
  {
    hide Inv, CheckCreate, CreateGroup;
    var r := HandleGroupCreate(env, w, fd, p);
    var wanted := CheckCreate(w, fd, p);
    if wanted.Wanted? && CreateGroup(w.groups, w.issued, wanted.user, wanted.name, wanted.members).Created? {
      var g := CreateGroup(w.groups, w.issued, wanted.user, wanted.name, wanted.members).group;
      var w1 := w.(groups := [g] + w.groups, issued := w.issued + 1);
      WantedIsOnline(w, fd, p);
      CreationKeepsInv(w, wanted.user, wanted.name, wanted.members);
      PushEventCascades(env, w1, EVENT_CREATED, g);
      InvIgnoresLog(PushEvent(env, w1, EVENT_CREATED, g), r);
    } else {
      InvIgnoresLog(w, r);
    }
  }

  lemma MessageStepKeepsInv(env: Env, w: World, fd: int, p: Packet)
    requires Inv(w)
    ensures Inv(HandleGroupMessage(env, w, fd, p))
  {
    hide Inv, Build, FindGroup, MemberIndex;
    var r := HandleGroupMessage(env, w, fd, p);
    if r == w.(log := r.log) {
      InvIgnoresLog(w, r);
    } else {
      var g := FindGroup(w.groups, CString(p.receiver)).group;
      var payload := Build(MessageFields(g, PacketText(p).value)).value;
      var copy := PackedPacket(MSG_GROUP_MESSAGE, NameByFd(w.users, fd).value, g.id, payload);
      SendEachCascades(env, w, g.members, copy, {MSG_GROUP_MESSAGE, MSG_GROUP_EVENT});
      InvIgnoresLog(SendEach(env, w, g.members, copy), r);
    }
  }

  lemma ListStepKeepsInv(env: Env, w: World, fd: int)
    requires Inv(w)
    ensures Inv(HandleGroupList(env, w, fd))
  {
    hide Inv, Build;
    var r := HandleGroupList(env, w, fd);
    if r == w.(log := r.log) {
      InvIgnoresLog(w, r);
    } else {
      var user := NameByFd(w.users, fd).value;
      var payload := Build(ListFields(GroupsOf(w.groups, user))).value;
      SendOrCleanupCascades(env, w, fd, PackedPacket(MSG_GROUP_LIST, SERVER_NAME, user, payload), {MSG_GROUP_LIST, MSG_GROUP_EVENT});
    }
  }

  lemma ForwardKeepsInv(env: Env, w: World, fd: int, p: Packet, done: Option<Reply>)
    requires Inv(w)
    ensures Inv(Forward(env, w, fd, p, done))
  {
    hide Inv;
    var r := Forward(env, w, fd, p, done);
    match GetFd(w.users, CString(p.receiver))
    case NoFd(e) => InvIgnoresLog(w, r);
    case Fd(target) =>
      var w1 := Send(env, w, target, p);
      InvIgnoresLog(w, w1);
      if Delivers(env, w) {
        InvIgnoresLog(w, r);
      } else {
        CleanupCascades(env, w1, target);
        InvIgnoresLog(Cleanup(env, w1, target), r);
      }
  }

  /** Every step keeps the invariant. */
  lemma StepKeepsInv(env: Env, w: World, e: Event)
    requires Inv(w)
    ensures Inv(Step(env, w, e))
  {
    hide Inv, Register, LoginUser, OnlineText, CheckCreate, CreateGroup, Forward, Cleanup, SendToFds, OnlineFds, Build;
    hide HandleGroupCreate, HandleGroupMessage, HandleGroupList, SendOrCleanup, CString, Fixed;
    match e
    case HungUp(fd) => CleanupCascades(env, w, fd);
    case Arrived(fd, p, salt, appended) =>
      var r := Process(env, w, fd, p, salt, appended);
      RegisterKeepsInv(env, w, CString(p.sender), CString(p.data), salt, appended);
      AnyLoginKeepsInv(env, w, CString(p.sender), CString(p.data), fd);
      CreateStepKeepsInv(env, w, fd, p);
      MessageStepKeepsInv(env, w, fd, p);
      ListStepKeepsInv(env, w, fd);
      ForwardKeepsInv(env, w, fd, p, Some(PrivateSent));
      ForwardKeepsInv(env, w, fd, p, Some(FileSent));
      ForwardKeepsInv(env, w, fd, p, None);
      CleanupCascades(env, w, fd);
      SendToFdsKeepsInv(env, w, OnlineFds(w.users, fd, MAX_ONLINE_SNAPSHOT), p);
      if p.kind == MSG_REGISTER {
        var g := Register(env.digest, w.users, w.storage, CString(p.sender), CString(p.data), salt, appended);
        InvIgnoresLog(w.(users := g.users, storage := g.storage), r);
      } else if p.kind == MSG_LOGIN {
        InvIgnoresLog(w.(users := LoginUser(env.digest, w.users, CString(p.sender), CString(p.data), fd).users), r);
      } else if p.kind == MSG_GROUP {
        var fds := OnlineFds(w.users, fd, MAX_ONLINE_SNAPSHOT);
        InvIgnoresLog(if fds == [] then w else SendToFds(env, w, fds, p), r);
      } else if p.kind == MSG_LOGOUT {
        InvIgnoresLog(Cleanup(env, w, fd), r);
      } else if p.kind == MSG_ONLINE_LIST || p.kind == MSG_HEARTBEAT || r == w.(log := r.log) {
        InvIgnoresLog(w, r);
      }
  }

  // ---------- runs from the start ----------

  lemma {:induction false} LoadedUsersOk(us: seq<User>, file: Bytes)
    requires UsersOk(us)
    ensures UsersOk(LoadFrom(us, file))
    decreases |file|
  {
    if file != [] {
      LoadedUsersOk(LoadLine(us, NextLine(file)), file[|NextLine(file)|..]);
    }
  }

  lemma StartInv(storage: Bytes)
    ensures Inv(Start(storage))
  {
    LoadedUsersOk([], storage);
  }

  lemma {:induction false} RunKeepsInv(env: Env, w: World, es: seq<Event>)
    requires Inv(w)
    ensures Inv(Run(env, w, es))
    decreases |es|
  {
    if es != [] {
      StepKeepsInv(env, w, es[0]);
      RunKeepsInv(env, Step(env, w, es[0]), es[1..]);
    }
  }

  /**
   Cross-store safety: whatever packets, disconnects and send failures come, in any order, and even
   if several users share a socket, every member of every group is a registered user who is online,
   and every group has 1 to 64 distinct members.
   */
  lemma CrossStoreSafety(env: Env, storage: Bytes, es: seq<Event>)
    ensures var w := Run(env, Start(storage), es);
            && (forall i, m :: 0 <= i < |w.groups| && m in w.groups[i].members ==>
                  exists k :: 0 <= k < |w.users| && w.users[k].name == m && w.users[k].online)
            && (forall i :: 0 <= i < |w.groups| ==>
                  1 <= |w.groups[i].members| <= GROUP_MAX_MEMBERS && Distinct(w.groups[i].members))
            && (forall k, i :: 0 <= k < |w.users| && !w.users[k].online && 0 <= i < |w.groups| ==>
                  w.users[k].name !in w.groups[i].members)
  {
    StartInv(storage);
    RunKeepsInv(env, Start(storage), es);
    var w := Run(env, Start(storage), es);
    forall i, m | 0 <= i < |w.groups| && m in w.groups[i].members
      ensures exists k :: 0 <= k < |w.users| && w.users[k].name == m && w.users[k].online
    {
      assert IsOnline(w.users, m);
      assert w.users[FindUser(w.users, m)].online;
    }
    forall k, i | 0 <= k < |w.users| && !w.users[k].online && 0 <= i < |w.groups|
      ensures w.users[k].name !in w.groups[i].members
    {
      FindUserAt(w.users, k);
    }
  }
}
