/** Several users on one socket: how many of them a cleanup takes off it. */
module SharedSockets {
  import opened Basics
  import opened Wire
  import opened GroupModel
  import opened Payload
  import opened UserModel
  import opened ServerModel
  import opened ServerRuns

  /** The number of users online on a socket. */
  function OnSocket(us: seq<User>, fd: int): nat {
    if us == [] then 0 else (if At(us[0], fd) then 1 else 0) + OnSocket(us[1..], fd)
  }

  /** The number of failed sends to a socket. */
  function FailedTo(log: seq<Attempt>, fd: int): nat {
    if log == [] then 0 else (if log[0].fd == fd && !log[0].ok then 1 else 0) + FailedTo(log[1..], fd)
  }

  function Less(a: nat, b: nat): nat {
    if a <= b then 0 else a - b
  }

  lemma {:induction false} FailedToAppend(a: seq<Attempt>, b: seq<Attempt>, fd: int)
    ensures FailedTo(a + b, fd) == FailedTo(a, fd) + FailedTo(b, fd)
  {
    if a == [] {
      assert a + b == b;
    } else {
      FailedToAppend(a[1..], b, fd);
      assert (a + b)[0] == a[0] && (a + b)[1..] == a[1..] + b;
    }
  }

  lemma {:induction false} LogoutTakesOne(us: seq<User>, fd: int, f: int)
    ensures OnSocket(us, fd) == 0 <==> FindFd(us, fd) == |us|
    ensures OnSocket(LogoutFd(us, fd), f) == Less(OnSocket(us, f), if f == fd then 1 else 0)
  {
    if us != [] {
      LogoutTakesOne(us[1..], fd, f);
      var i := FindFd(us, fd);
      if i == 0 {
        assert LogoutFd(us, fd)[1..] == us[1..];
      } else if i < |us| {
        assert LogoutFd(us, fd)[1..] == LogoutFd(us[1..], fd);
      }
    }
  }

  /** From `w` to `r` socket `f` has lost `k` users and one more for each failed send to it, as far as there were any. */
  predicate Loses(w: World, r: World, f: int, k: nat) {
    w.log <= r.log && OnSocket(r.users, f) == Less(OnSocket(w.users, f), k + FailedTo(r.log[|w.log|..], f))
  }

  lemma LosesNothing(w: World, f: int)
    ensures Loses(w, w, f, 0)
  {
  }

  lemma LosesThen(a: World, b: World, c: World, f: int, j: nat, k: nat)
    requires Loses(a, b, f, j) && Loses(b, c, f, k)
    ensures Loses(a, c, f, j + k)
  {
    assert c.log[|a.log|..] == b.log[|a.log|..] + c.log[|b.log|..];
    FailedToAppend(b.log[|a.log|..], c.log[|b.log|..], f);
  }

  /**
   Every socket loses exactly one user for the cleanup it is the object of and one for each failed send
   to it, as long as there is one to lose; whatever sends fail.
   */
  lemma CleanupLoses(env: Env, w: World, fd: int, f: int)
    ensures Loses(w, Cleanup(env, w, fd), f, if f == fd then 1 else 0)
    decreases OnlineCount(w.users), 0, 0
  {
    LogoutTakesOne(w.users, fd, f);
    match NameByFd(w.users, fd)
    case None =>
      assert w.log[|w.log|..] == [];
    case Some(name) =>
      var all := Changed(w.groups, name);
      var changes := all[..Min(|all|, GROUP_EVENT_MAX_CHANGES)];
      var w1 := w.(groups := RemoveMember(w.groups, name), users := LogoutFd(w.users, fd));
      OfflineLowersCount(w.users, FindFd(w.users, fd));
      PushChangesLoses(env, w1, changes, f);
      assert w1.log[|w.log|..] == [];
      LosesThen(w, w1, Cleanup(env, w, fd), f, if f == fd then 1 else 0, 0);
  }

  lemma PushChangesLoses(env: Env, w: World, changes: seq<Group>, f: int)
    ensures Loses(w, PushChanges(env, w, changes), f, 0)
    decreases OnlineCount(w.users), 4, |changes|
  {
    hide Loses;
    if changes == [] {
      LosesNothing(w, f);
    } else {
      var w1 := PushEvent(env, w, EVENT_MEMBER_LEFT, changes[0]);
      PushEventLoses(env, w, EVENT_MEMBER_LEFT, changes[0], f);
      PushChangesLoses(env, w1, changes[1..], f);
      LosesThen(w, w1, PushChanges(env, w, changes), f, 0, 0);
    }
  }

  lemma PushEventLoses(env: Env, w: World, event: Bytes, g: Group, f: int)
    ensures Loses(w, PushEvent(env, w, event, g), f, 0)
    decreases OnlineCount(w.users), 3, 0
  {
    hide Loses;
    match Build(EventFields(event, g))
    case None => LosesNothing(w, f);
    case Some(payload) => SendEachLoses(env, w, g.members, PackedPacket(MSG_GROUP_EVENT, SERVER_NAME, g.id, payload), f);
  }

  lemma SendEachLoses(env: Env, w: World, members: seq<Bytes>, p: Packet, f: int)
    ensures Loses(w, SendEach(env, w, members, p), f, 0)
    decreases OnlineCount(w.users), 2, |members|
  {
    hide Loses;
    if members == [] {
      LosesNothing(w, f);
    } else {
      var w1 := SendToMember(env, w, members[0], p);
      SendToMemberLoses(env, w, members[0], p, f);
      SendEachLoses(env, w1, members[1..], p, f);
      LosesThen(w, w1, SendEach(env, w, members, p), f, 0, 0);
    }
  }

  lemma SendToMemberLoses(env: Env, w: World, member: Bytes, p: Packet, f: int)
    ensures Loses(w, SendToMember(env, w, member, p), f, 0)
    decreases OnlineCount(w.users), 1, 1
  {
    hide Loses;
    match GetFd(w.users, member)
    case NoFd(_) => LosesNothing(w, f);
    case Fd(fd) => SendOrCleanupLoses(env, w, fd, p, f);
  }

  lemma SendOrCleanupLoses(env: Env, w: World, fd: int, p: Packet, f: int)
    ensures Loses(w, SendOrCleanup(env, w, fd, p), f, 0)
    decreases OnlineCount(w.users), 1, 0
  {
    var w1 := Send(env, w, fd, p);
    assert w1.log[|w.log|..] == [Attempt(fd, p, Delivers(env, w))];
    assert FailedTo([Attempt(fd, p, Delivers(env, w))], f) == if f == fd && !Delivers(env, w) then 1 else 0;
    if !Delivers(env, w) {
      var r := Cleanup(env, w1, fd);
      CleanupLoses(env, w1, fd, f);
      assert r.log[|w.log|..] == w1.log[|w.log|..] + r.log[|w1.log|..];
      FailedToAppend(w1.log[|w.log|..], r.log[|w1.log|..], f);
    }
  }

  /**
   A cleanup frees its socket exactly when the users on it were no more than one and the failed sends
   to it: always when at most one was on it, and without failed sends only then.
   */
  lemma CleanupFreesSocket(env: Env, w: World, fd: int)
    ensures var r := Cleanup(env, w, fd);
            && w.log <= r.log
            && (OnSocket(r.users, fd) == 0 <==> OnSocket(w.users, fd) <= 1 + FailedTo(r.log[|w.log|..], fd))
            && (OnSocket(w.users, fd) <= 1 ==> OnSocket(r.users, fd) == 0)
            && (Reliable(env) ==> (OnSocket(r.users, fd) == 0 <==> OnSocket(w.users, fd) <= 1))
  {
    CleanupLoses(env, w, fd, fd);
    if Reliable(env) {
      LogoutTakesOne(w.users, fd, fd);
      ReliableCleanupUsers(env, w, fd);
    }
  }

  /**
   Two users on one socket share a group, and the event to the second fails: its cleanup frees the socket
   although two users were on it.
   */
  lemma FreedByFailure(env: Env, a: User, b: User, g: Group)
    requires UsersOk([a, b]) && At(a, 1) && At(b, 1) && ValidGroup(g) && g.members == [a.name, b.name] && !env.fate(0)
    ensures var w := World([a, b], [], [g], 2, []);
            OnSocket(w.users, 1) == 2 && OnSocket(Cleanup(env, w, 1).users, 1) == 0
  {
    hide EventFields, Build, Cleanup, SendEach, SendToMember, ValidGroup, FitsAsLeft;
    var us, us1, g1 := [a, b], [a.(online := false, fd := -1), b], g.(members := [b.name]);
    BothOnSocket(a, b);
    assert g.members[1] == b.name && g.members[0] == a.name;
    OneLeftFits(g, b.name);
    var e := LeftPacket(g1);
    var w0, w1 := World(us, [], [g], 2, []), World(us1, [], [g1], 2, []);
    var w2 := World(us1, [], [g1], 2, [Attempt(1, e, false)]);
    OnlyGroupDeparture(env, w0, 0, 1, g, [b.name]);
    SendInTurn(env, w1, b.name, b.name, e);
    OnlineTurn(env, w1, b.name, e);
    assert Send(env, w1, 1, e) == w2;
    CleanupLoses(env, w2, 1, 1);
    assert Cleanup(env, w0, 1) == Cleanup(env, w2, 1);
  }

  lemma OneLeftFits(g: Group, name: Bytes)
    requires ValidGroup(g) && g.members == [g.members[0], name]
    ensures FitsAsLeft(g.(members := [name]))
  {
    assert ValidName(g.members[1]);
    SmallGroupsFit(EVENT_MEMBER_LEFT, g.(members := [name]));
  }

  lemma BothOnSocket(a: User, b: User)
    requires UsersOk([a, b]) && At(a, 1) && At(b, 1)
    ensures var us, us1 := [a, b], [a.(online := false, fd := -1), b];
            && FindFd(us, 1) == 0 && SetOffline(us, 0) == us1 && ValidName(a.name) && GetFd(us1, b.name) == Fd(1)
            && OnSocket(us, 1) == 2 && OnSocket(us1, 1) == 1
  {
    var us, us1 := [a, b], [a.(online := false, fd := -1), b];
    assert ValidUser(us[0]) && ValidUser(us[1]) && us[0].name != us[1].name;
    FindFdIs(us, 1, 0);
    FindUserIs(us1, b.name, 1);
    assert us[1..] == [b] && us1[1..] == [b] && [b][1..] == [];
    assert OnSocket([b], 1) == 1 + OnSocket([b][1..], 1) == 1;
  }
}
