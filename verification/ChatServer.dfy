/**
 The server of server/server.c over the two mutable stores. Each method is proved to do exactly what
 the function of the same name in `ServerModel` says, for every pattern of send results.
 */
module ChatServer {
  import opened Basics
  import opened Wire
  import opened Credentials
  import opened GroupModel
  import opened Payload
  import opened UserModel
  import opened ServerModel
  import GS = GroupStore
  import US = UserStore

  /** The sockets: every send is recorded, `fate` decides which succeed. */
  class Network {
    const fate: nat -> bool
    var log: seq<Attempt>

    constructor (fate: nat -> bool)
      ensures this.fate == fate && log == []
    {
      this.fate, log := fate, [];
    }

    method SendPacket(fd: int, p: Packet) returns (ok: bool)
      modifies this
      ensures ok == fate(|old(log)|) && log == old(log) + [Attempt(fd, p, ok)]
    {
      ok := fate(|log|);
      log := log + [Attempt(fd, p, ok)];
    }
  }

  class Server {
    const env: Env
    const users: US.UserStore
    const groups: GS.GroupStore
    const net: Network

    ghost predicate Valid()
      reads this, users, users.Repr, groups, groups.Repr, net
    {
      && users.Valid() && groups.Valid()
      && users.Repr !! groups.Repr && net !in users.Repr && net !in groups.Repr
      && users.digest == env.digest && net.fate == env.fate
    }

    /** The state as a value. */
    ghost function View(): World
      reads users, groups, net
    {
      World(users.Contents, users.storage, groups.Contents, groups.Issued, net.log)
    }

    /** `main`: both stores set up and the user file loaded */
    constructor (env: Env, storage: Bytes)
      ensures Valid() && View() == Start(storage)
    {
      this.env := env;
      users := new US.UserStore(env.digest, storage);
      groups := new GS.GroupStore();
      net := new Network(env.fate);
      new;
      var _ := users.Load(true);
    }

    method SendTo(fd: int, p: Packet) returns (ok: bool)
      requires Valid()
      modifies net
      ensures Valid() && ok == Delivers(env, old(View())) && View() == Send(env, old(View()), fd, p)
    {
      ok := net.SendPacket(fd, p);
    }

    method SendText(fd: int, kind: int, reply: Reply)
      requires Valid()
      modifies net
      ensures Valid() && View() == Answer(env, old(View()), fd, kind, reply)
    {
      var _ := SendTo(fd, TextPacket(kind, env.wording(reply)));
    }

    // ---------- the cascade ----------

    method CleanupOfflineFd(fd: int)
      requires Valid()
      modifies users.Repr, groups.Repr, net
      ensures Valid() && View() == Cleanup(env, old(View()), fd)
      ensures users.Repr == old(users.Repr) && groups.Repr == old(groups.Repr)
      decreases OnlineCount(users.Contents), 0, 0
    {
      hide GS.GroupStore.Valid, PushChanges, PushEvent, RemoveMember, Changed, ValidUser, UniqueNames;
      ghost var before := View();
      var username := users.UsernameByFd(fd);
      if username.None? {
        var _ := users.LogOutFd(fd);
        return;
      }
      NamesAreValid(users.Contents, fd);
      OfflineLowersCount(users.Contents, FindFd(users.Contents, fd));
      var _, changes := groups.RemoveMemberEverywhere(username.value, GROUP_EVENT_MAX_CHANGES);
      var _ := users.LogOutFd(fd);
      ghost var start := View();
      assert Cleanup(env, before, fd) == PushChanges(env, start, changes);
      var i := 0;
      assert changes[0..] == changes;
      while i < |changes|
        invariant i <= |changes| && Valid()
        invariant users.Repr == old(users.Repr) && groups.Repr == old(groups.Repr)
        invariant OnlineCount(users.Contents) < OnlineCount(before.users)
        invariant PushChanges(env, start, changes) == PushChanges(env, View(), changes[i..])
      {
        PushNext(env, View(), changes, i);
        PushGroupEvent(EVENT_MEMBER_LEFT, changes[i]);
        i := i + 1;
      }
      PushNoMore(env, View(), changes[i..]);
    }

    method PushGroupEvent(event: Bytes, g: Group)
      requires Valid()
      modifies users.Repr, groups.Repr, net
      ensures Valid() && View() == PushEvent(env, old(View()), event, g)
      ensures users.Repr == old(users.Repr) && groups.Repr == old(groups.Repr)
      decreases OnlineCount(users.Contents), 3, 0
    {
      var payload := BuildEvent(event, g);
      if payload.None? {
        return;
      }
      SendToMembers(g.members, PackedPacket(MSG_GROUP_EVENT, SERVER_NAME, g.id, payload.value));
    }

    /** The member loop shared by events and group messages. */
    method SendToMembers(members: seq<Bytes>, p: Packet)
      requires Valid()
      modifies users.Repr, groups.Repr, net
      ensures Valid() && View() == SendEach(env, old(View()), members, p)
      ensures users.Repr == old(users.Repr) && groups.Repr == old(groups.Repr)
      decreases OnlineCount(users.Contents), 2, 0
    {
      hide US.UserStore.Valid, GS.GroupStore.Valid, SendToMember, SendEach, GetFd;
      ghost var start := View();
      var i := 0;
      assert members[0..] == members;
      while i < |members|
        invariant i <= |members| && Valid()
        invariant users.Repr == old(users.Repr) && groups.Repr == old(groups.Repr)
        invariant OnlineCount(users.Contents) <= OnlineCount(start.users)
        invariant SendEach(env, start, members, p) == SendEach(env, View(), members[i..], p)
      {
        ghost var before := View();
        SendNext(env, before, members, i, p);
        var memberFd := users.FdOf(members[i]);
        if memberFd.Fd? {
          SendGroupPayload(memberFd.fd, p);
        }
        i := i + 1;
      }
      SendNoMore(env, View(), members[i..], p);
    }

    /** `send_group_payload_to_fd` */
    method SendGroupPayload(fd: int, p: Packet)
      requires Valid()
      modifies users.Repr, groups.Repr, net
      ensures Valid() && View() == SendOrCleanup(env, old(View()), fd, p)
      ensures users.Repr == old(users.Repr) && groups.Repr == old(groups.Repr)
      decreases OnlineCount(users.Contents), 1, 0
    {
      var ok := SendTo(fd, p);
      if !ok {
        CleanupOfflineFd(fd);
      }
    }

    // ---------- the handlers ----------

    method OnRegister(fd: int, p: Packet, salt: Option<Salt>, appended: bool)
      requires Valid()
      modifies users.Repr, net
      ensures Valid() && View() == HandleRegister(env, old(View()), fd, p, salt, appended)
      ensures fresh(users.Repr - old(users.Repr))
    {
      hide Register;
      var rc := users.RegisterUser(CString(p.sender), CString(p.data), salt, appended);
      if rc == Ok {
        SendText(fd, MSG_OK, RegisterOk);
      } else {
        SendText(fd, MSG_ERROR, UserFailure(rc));
      }
    }

    method OnLogin(fd: int, p: Packet)
      requires Valid()
      modifies users.Repr, net
      ensures Valid() && View() == HandleLogin(env, old(View()), fd, p) && users.Repr == old(users.Repr)
    {
      hide LoginUser;
      var rc := users.LogIn(CString(p.sender), CString(p.data), fd);
      if rc == Ok {
        SendText(fd, MSG_OK, LoginOk);
      } else {
        SendText(fd, MSG_ERROR, UserFailure(rc));
      }
    }

    method OnOnlineList(fd: int)
      requires Valid()
      modifies net
      ensures Valid() && View() == HandleOnlineList(env, old(View()), fd)
    {
      hide OnlineText;
      var text, count := users.OnlineList();
      if text.None? {
        SendText(fd, MSG_ERROR, UserFailure(IoFailure));
      } else if count == 0 {
        SendText(fd, MSG_ONLINE_LIST, NobodyOnline);
      } else {
        var _ := SendTo(fd, TextPacket(MSG_ONLINE_LIST, text.value));
      }
    }

    method OnPrivate(fd: int, p: Packet)
      requires Valid()
      modifies users.Repr, groups.Repr, net
      ensures Valid() && View() == HandlePrivate(env, old(View()), fd, p)
      ensures users.Repr == old(users.Repr) && groups.Repr == old(groups.Repr)
    {
      var target := users.FdOf(CString(p.receiver));
      if target.NoFd? {
        SendText(fd, MSG_ERROR, UserFailure(target.error));
        return;
      }
      var ok := SendTo(target.fd, p);
      if !ok {
        CleanupOfflineFd(target.fd);
        SendText(fd, MSG_ERROR, PeerLost);
        return;
      }
      SendText(fd, MSG_OK, PrivateSent);
    }

    method OnFile(fd: int, p: Packet)
      requires Valid()
      modifies users.Repr, groups.Repr, net
      ensures Valid() && View() == HandleFile(env, old(View()), fd, p)
      ensures users.Repr == old(users.Repr) && groups.Repr == old(groups.Repr)
    {
      var target := users.FdOf(CString(p.receiver));
      if target.NoFd? {
        SendText(fd, MSG_ERROR, UserFailure(target.error));
        return;
      }
      var ok := SendTo(target.fd, p);
      if !ok {
        CleanupOfflineFd(target.fd);
        SendText(fd, MSG_ERROR, PeerLost);
        return;
      }
      if p.kind == MSG_FILE_END {
        SendText(fd, MSG_OK, FileSent);
      }
    }

    method OnGroup(fd: int, p: Packet)
      requires Valid()
      modifies users.Repr, groups.Repr, net
      ensures Valid() && View() == HandleGroup(env, old(View()), fd, p)
      ensures users.Repr == old(users.Repr) && groups.Repr == old(groups.Repr)
    {
      hide US.UserStore.Valid, GS.GroupStore.Valid, SendToFds, SendOrCleanup, OnlineFds, TextPacket;
      var fds := users.SnapshotOnlineFds(fd, MAX_ONLINE_SNAPSHOT);
      if |fds| == 0 {
        SendText(fd, MSG_ERROR, NobodyElse);
        return;
      }
      ghost var start := View();
      var i := 0;
      assert fds[0..] == fds;
      while i < |fds|
        invariant i <= |fds| && Valid()
        invariant users.Repr == old(users.Repr) && groups.Repr == old(groups.Repr)
        invariant SendToFds(env, start, fds, p) == SendToFds(env, View(), fds[i..], p)
      {
        FdsNext(env, View(), fds, i, p);
        SendGroupPayload(fds[i], p);
        i := i + 1;
      }
      FdsNoMore(env, View(), fds[i..], p);
      SendText(fd, MSG_OK, BroadcastSent);
    }

    /** The online check of `handle_group_create`; `offline` stops it at the first member not online. */
    method CheckMembers(members: seq<Bytes>, username: Bytes) returns (offline: bool, hasOther: bool)
      requires Valid()
      ensures offline <==> !AllOnline(users.Contents, members)
      ensures !offline ==> (hasOther <==> exists i :: 0 <= i < |members| && members[i] != username)
    {
      hasOther := false;
      var i := 0;
      while i < |members|
        invariant i <= |members| && Valid()
        invariant forall k :: 0 <= k < i ==> GetFd(users.Contents, members[k]).Fd?
        invariant hasOther <==> exists k :: 0 <= k < i && members[k] != username
      {
        if members[i] != username {
          hasOther := true;
        }
        var memberFd := users.FdOf(members[i]);
        if memberFd.NoFd? {
          return true, hasOther;
        }
        i := i + 1;
      }
      return false, hasOther;
    }

    method CheckCreateRequest(fd: int, p: Packet) returns (r: CreateRequest)
      requires Valid()
      ensures r == CheckCreate(View(), fd, p)
    {
      hide Fields;
      var username := users.UsernameByFd(fd);
      if username.None? {
        return Refused(PleaseLogIn);
      }
      var fields := ParseFields(p.data);
      if fields.None? || |fields.value| < 2 || |fields.value| - 1 > GROUP_MAX_MEMBERS {
        return Refused(BadCreateData);
      }
      var members := fields.value[1..];
      var offline, hasOther := CheckMembers(members, username.value);
      if offline {
        return Refused(MembersOffline);
      }
      if !hasOther {
        return Refused(ChooseSomeone);
      }
      return Wanted(username.value, fields.value[0], members);
    }

    method OnGroupCreate(fd: int, p: Packet)
      requires Valid()
      modifies users.Repr, groups.Repr, net
      ensures Valid() && View() == HandleGroupCreate(env, old(View()), fd, p)
      ensures users.Repr == old(users.Repr) && fresh(groups.Repr - old(groups.Repr))
    {
      hide CheckCreate, CreateGroup, PushEvent, US.UserStore.Valid, GS.GroupStore.Valid, TextPacket;
      var request := CheckCreateRequest(fd, p);
      if request.Refused? {
        SendText(fd, MSG_ERROR, request.reply);
        return;
      }
      var created := groups.Create(request.user, request.name, request.members);
      if created.CreateFailed? {
        SendText(fd, MSG_ERROR, GroupFailure(created.error));
        return;
      }
      PushGroupEvent(EVENT_CREATED, created.group);
      SendText(fd, MSG_OK, GroupCreated);
    }

    method OnGroupList(fd: int)
      requires Valid()
      modifies users.Repr, groups.Repr, net
      ensures Valid() && View() == HandleGroupList(env, old(View()), fd)
      ensures users.Repr == old(users.Repr) && groups.Repr == old(groups.Repr)
    {
      var username := users.UsernameByFd(fd);
      if username.None? {
        SendText(fd, MSG_ERROR, PleaseLogIn);
        return;
      }
      NamesAreValid(users.Contents, fd);
      var payload := groups.BuildListPayload(username.value);
      if payload.ListFailed? {
        SendText(fd, MSG_ERROR, GroupFailure(payload.error));
        return;
      }
      SendGroupPayload(fd, PackedPacket(MSG_GROUP_LIST, SERVER_NAME, username.value, payload.payload));
    }

    method OnGroupMessage(fd: int, p: Packet)
      requires Valid()
      modifies users.Repr, groups.Repr, net
      ensures Valid() && View() == HandleGroupMessage(env, old(View()), fd, p)
      ensures users.Repr == old(users.Repr) && groups.Repr == old(groups.Repr)
    {
      hide Build, GS.FindGroup, MemberIndex, US.UserStore.Valid, GS.GroupStore.Valid, TextPacket, PacketText, CString, Fixed;
      var username := users.UsernameByFd(fd);
      if username.None? {
        SendText(fd, MSG_ERROR, PleaseLogIn);
        return;
      }
      var text := PacketText(p);
      if CString(p.receiver) == [] || text.None? || text.value == [] {
        SendText(fd, MSG_ERROR, BadMessageData);
        return;
      }
      var snapshot := groups.GetSnapshot(CString(p.receiver));
      if snapshot.Missing? {
        SendText(fd, MSG_ERROR, GroupFailure(snapshot.error));
        return;
      }
      if MemberIndex(snapshot.group.members, username.value) < 0 {
        SendText(fd, MSG_ERROR, GroupFailure(NotMember));
        return;
      }
      var payload := BuildMessage(snapshot.group, text.value);
      if payload.None? {
        SendText(fd, MSG_ERROR, GroupFailure(GroupError.Payload));
        return;
      }
      SendToMembers(snapshot.group.members,
                    PackedPacket(MSG_GROUP_MESSAGE, username.value, snapshot.group.id, payload.value));
      SendText(fd, MSG_OK, GroupMessageSent);
    }

    /** `process_packet`: one atomic step. */
    method ProcessPacket(fd: int, p: Packet, salt: Option<Salt>, appended: bool)
      requires Valid()
      modifies users.Repr, groups.Repr, net
      ensures Valid() && View() == Step(env, old(View()), Arrived(fd, p, salt, appended))
      ensures fresh(users.Repr - old(users.Repr)) && fresh(groups.Repr - old(groups.Repr))
    {
      hide HandleRegister, HandleLogin, HandleOnlineList, HandlePrivate, HandleGroup, HandleGroupCreate, HandleGroupList,
        HandleGroupMessage, HandleFile, Cleanup;
      if p.kind == MSG_REGISTER {
        OnRegister(fd, p, salt, appended);
      } else if p.kind == MSG_LOGIN {
        OnLogin(fd, p);
      } else if p.kind == MSG_ONLINE_LIST {
        OnOnlineList(fd);
      } else if p.kind == MSG_PRIVATE {
        OnPrivate(fd, p);
      } else if p.kind == MSG_GROUP {
        OnGroup(fd, p);
      } else if p.kind == MSG_GROUP_CREATE {
        OnGroupCreate(fd, p);
      } else if p.kind == MSG_GROUP_LIST {
        OnGroupList(fd);
      } else if p.kind == MSG_GROUP_MESSAGE {
        OnGroupMessage(fd, p);
      } else if p.kind == MSG_FILE_BEGIN || p.kind == MSG_FILE_CHUNK || p.kind == MSG_FILE_END {
        OnFile(fd, p);
      } else if p.kind == MSG_LOGOUT {
        CleanupOfflineFd(fd);
        SendText(fd, MSG_OK, LoggedOut);
      } else if p.kind == MSG_HEARTBEAT {
        SendText(fd, MSG_OK, HeartbeatOk);
      } else {
        SendText(fd, MSG_ERROR, BadKind);
      }
    }

    /** The loop of `client_handler` on one connection, ending in the cleanup of its socket. */
    method ClientHandler(fd: int, packets: seq<Event>)
      requires Valid() && forall i :: 0 <= i < |packets| ==> packets[i].Arrived? && packets[i].fd == fd
      modifies users.Repr, groups.Repr, net
      ensures Valid() && View() == Run(env, old(View()), packets + [HungUp(fd)])
    {
      hide Process, Cleanup;
      ghost var start := View();
      var i := 0;
      ghost var all := packets + [HungUp(fd)];
      assert all[0..] == all;
      while i < |packets|
        invariant i <= |packets| && Valid()
        invariant fresh(users.Repr - old(users.Repr)) && fresh(groups.Repr - old(groups.Repr))
        invariant Run(env, start, all) == Run(env, View(), all[i..])
      {
        assert all[i..][0] == packets[i] && all[i..][1..] == all[i + 1..];
        ProcessPacket(fd, packets[i].packet, packets[i].salt, packets[i].appended);
        i := i + 1;
      }
      assert all[i..] == [HungUp(fd)] && [HungUp(fd)][1..] == [];
      CleanupOfflineFd(fd);
      assert Run(env, View(), []) == View();
    }
  }

  lemma SendNext(env: Env, w: World, members: seq<Bytes>, i: nat, p: Packet)
    requires i < |members|
    ensures SendEach(env, w, members[i..], p) == SendEach(env, SendToMember(env, w, members[i], p), members[i + 1..], p)
    ensures SendToMember(env, w, members[i], p)
            == if GetFd(w.users, members[i]).Fd? then SendOrCleanup(env, w, GetFd(w.users, members[i]).fd, p) else w
  {
    assert members[i..][0] == members[i] && members[i..][1..] == members[i + 1..];
  }

  lemma SendNoMore(env: Env, w: World, members: seq<Bytes>, p: Packet)
    ensures members == [] ==> SendEach(env, w, members, p) == w
  {
  }

  lemma FdsNext(env: Env, w: World, fds: seq<int>, i: nat, p: Packet)
    requires i < |fds|
    ensures SendToFds(env, w, fds[i..], p) == SendToFds(env, SendOrCleanup(env, w, fds[i], p), fds[i + 1..], p)
  {
    hide SendOrCleanup;
    assert fds[i..][0] == fds[i] && fds[i..][1..] == fds[i + 1..];
  }

  lemma FdsNoMore(env: Env, w: World, fds: seq<int>, p: Packet)
    ensures fds == [] ==> SendToFds(env, w, fds, p) == w
  {
  }

  lemma PushNext(env: Env, w: World, changes: seq<Group>, i: nat)
    requires i < |changes|
    ensures PushChanges(env, w, changes[i..]) == PushChanges(env, PushEvent(env, w, EVENT_MEMBER_LEFT, changes[i]), changes[i + 1..])
  {
    assert changes[i..][0] == changes[i] && changes[i..][1..] == changes[i + 1..];
  }

  lemma PushNoMore(env: Env, w: World, changes: seq<Group>)
    ensures changes == [] ==> PushChanges(env, w, changes) == w
  {
  }

  lemma NamesAreValid(us: seq<User>, fd: int)
    requires UsersOk(us)
    ensures NameByFd(us, fd).Some? ==> ValidName(NameByFd(us, fd).value)
  {
    if NameByFd(us, fd).Some? { assert ValidUser(us[FindFd(us, fd)]); }
  }
}
