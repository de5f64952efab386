/**
 The gateway's mirror of a user's groups: once the packets in flight have arrived it is exactly the
 server's groups with that user in them.
 */
module CacheAgreement {
  import opened Basics
  import opened Wire
  import opened GroupModel
  import opened Payload
  import opened UserModel
  import opened ServerModel
  import opened ServerRuns
  import opened ChatSystem
  import opened ResponseMatching
  import G = Gateway

  // ---------- agreement ----------

  /** The mirror holds exactly the groups of `user`: same id, name, creator and ordered members. */
  ghost predicate Agrees(cache: map<Bytes, G.GroupInfo>, gs: seq<Group>, user: Bytes) {
    && (forall i :: 0 <= i < |gs| && user in gs[i].members ==> gs[i].id in cache && cache[gs[i].id] == G.InfoOf(gs[i]))
    && (forall id :: id in cache ==> exists i :: 0 <= i < |gs| && gs[i].id == id && user in gs[i].members)
  }

  /** A session after the packets `ps` have arrived. */
  function Absorb(s: G.Session, ps: seq<Packet>): G.Session
    decreases |ps|
  {
    if ps == [] then s else Absorb(Receive(s, ps[0]), ps[1..])
  }

  function PacketsOf(down: seq<Down>): seq<Packet> {
    seq(|down|, i requires 0 <= i < |down| => down[i].packet)
  }

  /** A session after everything in flight on its connection has arrived. */
  function CaughtUp(l: Link): G.Session
    requires l.Session?
  {
    Absorb(l.session, PacketsOf(l.down))
  }

  lemma {:induction false} AbsorbAppend(s: G.Session, a: seq<Packet>, b: seq<Packet>)
    ensures Absorb(s, a + b) == Absorb(Absorb(s, a), b)
    decreases |a|
  {
    if a == [] {
      assert a + b == b;
    } else {
      assert (a + b)[0] == a[0] && (a + b)[1..] == a[1..] + b;
      AbsorbAppend(Receive(s, a[0]), a[1..], b);
    }
  }

  /** When all answers in flight have arrived the queue holds just the requests still going up. */
  lemma CaughtUpQueue(l: Link)
    requires l.Session? && Matched(l)
    ensures CaughtUp(l).pending == Tags(l.up)
    decreases if l.Session? then |l.down| else 0
  {
    hide Receive;
    if l.down == [] {
      assert [] + Tags(l.up) == Tags(l.up);
    } else {
      var next := Session(Receive(l.session, l.down[0].packet), l.up, l.down[1..]);
      DeliveryStaysMatched(l);
      CaughtUpQueue(next);
      assert PacketsOf(l.down)[1..] == PacketsOf(next.down);
    }
  }

  // ---------- packets that leave the mirror alone ----------

  predicate PlainKind(kind: int) {
    !IsAnswer(kind) && kind != MSG_GROUP_LIST && kind != MSG_GROUP_EVENT && kind != MSG_GROUP_MESSAGE
  }

  predicate QuietFor(p: Packet, groups: map<Bytes, G.GroupInfo>) {
    || PlainKind(p.kind) || IsAnswer(p.kind)
    || (p.kind == MSG_GROUP_MESSAGE && (DecodeMessage(p.data).Some? ==> G.Named(groups, DecodeMessage(p.data).value) == groups))
  }

  function AnswerCount(ps: seq<Packet>): nat {
    if ps == [] then 0 else (if IsAnswer(ps[0].kind) then 1 else 0) + AnswerCount(ps[1..])
  }

  predicate SameMirror(s: G.Session, r: G.Session) {
    r.loggedIn == s.loggedIn && r.username == s.username && r.groups == s.groups
  }

  /** An answer to anything but a successful login or a logout. */
  predicate QuietAnswer(tag: G.Pending, ps: seq<Packet>) {
    && tag != G.Status(G.DoLogout)
    && (tag.Auth? && tag.auth == G.DoLogin ==> forall i :: 0 <= i < |ps| ==> ps[i].kind != MSG_OK)
  }

  lemma {:induction false} QuietPackets(s: G.Session, ps: seq<Packet>)
    requires forall i :: 0 <= i < |ps| ==> QuietFor(ps[i], s.groups)
    requires AnswerCount(ps) == 0 || (AnswerCount(ps) == 1 && s.pending != [] && QuietAnswer(s.pending[0], ps))
    ensures SameMirror(s, Absorb(s, ps))
    decreases |ps|
  {
    hide DecodeMessage, G.DecodeFileBegin, ListOf, DecodeEvent;
    if ps != [] {
      var r := Receive(s, ps[0]);
      assert SameMirror(s, r);
      forall i | 0 <= i < |ps[1..]| ensures QuietFor(ps[1..][i], r.groups) {
        assert ps[1..][i] == ps[i + 1];
      }
      if !IsAnswer(ps[0].kind) {
        assert r.pending == s.pending;
      }
      QuietPackets(r, ps[1..]);
    }
  }

  // ---------- who gets what ----------

  /** The packets a step sent to one socket. */
  function PacketsTo(log: seq<Attempt>, fd: int): seq<Packet> {
    if log == [] then [] else (if log[0].fd == fd then [log[0].packet] else []) + PacketsTo(log[1..], fd)
  }

  lemma {:induction false} PacketsToAppend(a: seq<Attempt>, b: seq<Attempt>, fd: int)
    ensures PacketsTo(a + b, fd) == PacketsTo(a, fd) + PacketsTo(b, fd)
  {
    if a == [] {
      assert a + b == b;
    } else {
      PacketsToAppend(a[1..], b, fd);
      assert (a + b)[0] == a[0] && (a + b)[1..] == a[1..] + b;
      Regroup(if a[0].fd == fd then [a[0].packet] else [], PacketsTo(a[1..], fd), PacketsTo(b, fd));
    }
  }

  lemma {:induction false} DownsAreThePackets(log: seq<Attempt>, to: int, fd: int, tag: Option<G.Pending>)
    ensures PacketsOf(DownsTo(log, to, fd, tag)) == PacketsTo(log, to)
  {
    hide IsAnswer;
    if log != [] {
      DownsAreThePackets(log[1..], to, fd, tag);
      var rest := DownsTo(log[1..], to, fd, tag);
      if log[0].fd == to { assert DownsTo(log, to, fd, tag)[1..] == rest; }
    }
  }

  ghost predicate WasSent(log: seq<Attempt>, fd: int, p: Packet) {
    exists k :: 0 <= k < |log| && log[k].fd == fd && log[k].packet == p
  }

  lemma {:induction false} PacketsToWereSent(log: seq<Attempt>, fd: int)
    ensures forall i :: 0 <= i < |PacketsTo(log, fd)| ==> WasSent(log, fd, PacketsTo(log, fd)[i])
  {
    if log != [] {
      PacketsToWereSent(log[1..], fd);
      forall p | WasSent(log[1..], fd, p) ensures WasSent(log, fd, p) {
        var k :| 0 <= k < |log[1..]| && log[1..][k].fd == fd && log[1..][k].packet == p;
        assert log[k + 1] == log[1..][k];
      }
      assert log[0].fd == fd ==> WasSent(log, fd, log[0].packet);
    }
  }

  /** If all answers of a step go to one socket, that socket gets them all and the others none. */
  lemma {:induction false} AnswersToOne(log: seq<Attempt>, fd: int, to: int)
    requires forall i :: 0 <= i < |Answers(log)| ==> Answers(log)[i] == fd
    ensures AnswerCount(PacketsTo(log, to)) == if to == fd then |Answers(log)| else 0
  {
    if log != [] {
      var rest, all := Answers(log[1..]), Answers(log);
      if IsAnswer(log[0].packet.kind) {
        assert all[0] == log[0].fd && all[1..] == rest;
        assert forall i :: 0 <= i < |rest| ==> rest[i] == all[i + 1];
      } else {
        assert all == rest;
      }
      AnswersToOne(log[1..], fd, to);
      if log[0].fd == to {
        assert PacketsTo(log, to)[1..] == PacketsTo(log[1..], to);
      } else {
        assert PacketsTo(log, to) == PacketsTo(log[1..], to);
      }
    }
  }

  /** No two users online on the same socket. */
  predicate OneEach(us: seq<User>) {
    forall i, j :: 0 <= i < j < |us| && us[i].online && us[j].online ==> us[i].fd != us[j].fd
  }

  lemma SocketOfUser(us: seq<User>, fd: int, name: Bytes)
    requires UsersOk(us) && OneEach(us) && ValidName(name)
    ensures GetFd(us, name) == Fd(fd) <==> NameByFd(us, fd) == Some(name)
  {
    var i, k := FindUser(us, name), FindFd(us, fd);
    if GetFd(us, name) == Fd(fd) {
      assert At(us[i], fd);
      assert us[k].online && us[i].online;
    }
    if NameByFd(us, fd) == Some(name) {
      FindUserAt(us, k);
    }
  }

  /** The sends of `SendEach` when none fails. */
  function Copies(us: seq<User>, members: seq<Bytes>, p: Packet): seq<Attempt> {
    if members == [] then []
    else (match GetFd(us, members[0]) case NoFd(_) => [] case Fd(fd) => [Attempt(fd, p, true)]) + Copies(us, members[1..], p)
  }

  lemma ReliableCopies(env: Env, w: World, members: seq<Bytes>, p: Packet)
    requires ReliableFor(env, |w.log|, |Copies(w.users, members, p)|)
    ensures SendEach(env, w, members, p) == w.(log := w.log + Copies(w.users, members, p))
    decreases |members|
  {
    hide GetFd, Cleanup;
    if members == [] {
      assert w.log + [] == w.log;
    } else {
      var more := Copies(w.users, members[1..], p);
      match GetFd(w.users, members[0])
      case NoFd(_) =>
        assert SendToMember(env, w, members[0], p) == w && [] + more == more;
        ReliableCopies(env, w, members[1..], p);
      case Fd(fd) =>
        var w1 := Send(env, w, fd, p);
        assert env.fate(|w.log|);
        assert SendToMember(env, w, members[0], p) == SendOrCleanup(env, w, fd, p) == w1;
        ReliableCopies(env, w1, members[1..], p);
        Regroup(w.log, [Attempt(fd, p, true)], more);
    }
  }

  lemma {:induction false} CopiesCarry(us: seq<User>, members: seq<Bytes>, p: Packet)
    ensures forall i :: 0 <= i < |Copies(us, members, p)| ==> Copies(us, members, p)[i].ok && Copies(us, members, p)[i].packet == p
  {
    hide GetFd;
    if members != [] { CopiesCarry(us, members[1..], p); }
  }

  /** Each socket gets one copy exactly when its user is among the members. */
  lemma {:induction false} CopiesReachMembers(us: seq<User>, members: seq<Bytes>, p: Packet, fd: int)
    requires UsersOk(us) && OneEach(us) && ValidMembers(members)
    ensures PacketsTo(Copies(us, members, p), fd)
            == if NameByFd(us, fd).Some? && NameByFd(us, fd).value in members then [p] else []
  {
    hide NameByFd, GetFd, FindUser, FindFd, UsersOk, OneEach, ValidName;
    if members != [] {
      var rest := Copies(us, members[1..], p);
      CopiesReachMembers(us, members[1..], p, fd);
      SocketOfUser(us, fd, members[0]);
      match GetFd(us, members[0])
      case NoFd(_) => assert Copies(us, members, p) == rest;
      case Fd(f) =>
        PacketsToAppend([Attempt(f, p, true)], rest, fd);
        assert [Attempt(f, p, true)][1..] == [];
    }
  }

  // ---------- departures ----------

  /** The sends of `PushChanges` when none fails. */
  function LeftCopies(us: seq<User>, changes: seq<Group>): seq<Attempt> {
    if changes == [] then []
    else (if FitsAsLeft(changes[0]) then Copies(us, changes[0].members, LeftPacket(changes[0])) else [])
         + LeftCopies(us, changes[1..])
  }

  lemma ReliableLeft(env: Env, w: World, changes: seq<Group>)
    requires ReliableFor(env, |w.log|, |LeftCopies(w.users, changes)|)
    ensures PushChanges(env, w, changes) == w.(log := w.log + LeftCopies(w.users, changes))
  {
    assert changes + [] == changes;
    LeftThenRest(env, w, changes, []);
  }

  /** Changes pushed without a failed send, and the rest after them. */
  lemma LeftThenRest(env: Env, w: World, changes: seq<Group>, rest: seq<Group>)
    requires ReliableFor(env, |w.log|, |LeftCopies(w.users, changes)|)
    ensures PushChanges(env, w, changes + rest) == PushChanges(env, w.(log := w.log + LeftCopies(w.users, changes)), rest)
    decreases |changes|
  {
    hide Build, EventFields, Copies, SendEach, PushChanges;
    if changes == [] {
      assert w.log + [] == w.log && changes + rest == rest;
    } else {
      var g, more := changes[0], changes[1..];
      var first := if FitsAsLeft(g) then Copies(w.users, g.members, LeftPacket(g)) else [];
      var w1 := w.(log := w.log + first);
      assert changes + rest == [g] + (more + rest);
      OneRound(env, w, g, more + rest);
      assert LeftCopies(w.users, changes) == first + LeftCopies(w.users, more);
      LeftThenRest(env, w1, more, rest);
      Regroup(w.log, first, LeftCopies(w.users, more));
    }
  }

  lemma OneRound(env: Env, w: World, g: Group, rest: seq<Group>)
    requires FitsAsLeft(g) ==> ReliableFor(env, |w.log|, |Copies(w.users, g.members, LeftPacket(g))|)
    ensures PushChanges(env, w, [g] + rest)
            == PushChanges(env, w.(log := w.log + if FitsAsLeft(g) then Copies(w.users, g.members, LeftPacket(g)) else []), rest)
  {
    hide Copies, SendEach, Build, EventFields;
    if FitsAsLeft(g) {
      PushRound(env, w, g, rest);
      ReliableCopies(env, w, g.members, LeftPacket(g));
    } else {
      assert ([g] + rest)[0] == g && ([g] + rest)[1..] == rest && w.log + [] == w.log;
    }
  }

  /** The changes that a member is told of: those that fit and concern it. */
  function ToldOf(changes: seq<Group>, user: Bytes): seq<Group> {
    if changes == [] then []
    else (if FitsAsLeft(changes[0]) && user in changes[0].members then [changes[0]] else []) + ToldOf(changes[1..], user)
  }

  function LeftPackets(changes: seq<Group>): seq<Packet>
    requires forall i :: 0 <= i < |changes| ==> FitsAsLeft(changes[i])
  {
    if changes == [] then [] else [LeftPacket(changes[0])] + LeftPackets(changes[1..])
  }

  lemma {:induction false} ToldOfMeaning(changes: seq<Group>, user: Bytes)
    ensures forall i :: 0 <= i < |ToldOf(changes, user)| ==> FitsAsLeft(ToldOf(changes, user)[i])
    ensures forall g :: g in ToldOf(changes, user) <==> g in changes && FitsAsLeft(g) && user in g.members
    ensures DistinctIds(changes) ==> DistinctIds(ToldOf(changes, user))
  {
    hide Build, EventFields;
    if changes != [] {
      ToldOfMeaning(changes[1..], user);
      var t := ToldOf(changes[1..], user);
      if FitsAsLeft(changes[0]) && user in changes[0].members {
        assert ToldOf(changes, user) == [changes[0]] + t;
        if DistinctIds(changes) {
          forall j | 0 <= j < |t| ensures t[j].id != changes[0].id {
            assert t[j] in changes[1..];
          }
        }
      } else {
        assert ToldOf(changes, user) == t;
      }
    }
  }

  lemma {:induction false} LeftCarries(us: seq<User>, changes: seq<Group>)
    ensures forall i :: 0 <= i < |LeftCopies(us, changes)| ==>
              LeftCopies(us, changes)[i].ok && LeftCopies(us, changes)[i].packet.kind == MSG_GROUP_EVENT
  {
    hide Build, EventFields, Copies;
    if changes != [] {
      LeftCarries(us, changes[1..]);
      if FitsAsLeft(changes[0]) { CopiesCarry(us, changes[0].members, LeftPacket(changes[0])); }
    }
  }

  lemma {:induction false} LeftReachesMembers(us: seq<User>, changes: seq<Group>, fd: int)
    requires UsersOk(us) && OneEach(us) && forall i :: 0 <= i < |changes| ==> ValidMembers(changes[i].members)
    ensures var told := if NameByFd(us, fd).Some? then ToldOf(changes, NameByFd(us, fd).value) else [];
            (forall i :: 0 <= i < |told| ==> FitsAsLeft(told[i])) && PacketsTo(LeftCopies(us, changes), fd) == LeftPackets(told)
  {
    hide Build, EventFields, Copies, NameByFd, UsersOk, OneEach, ValidName;
    if NameByFd(us, fd).Some? { ToldOfMeaning(changes, NameByFd(us, fd).value); }
    if changes != [] {
      var g := changes[0];
      LeftReachesMembers(us, changes[1..], fd);
      if FitsAsLeft(g) {
        CopiesReachMembers(us, g.members, LeftPacket(g), fd);
        PacketsToAppend(Copies(us, g.members, LeftPacket(g)), LeftCopies(us, changes[1..]), fd);
        if NameByFd(us, fd).Some? && NameByFd(us, fd).value in g.members {
          var t := ToldOf(changes[1..], NameByFd(us, fd).value);
          assert ([g] + t)[1..] == t;
        }
      } else {
        assert LeftCopies(us, changes) == LeftCopies(us, changes[1..]);
      }
      if NameByFd(us, fd).Some? && !(FitsAsLeft(g) && NameByFd(us, fd).value in g.members) {
        assert ToldOf(changes, NameByFd(us, fd).value) == ToldOf(changes[1..], NameByFd(us, fd).value);
      }
    }
  }

  /** What a list of events makes of the mirror. */
  function Updated(cache: map<Bytes, G.GroupInfo>, changes: seq<Group>): map<Bytes, G.GroupInfo>
    decreases |changes|
  {
    if changes == [] then cache else Updated(cache[changes[0].id := G.InfoOf(changes[0])], changes[1..])
  }

  lemma {:induction false} UpdatedLookup(cache: map<Bytes, G.GroupInfo>, changes: seq<Group>)
    requires DistinctIds(changes)
    ensures forall i :: 0 <= i < |changes| ==> changes[i].id in Updated(cache, changes)
                                               && Updated(cache, changes)[changes[i].id] == G.InfoOf(changes[i])
    ensures forall id :: (forall i :: 0 <= i < |changes| ==> changes[i].id != id) ==>
              (id in Updated(cache, changes) <==> id in cache) && (id in cache ==> Updated(cache, changes)[id] == cache[id])
    decreases |changes|
  {
    if changes != [] {
      var next := cache[changes[0].id := G.InfoOf(changes[0])];
      UpdatedLookup(next, changes[1..]);
      assert forall i :: 0 <= i < |changes[1..]| ==> changes[1..][i].id != changes[0].id;
      forall id | forall i :: 0 <= i < |changes| ==> changes[i].id != id
        ensures (id in Updated(cache, changes) <==> id in cache) && (id in cache ==> Updated(cache, changes)[id] == cache[id])
      {
        assert id != changes[0].id;
        forall i | 0 <= i < |changes[1..]| ensures changes[1..][i].id != id {
          assert changes[1..][i] == changes[i + 1];
        }
      }
    }
  }

  predicate Announced(s: G.Session, r: G.Session, cache: map<Bytes, G.GroupInfo>) {
    r.loggedIn == s.loggedIn && r.username == s.username && r.pending == s.pending && r.groups == cache
  }

  lemma OneLeftPacket(s: G.Session, g: Group)
    requires FitsAsLeft(g) && ValidGroup(g)
    ensures Announced(s, Receive(s, LeftPacket(g)), s.groups[g.id := G.InfoOf(g)])
  {
    hide Build, EventFields, DecodeEvent;
    ValidGroupNulFree(g);
    EventRoundTrip(EVENT_MEMBER_LEFT, g);
  }

  lemma {:induction false} AbsorbLeft(s: G.Session, changes: seq<Group>)
    requires forall i :: 0 <= i < |changes| ==> FitsAsLeft(changes[i]) && ValidGroup(changes[i])
    ensures Announced(s, Absorb(s, LeftPackets(changes)), Updated(s.groups, changes))
    decreases |changes|
  {
    hide Receive, ValidGroup, LeftPacket;
    if changes != [] {
      OneLeftPacket(s, changes[0]);
      AbsorbLeft(Receive(s, LeftPacket(changes[0])), changes[1..]);
      assert LeftPackets(changes)[1..] == LeftPackets(changes[1..]);
    }
  }

  ghost predicate HadMember(gs: seq<Group>, id: Bytes, name: Bytes) {
    exists i :: 0 <= i < |gs| && gs[i].id == id && name in gs[i].members
  }

  lemma {:induction false} ChangedHad(gs: seq<Group>, name: Bytes)
    requires AllValid(gs) && ValidName(name)
    ensures forall c :: c in Changed(gs, name) ==> HadMember(gs, c.id, name) && ValidGroup(c) && name !in c.members
  {
    hide ValidGroup, MemberIndex, FilterOut, HadMember;
    if gs != [] {
      ChangedHad(gs[1..], name);
      LeaveOne(gs[0], name);
      HadMemberHere(gs, name);
      forall c | c in Changed(gs[1..], name) ensures HadMember(gs, c.id, name) { HadMemberLater(gs, c.id, name); }
    }
  }

  lemma HadMemberHere(gs: seq<Group>, name: Bytes)
    requires gs != []
    ensures name in gs[0].members ==> HadMember(gs, gs[0].id, name)
  {
  }

  lemma HadMemberLater(gs: seq<Group>, id: Bytes, name: Bytes)
    requires gs != [] && HadMember(gs[1..], id, name)
    ensures HadMember(gs, id, name)
    ensures DistinctIds(gs) ==> id != gs[0].id
  {
    var i :| 0 <= i < |gs[1..]| && gs[1..][i].id == id && name in gs[1..][i].members;
    assert gs[i + 1] == gs[1..][i];
  }

  lemma {:induction false} ChangedDistinct(gs: seq<Group>, name: Bytes)
    requires AllValid(gs) && ValidName(name) && DistinctIds(gs)
    ensures DistinctIds(Changed(gs, name))
    ensures forall c :: 0 <= c < |Changed(gs, name)| ==>
              && HadMember(gs, Changed(gs, name)[c].id, name)
              && ValidGroup(Changed(gs, name)[c]) && name !in Changed(gs, name)[c].members
  {
    hide ValidGroup, MemberIndex, FilterOut, HadMember;
    ChangedHad(gs, name);
    if gs != [] {
      ChangedDistinct(gs[1..], name);
      ChangedHad(gs[1..], name);
      var rest := Changed(gs[1..], name);
      forall c | c in rest ensures c.id != gs[0].id { HadMemberLater(gs, c.id, name); }
    }
  }

  lemma OldGroupOf(gs: seq<Group>, name: Bytes, c: Group) returns (i: nat, j: nat)
    requires AllValid(gs) && ValidName(name) && DistinctIds(gs) && c in Changed(gs, name)
    ensures i < |gs| && gs[i].id == c.id && name in gs[i].members && forall m :: m in c.members <==> m in gs[i].members && m != name
    ensures j < |RemoveMember(gs, name)| && RemoveMember(gs, name)[j] == c
  {
    ChangedDistinct(gs, name);
    var k :| 0 <= k < |Changed(gs, name)| && Changed(gs, name)[k] == c;
    j := ChangedAreKept(gs, name, k);
    i := RemovedFrom(gs, name, j);
    assert HadMember(gs, c.id, name);
    var i' :| 0 <= i' < |gs| && gs[i'].id == c.id && name in gs[i'].members;
    assert i == i';
  }

  /**
   After a departure without failed sends a member's mirror agrees again exactly when it was told of
   every surviving group it shared with the one who left: events that do not fit, or come after the
   first 64, leave it outdated for good.
   */
  lemma MirrorAfterDeparture(cache: map<Bytes, G.GroupInfo>, gs: seq<Group>, name: Bytes, user: Bytes, told: seq<Group>)
    requires AllValid(gs) && ValidName(name) && DistinctIds(gs) && user != name && Agrees(cache, gs, user)
    requires DistinctIds(told) && forall g :: g in told ==> g in Changed(gs, name) && user in g.members
    ensures Agrees(Updated(cache, told), RemoveMember(gs, name), user)
            <==> forall c :: c in Changed(gs, name) && user in c.members ==> c in told
  {
    hide ValidGroup, Agrees, Updated, RemoveMember, Changed, AllValid, DistinctIds;
    if forall c :: c in Changed(gs, name) && user in c.members ==> c in told {
      AllToldIsUpToDate(cache, gs, name, user, told);
    }
    forall c | c in Changed(gs, name) && user in c.members && c !in told
      ensures !Agrees(Updated(cache, told), RemoveMember(gs, name), user)
    {
      UntoldIsOutdated(cache, gs, name, user, told, c);
    }
  }

  lemma AllToldIsUpToDate(cache: map<Bytes, G.GroupInfo>, gs: seq<Group>, name: Bytes, user: Bytes, told: seq<Group>)
    requires AllValid(gs) && ValidName(name) && DistinctIds(gs) && user != name && Agrees(cache, gs, user)
    requires DistinctIds(told) && forall g :: g in told ==> g in Changed(gs, name) && user in g.members
    requires forall c :: c in Changed(gs, name) && user in c.members ==> c in told
    ensures Agrees(Updated(cache, told), RemoveMember(gs, name), user)
  {
    hide ValidGroup;
    var rs, after := RemoveMember(gs, name), Updated(cache, told);
    UpdatedLookup(cache, told);
    RemovalOrder(gs, name);
    forall j | 0 <= j < |rs| && user in rs[j].members ensures rs[j].id in after && after[rs[j].id] == G.InfoOf(rs[j]) {
      var i := RemovedFrom(gs, name, j);
      if name in gs[i].members {
        var t :| 0 <= t < |told| && told[t] == rs[j];
      } else {
        forall t | 0 <= t < |told| ensures told[t].id != rs[j].id {
          var i', j' := OldGroupOf(gs, name, told[t]);
          assert i' != i;
        }
      }
    }
    forall id | id in after ensures exists j :: 0 <= j < |rs| && rs[j].id == id && user in rs[j].members {
      if t :| 0 <= t < |told| && told[t].id == id {
        var i, j := OldGroupOf(gs, name, told[t]);
      } else {
        var i :| 0 <= i < |gs| && gs[i].id == id && user in gs[i].members;
        var j := KeptIn(gs, name, i);
      }
    }
  }

  lemma UntoldIsOutdated(cache: map<Bytes, G.GroupInfo>, gs: seq<Group>, name: Bytes, user: Bytes, told: seq<Group>, c: Group)
    requires AllValid(gs) && ValidName(name) && DistinctIds(gs) && user != name && Agrees(cache, gs, user)
    requires DistinctIds(told) && forall g :: g in told ==> g in Changed(gs, name) && user in g.members
    requires c in Changed(gs, name) && user in c.members && c !in told
    ensures !Agrees(Updated(cache, told), RemoveMember(gs, name), user)
  {
    hide ValidGroup;
    UpdatedLookup(cache, told);
    RemovalOrder(gs, name);
    var i, j := OldGroupOf(gs, name, c);
    forall t | 0 <= t < |told| ensures told[t].id != c.id {
      var i', j' := OldGroupOf(gs, name, told[t]);
      assert told[t].id == c.id ==> j' == j;
    }
    assert Updated(cache, told)[c.id] == G.InfoOf(gs[i]);
    assert name in gs[i].members && name !in c.members;
  }
}
