/** How a failed send leaves other members with an outdated group. */
module StaleEvents {
  import opened Basics
  import opened Decimal
  import opened Wire
  import opened GroupModel
  import opened Payload
  import opened UserModel
  import opened ServerModel
  import opened ServerSafety
  import opened ServerRuns
  import opened ChatSystem
  import opened CacheAgreement
  import opened MirrorRuns
  import G = Gateway

  // ---------- up to the first failed send ----------

  /** Of the sends from number `n` on, `k` succeed and the next fails. */
  predicate FailsFirstAt(env: Env, n: nat, k: nat) {
    (forall i :: n <= i < n + k ==> env.fate(i)) && !env.fate(n + k)
  }

  /** The server when the send to member `k` has failed. */
  function AfterFailure(w: World, ms: seq<Bytes>, k: nat, p: Packet): World
    requires k < |ms| && GetFd(w.users, ms[k]).Fd?
  {
    w.(log := w.log + Copies(w.users, ms[..k], p) + [Attempt(GetFd(w.users, ms[k]).fd, p, false)])
  }

  lemma {:induction false} UpToFirstFailure(env: Env, w: World, ms: seq<Bytes>, k: nat, p: Packet)
    requires k < |ms| && FailsFirstAt(env, |w.log|, k) && forall i :: 0 <= i <= k ==> GetFd(w.users, ms[i]).Fd?
    ensures |Copies(w.users, ms[..k], p)| == k
    ensures SendEach(env, w, ms, p)
            == SendEach(env, Cleanup(env, AfterFailure(w, ms, k, p), GetFd(w.users, ms[k]).fd), ms[k + 1..], p)
    decreases k
  {
    hide GetFd, Cleanup;
    var fd := GetFd(w.users, ms[0]).fd;
    var w1 := Send(env, w, fd, p);
    if k == 0 {
      assert ms[..0] == [] && w.log + [] == w.log;
      assert w1 == AfterFailure(w, ms, 0, p);
      assert SendToMember(env, w, ms[0], p) == SendOrCleanup(env, w, fd, p) == Cleanup(env, w1, fd);
    } else {
      assert env.fate(|w.log| + 0);
      assert SendToMember(env, w, ms[0], p) == SendOrCleanup(env, w, fd, p) == w1;
      assert forall i :: 0 <= i < |ms[1..]| ==> ms[1..][i] == ms[i + 1];
      assert FailsFirstAt(env, |w1.log|, k - 1);
      UpToFirstFailure(env, w1, ms[1..], k - 1, p);
      OneCopyMore(w, w1, ms, k, p);
      assert ms[1..][k..] == ms[k + 1..];
    }
  }

  lemma OneCopyMore(w: World, w1: World, ms: seq<Bytes>, k: nat, p: Packet)
    requires 0 < k < |ms| && GetFd(w.users, ms[0]).Fd? && GetFd(w.users, ms[k]).Fd?
    requires w1 == w.(log := w.log + [Attempt(GetFd(w.users, ms[0]).fd, p, true)])
    ensures ms[1..][k - 1] == ms[k] && AfterFailure(w1, ms[1..], k - 1, p) == AfterFailure(w, ms, k, p)
    ensures |Copies(w.users, ms[..k], p)| == 1 + |Copies(w.users, ms[1..][..k - 1], p)|
  {
    hide GetFd;
    var first := [Attempt(GetFd(w.users, ms[0]).fd, p, true)];
    assert ms[..k][1..] == ms[1..][..k - 1] && ms[..k][0] == ms[0];
    assert Copies(w.users, ms[..k], p) == first + Copies(w.users, ms[1..][..k - 1], p);
    Regroup(w.log, first, Copies(w.users, ms[1..][..k - 1], p));
  }

  // ---------- the rounds of a departure ----------

  /** The server when a user has left and before anybody is told. */
  function Departed(w: World, fd: int): World
    requires NameByFd(w.users, fd).Some?
  {
    w.(groups := RemoveMember(w.groups, NameByFd(w.users, fd).value), users := LogoutFd(w.users, fd))
  }

  /** The changes that are pushed, one round of sends each. */
  function Rounds(w: World, fd: int): seq<Group>
    requires NameByFd(w.users, fd).Some?
  {
    Pushed(w.groups, NameByFd(w.users, fd).value)
  }

  /** There is a round `f`, and it has a send to a member `k`. */
  predicate HasSend(w: World, fd: int, f: nat, k: nat) {
    && NameByFd(w.users, fd).Some? && f < |Rounds(w, fd)| && FitsAsLeft(Rounds(w, fd)[f])
    && k < |Rounds(w, fd)[f].members|
  }

  /** The number of sends of the departure before that one. */
  function SendsBefore(w: World, fd: int, f: nat, k: nat): nat
    requires HasSend(w, fd, f, k)
  {
    |LeftCopies(Departed(w, fd).users, Rounds(w, fd)[..f])| + k
  }

  /** The server before round `f`, when no send has failed. */
  function BeforeRound(w: World, fd: int, f: nat): World
    requires NameByFd(w.users, fd).Some? && f <= |Rounds(w, fd)|
  {
    Departed(w, fd).(log := w.log + LeftCopies(Departed(w, fd).users, Rounds(w, fd)[..f]))
  }

  /** The member whose send is number `k` of round `f`, and that member's socket. */
  function Missed(w: World, fd: int, f: nat, k: nat): Bytes
    requires HasSend(w, fd, f, k)
  {
    Rounds(w, fd)[f].members[k]
  }

  predicate MissedOnline(w: World, fd: int, f: nat, k: nat)
    requires HasSend(w, fd, f, k)
  {
    GetFd(Departed(w, fd).users, Missed(w, fd, f, k)).Fd?
  }

  function MissedFd(w: World, fd: int, f: nat, k: nat): int
    requires HasSend(w, fd, f, k) && MissedOnline(w, fd, f, k)
  {
    GetFd(Departed(w, fd).users, Missed(w, fd, f, k)).fd
  }

  /** The server when that member, who missed the send, has been cleaned up too. */
  function CleanedUp(env: Env, w: World, fd: int, f: nat, k: nat): World
    requires HasSend(w, fd, f, k) && MissedOnline(w, fd, f, k)
  {
    var h := Rounds(w, fd)[f];
    Cleanup(env, AfterFailure(BeforeRound(w, fd, f), h.members, k, LeftPacket(h)), MissedFd(w, fd, f, k))
  }

  lemma DepartedFacts(w: World, fd: int)
    requires Inv(w) && OneEach(w.users) && NameByFd(w.users, fd).Some?
    ensures var w1 := Departed(w, fd);
            && Inv(w1) && OneEach(w1.users) && w1.log == w.log && w1.issued == w.issued && ValidName(NameByFd(w.users, fd).value)
            && forall to :: to != fd ==> NameByFd(w1.users, to) == NameByFd(w.users, to)
  {
    hide LogoutFd, Inv, RemoveMember;
    DepartureKeepsInv(w, fd);
    forall to ensures OneEach(LogoutFd(w.users, fd)) && (to != fd ==> NameByFd(LogoutFd(w.users, fd), to) == NameByFd(w.users, to)) {
      LogoutElsewhere(w.users, fd, to);
    }
  }

  /** All that are told of in the rounds are groups as they now are, with all members online. */
  lemma RoundFacts(w: World, fd: int, i: nat)
    requires Inv(w) && OneEach(w.users) && NameByFd(w.users, fd).Some? && i < |Rounds(w, fd)|
    ensures var c, w1 := Rounds(w, fd)[i], Departed(w, fd);
            && c in w1.groups && ValidGroup(c) && ValidMembers(c.members)
            && forall m :: m in c.members ==> ValidName(m) && IsOnline(w1.users, m) && GetFd(w1.users, m).Fd?
  {
    hide LogoutFd, ValidGroup, RemoveMember;
    var name, c := NameByFd(w.users, fd).value, Rounds(w, fd)[i];
    DepartedFacts(w, fd);
    assert AllValid(w.groups);
    var j := ChangedAreKept(w.groups, name, i);
    assert Departed(w, fd).groups[j] == c;
    MembersOfValid(c);
    forall m | m in c.members ensures ValidName(m) && IsOnline(Departed(w, fd).users, m) && GetFd(Departed(w, fd).users, m).Fd? {
      var n :| 0 <= n < |c.members| && c.members[n] == m;
    }
  }

  lemma MissedFacts(w: World, fd: int, f: nat, k: nat)
    requires Inv(w) && OneEach(w.users) && HasSend(w, fd, f, k)
    ensures MissedOnline(w, fd, f, k) && ValidName(Missed(w, fd, f, k))
    ensures NameByFd(Departed(w, fd).users, MissedFd(w, fd, f, k)) == Some(Missed(w, fd, f, k))
  {
    hide LogoutFd, ValidGroup, RemoveMember, Inv, OneEach, FitsAsLeft, NameByFd, GetFd, Rounds;
    DepartedFacts(w, fd);
    RoundFacts(w, fd, f);
    assert Missed(w, fd, f, k) in Rounds(w, fd)[f].members;
    InvParts(Departed(w, fd));
    SocketOfUser(Departed(w, fd).users, MissedFd(w, fd, f, k), Missed(w, fd, f, k));
  }

  /** Every send of a departure in which none has failed before is some member's in some round. */
  lemma {:induction false} EverySendHasARound(us: seq<User>, changes: seq<Group>, q: nat) returns (f: nat, k: nat)
    requires forall i, m :: 0 <= i < |changes| && m in changes[i].members ==> GetFd(us, m).Fd?
    requires q < |LeftCopies(us, changes)|
    ensures f < |changes| && FitsAsLeft(changes[f]) && k < |changes[f].members| && q == |LeftCopies(us, changes[..f])| + k
  {
    hide FitsAsLeft, LeftPacket, GetFd, Copies;
    var g, more := changes[0], changes[1..];
    var first := if FitsAsLeft(g) then |g.members| else 0;
    if FitsAsLeft(g) { CopyEach(us, g.members, LeftPacket(g)); }
    if q < first {
      f, k := 0, q;
      assert changes[..0] == [];
    } else {
      forall i, m | 0 <= i < |more| && m in more[i].members ensures GetFd(us, m).Fd? {
        assert more[i] == changes[i + 1];
      }
      var f0, k0 := EverySendHasARound(us, more, q - first);
      f, k := f0 + 1, k0;
      assert changes[..f][0] == g && changes[..f][1..] == more[..f0];
    }
  }

  lemma {:induction false} CopyEach(us: seq<User>, ms: seq<Bytes>, p: Packet)
    requires forall m :: m in ms ==> GetFd(us, m).Fd?
    ensures |Copies(us, ms, p)| == |ms|
  {
    hide GetFd;
    if ms != [] { CopyEach(us, ms[1..], p); }
  }

  /** So whichever send of a departure is the first to fail, it is one of those described here. */
  lemma FirstFailureHasARound(w: World, fd: int, q: nat) returns (f: nat, k: nat)
    requires Inv(w) && OneEach(w.users) && NameByFd(w.users, fd).Some? && q < |LeftCopies(Departed(w, fd).users, Rounds(w, fd))|
    ensures HasSend(w, fd, f, k) && SendsBefore(w, fd, f, k) == q
  {
    hide Inv, OneEach, FitsAsLeft, GetFd, NameByFd, LeftCopies, Departed, IsOnline, ValidGroup, ValidMembers;
    forall i, m | 0 <= i < |Rounds(w, fd)| && m in Rounds(w, fd)[i].members ensures GetFd(Departed(w, fd).users, m).Fd? {
      RoundFacts(w, fd, i);
    }
    f, k := EverySendHasARound(Departed(w, fd).users, Rounds(w, fd), q);
  }

  /** A departure up to the first failed send: the member who missed it is cleaned up before the rest is told. */
  lemma CleanupAtFailure(env: Env, w: World, fd: int, f: nat, k: nat)
    requires Inv(w) && OneEach(w.users) && HasSend(w, fd, f, k) && FailsFirstAt(env, |w.log|, SendsBefore(w, fd, f, k))
    ensures var h := Rounds(w, fd)[f];
            && MissedOnline(w, fd, f, k) && |Copies(Departed(w, fd).users, h.members[..k], LeftPacket(h))| == k
            && Cleanup(env, w, fd)
               == PushChanges(env, SendEach(env, CleanedUp(env, w, fd, f, k), h.members[k + 1..], LeftPacket(h)), Rounds(w, fd)[f + 1..])
  {
    hide Inv, OneEach, FitsAsLeft, LogoutFd, SendEach, PushChanges, LeftCopies, Copies, Changed, RemoveMember, GetFd, LeftPacket,
      IsOnline, ValidGroup, ValidMembers;
    var w1, ps := Departed(w, fd), Rounds(w, fd);
    var h, wf := ps[f], BeforeRound(w, fd, f);
    DepartedFacts(w, fd);
    MissedFacts(w, fd, f, k);
    assert ps == ps[..f] + ([h] + ps[f + 1..]);
    assert Cleanup(env, w, fd) == PushChanges(env, w1, ps);
    LeftThenRest(env, w1, ps[..f], [h] + ps[f + 1..]);
    PushRound(env, wf, h, ps[f + 1..]);
    RoundFacts(w, fd, f);
    assert FailsFirstAt(env, |wf.log|, k);
    UpToFirstFailure(env, wf, h.members, k, LeftPacket(h));
  }

  lemma CleanedUpIsOffline(env: Env, w: World, fd: int)
    requires Inv(w) && NameByFd(w.users, fd).Some?
    ensures !IsOnline(Cleanup(env, w, fd).users, NameByFd(w.users, fd).value)
  {
    hide Inv, IsOnline, LogoutFd, RemoveMember, Changed, PushChanges;
    var name := NameByFd(w.users, fd).value;
    var all := Changed(w.groups, name);
    var w1 := Departed(w, fd);
    var r := PushChanges(env, w1, all[..Min(|all|, GROUP_EVENT_MAX_CHANGES)]);
    assert Cleanup(env, w, fd) == r;
    DepartureKeepsInv(w, fd);
    assert AllValid(w.groups) by { InvParts(w); }
    ChangesAreSmall(w.groups, name);
    PushChangesCascades(env, w1, all[..Min(|all|, GROUP_EVENT_MAX_CHANGES)]);
    if IsOnline(r.users, name) { StillSameSocket(w1.users, r.users, name); }
  }

  /** From the given place on the log has a send of `p` to the socket. */
  ghost predicate SentAfter(log: seq<Attempt>, from: nat, fd: int, p: Packet) {
    exists i :: from <= i < |log| && log[i].fd == fd && log[i].packet == p
  }

  lemma OneTurnIsSent(env: Env, w: World, member: Bytes, p: Packet)
    requires Inv(w) && ValidName(member) && p.kind == MSG_GROUP_EVENT
    ensures var r := SendToMember(env, w, member, p);
            && Inv(r) && Shrinks(w.users, r.users) && w.log <= r.log
            && (IsOnline(w.users, member) ==>
                  GetFd(w.users, member).Fd? && SentAfter(r.log, |w.log|, GetFd(w.users, member).fd, p))
  {
    hide Inv, Cleanup, SendToMember;
    var r := SendToMember(env, w, member, p);
    SendToMemberCascades(env, w, member, p, EVENTS_ONLY);
    if IsOnline(w.users, member) {
      var fd := GetFd(w.users, member).fd;
      var w1 := Send(env, w, fd, p);
      InvIgnoresLog(w, w1);
      CleanupCascades(env, w1, fd);
      OnlineTurn(env, w, member, p);
      assert w1.log <= r.log;
      assert r.log[|w.log|] == w1.log[|w.log|];
    }
  }

  /** Everybody online at their turn is sent the packet. */
  lemma {:induction false} ReachedAreSent(env: Env, w: World, members: seq<Bytes>, p: Packet)
    requires Inv(w) && p.kind == MSG_GROUP_EVENT && forall m :: m in members ==> ValidName(m)
    ensures var r := SendEach(env, w, members, p);
            && Inv(r) && Shrinks(w.users, r.users) && w.log <= r.log
            && forall m :: m in Reached(env, w, members, p) ==>
                 m in members && IsOnline(w.users, m) && GetFd(w.users, m).Fd?
                 && SentAfter(r.log, |w.log|, GetFd(w.users, m).fd, p)
    decreases |members|
  {
    hide Inv, SendToMember, Shrinks;
    SendEachCascades(env, w, members, p, EVENTS_ONLY);
    if members != [] {
      var r, w1 := SendEach(env, w, members, p), SendToMember(env, w, members[0], p);
      OneTurnIsSent(env, w, members[0], p);
      ReachedAreSent(env, w1, members[1..], p);
      assert members[0] in members;
      forall m | m in Reached(env, w1, members[1..], p)
        ensures m in members && IsOnline(w.users, m) && GetFd(w.users, m).Fd? && SentAfter(r.log, |w.log|, GetFd(w.users, m).fd, p)
      {
        LaterTurn(w.users, w1.users, m, r.log, |w.log|, |w1.log|, p);
      }
      if IsOnline(w.users, members[0]) { StillSent(w1.log, r.log, |w.log|, GetFd(w.users, members[0]).fd, p); }
    }
  }

  lemma LaterTurn(us: seq<User>, vs: seq<User>, m: Bytes, log: seq<Attempt>, a: nat, b: nat, p: Packet)
    requires Shrinks(us, vs) && IsOnline(vs, m) && ValidName(m) && a <= b && GetFd(vs, m).Fd?
    requires SentAfter(log, b, GetFd(vs, m).fd, p)
    ensures IsOnline(us, m) && GetFd(us, m).Fd? && SentAfter(log, a, GetFd(us, m).fd, p)
  {
    StillSameSocket(us, vs, m);
  }

  lemma StillSent(log: seq<Attempt>, more: seq<Attempt>, from: nat, fd: int, p: Packet)
    requires log <= more && SentAfter(log, from, fd, p)
    ensures SentAfter(more, from, fd, p)
  {
    var i :| from <= i < |log| && log[i].fd == fd && log[i].packet == p;
    assert more[i] == log[i];
  }

  /**
   The order of a departure whose first failed send is the one to member `k` of round `f`, whatever fails later:
   before anybody else is told, that member is cleaned up with all its own events; then everybody
   after it in the round who is still online is sent the older group. That member is then offline, so
   whatever group of this or a later round names it is out of date.
   */
  lemma FirstFailedSend(env: Env, w: World, fd: int, f: nat, k: nat)
    requires Inv(w) && OneEach(w.users) && HasSend(w, fd, f, k) && FailsFirstAt(env, |w.log|, SendsBefore(w, fd, f, k))
    ensures MissedOnline(w, fd, f, k)
    ensures var h, r, w3 := Rounds(w, fd)[f], Cleanup(env, w, fd), CleanedUp(env, w, fd, f, k);
            && w3.log <= r.log
            && (forall m :: m in Reached(env, w3, h.members[k + 1..], LeftPacket(h)) ==>
                  GetFd(w.users, m).Fd? && SentAfter(r.log, |w3.log|, GetFd(w.users, m).fd, LeftPacket(h)))
            && !IsOnline(r.users, Missed(w, fd, f, k))
            && forall i :: f <= i < |Rounds(w, fd)| && Missed(w, fd, f, k) in Rounds(w, fd)[i].members ==>
                 Rounds(w, fd)[i] !in r.groups
  {
    hide Inv, OneEach, FitsAsLeft, Changed, RemoveMember, LogoutFd, Cleanup, GetFd, IsOnline, Copies, Shrinks, LeftCopies, PushChanges,
      Rounds, NameByFd, ValidGroup, ValidMembers, SendEach;
    DepartedFacts(w, fd);
    RoundFacts(w, fd, f);
    MissedFacts(w, fd, f, k);
    CleanupAtFailure(env, w, fd, f, k);
    var w1, h, member, fdk := Departed(w, fd), Rounds(w, fd)[f], Missed(w, fd, f, k), MissedFd(w, fd, f, k);
    var p, later := LeftPacket(h), Rounds(w, fd)[f + 1..];
    var w2, w3 := AfterFailure(BeforeRound(w, fd, f), h.members, k, p), CleanedUp(env, w, fd, f, k);
    var w4, r := SendEach(env, w3, h.members[k + 1..], p), Cleanup(env, w, fd);
    InvIgnoresLog(w1, w2);
    CleanedUpIsOffline(env, w2, fdk);
    CleanupCascades(env, w2, fdk);
    ReachedAreSent(env, w3, h.members[k + 1..], p);
    LaterIsSmall(w, fd, f + 1);
    PushChangesCascades(env, w4, later);
    if IsOnline(w4.users, member) { StillSameSocket(w3.users, w4.users, member); }
    if IsOnline(r.users, member) { StillSameSocket(w4.users, r.users, member); }
    forall i | f <= i < |Rounds(w, fd)| && member in Rounds(w, fd)[i].members ensures Rounds(w, fd)[i] !in r.groups {
      if Rounds(w, fd)[i] in r.groups { MemberOfStored(r, Rounds(w, fd)[i], member); }
    }
    DepartureShrinks(w, fd);
    forall m | m in Reached(env, w3, h.members[k + 1..], p)
      ensures GetFd(w.users, m).Fd? && SentAfter(r.log, |w3.log|, GetFd(w.users, m).fd, p)
    {
      LaterTurn(w1.users, w3.users, m, w4.log, |w3.log|, |w3.log|, p);
      LaterTurn(w.users, w1.users, m, w4.log, |w3.log|, |w3.log|, p);
      StillSent(w4.log, r.log, |w3.log|, GetFd(w.users, m).fd, p);
    }
  }

  lemma LaterIsSmall(w: World, fd: int, i: nat)
    requires Inv(w) && OneEach(w.users) && NameByFd(w.users, fd).Some? && i <= |Rounds(w, fd)|
    ensures Small(Rounds(w, fd)[i..])
  {
    hide Inv, OneEach, Rounds, NameByFd;
    forall j | i <= j < |Rounds(w, fd)| ensures |Rounds(w, fd)[j].members| <= GROUP_MAX_MEMBERS { RoundFacts(w, fd, j); }
  }

  lemma DepartureShrinks(w: World, fd: int)
    requires Inv(w) && NameByFd(w.users, fd).Some?
    ensures Shrinks(w.users, Departed(w, fd).users)
  {
    DepartureKeepsInv(w, fd);
  }

  lemma MemberOfStored(w: World, g: Group, m: Bytes)
    requires Inv(w) && g in w.groups && m in g.members
    ensures IsOnline(w.users, m)
  {
  }

  // ---------- who is left with an outdated group ----------

  lemma {:induction false} MoreDigits(a: nat, b: nat)
    requires a <= b
    ensures |Digits(a)| <= |Digits(b)|
  {
    if a >= 10 { MoreDigits(a / 10, b / 10); }
  }

  lemma {:induction false} ShorterWithout(ms: seq<Bytes>, k: nat)
    requires k < |ms|
    ensures TotalLength(RemoveAt(ms, k)) <= TotalLength(ms)
  {
    var less := RemoveAt(ms, k);
    if k == 0 {
      assert less == ms[1..];
    } else {
      ShorterWithout(ms[1..], k - 1);
      assert less[0] == ms[0] && less[1..] == RemoveAt(ms[1..], k - 1);
    }
  }

  lemma FitsWithout(h: Group, k: nat)
    requires FitsAsLeft(h) && k < |h.members|
    ensures FitsAsLeft(Without(h, k))
  {
    hide Build, EventFields, Digits;
    EventSize(EVENT_MEMBER_LEFT, h);
    EventSize(EVENT_MEMBER_LEFT, Without(h, k));
    MoreDigits(|h.members| - 1, |h.members|);
    ShorterWithout(h.members, k);
  }

  /** The users when the member who missed the send has been cleaned up too. */
  function UsersAfter(w: World, fd: int, f: nat, k: nat): seq<User>
    requires HasSend(w, fd, f, k) && MissedOnline(w, fd, f, k)
  {
    LogoutFd(Departed(w, fd).users, MissedFd(w, fd, f, k))
  }

  /** What is pushed when that member is cleaned up. */
  function PushedAfter(w: World, fd: int, f: nat, k: nat): seq<Group>
    requires HasSend(w, fd, f, k)
  {
    Pushed(Departed(w, fd).groups, Missed(w, fd, f, k))
  }

  /** Sends up to the failed one, in three parts: earlier rounds, this round, the failed send. */
  function LogUpTo(w: World, fd: int, f: nat, k: nat): seq<Attempt>
    requires HasSend(w, fd, f, k) && MissedOnline(w, fd, f, k)
  {
    var us, h := Departed(w, fd).users, Rounds(w, fd)[f];
    LeftCopies(us, Rounds(w, fd)[..f]) + Copies(us, h.members[..k], LeftPacket(h))
    + [Attempt(MissedFd(w, fd, f, k), LeftPacket(h), false)]
  }

  /** Sends after it: the cleanup's own rounds, the rest of this round, later rounds. */
  function LogFrom(w: World, fd: int, f: nat, k: nat): seq<Attempt>
    requires HasSend(w, fd, f, k) && MissedOnline(w, fd, f, k)
  {
    var us, h := UsersAfter(w, fd, f, k), Rounds(w, fd)[f];
    LeftCopies(us, PushedAfter(w, fd, f, k)) + Copies(us, h.members[k + 1..], LeftPacket(h)) + LeftCopies(us, Rounds(w, fd)[f + 1..])
  }

  /** The send to member `k` of round `f` fails and no other. */
  ghost predicate FailsOnly(env: Env, w: World, fd: int, f: nat, k: nat)
    requires HasSend(w, fd, f, k)
  {
    var q := SendsBefore(w, fd, f, k);
    FailsFirstAt(env, |w.log|, q) && ReliableFrom(env, |w.log| + q + 1)
  }

  /** All that a departure with one failed send does. */
  lemma LogAround(env: Env, w: World, fd: int, f: nat, k: nat)
    requires Inv(w) && OneEach(w.users) && HasSend(w, fd, f, k) && FailsOnly(env, w, fd, f, k)
    ensures MissedOnline(w, fd, f, k)
    ensures Cleanup(env, w, fd)
            == World(UsersAfter(w, fd, f, k), w.storage, RemoveMember(Departed(w, fd).groups, Missed(w, fd, f, k)), w.issued,
                     w.log + (LogUpTo(w, fd, f, k) + LogFrom(w, fd, f, k)))
  {
    hide Inv, OneEach, FitsAsLeft, Changed, RemoveMember, LogoutFd, Cleanup, GetFd, Copies, LeftCopies, Pushed, SendEach, PushChanges,
      LeftPacket;
    MissedFacts(w, fd, f, k);
    CleanupAtFailure(env, w, fd, f, k);
    var h, us, later := Rounds(w, fd)[f], UsersAfter(w, fd, f, k), Rounds(w, fd)[f + 1..];
    var p, w2 := LeftPacket(h), AfterFailure(BeforeRound(w, fd, f), h.members, k, LeftPacket(h));
    LogOfFailure(w, fd, f, k);
    assert |w2.log| == |w.log| + SendsBefore(w, fd, f, k) + 1;
    ReliableCleanup(env, w2, MissedFd(w, fd, f, k));
    var w3 := CleanedUp(env, w, fd, f, k);
    ReliableCopies(env, w3, h.members[k + 1..], p);
    var w4 := SendEach(env, w3, h.members[k + 1..], p);
    ReliableLeft(env, w4, later);
    AfterLog(w.log, LogUpTo(w, fd, f, k), LeftCopies(us, PushedAfter(w, fd, f, k)), Copies(us, h.members[k + 1..], p),
             LeftCopies(us, later));
  }

  lemma LogOfFailure(w: World, fd: int, f: nat, k: nat)
    requires HasSend(w, fd, f, k) && MissedOnline(w, fd, f, k)
    ensures var h := Rounds(w, fd)[f];
            AfterFailure(BeforeRound(w, fd, f), h.members, k, LeftPacket(h))
            == Departed(w, fd).(log := w.log + LogUpTo(w, fd, f, k))
  {
    hide Copies, LeftCopies, LogoutFd, RemoveMember, GetFd, LeftPacket, Rounds, FitsAsLeft, NameByFd;
    var us, h := Departed(w, fd).users, Rounds(w, fd)[f];
    var a, b := LeftCopies(us, Rounds(w, fd)[..f]), Copies(us, h.members[..k], LeftPacket(h));
    AfterLog(w.log, a, b, [Attempt(MissedFd(w, fd, f, k), LeftPacket(h), false)], []);
  }

  lemma AfterLog<T>(log: seq<T>, a: seq<T>, b: seq<T>, c: seq<T>, d: seq<T>)
    ensures log + a + b + c + d == log + (a + (b + c + d)) && log + a + b + c == log + (a + b + c)
  {
  }

  /** Another user who stays online through both departures. */
  predicate StaysOn(w: World, fd: int, f: nat, k: nat, to: int, u: Bytes)
    requires HasSend(w, fd, f, k)
  {
    NameByFd(w.users, to) == Some(u) && to != fd && u != Missed(w, fd, f, k)
  }

  lemma SocketsAfter(w: World, fd: int, f: nat, k: nat, to: int, u: Bytes)
    requires Inv(w) && OneEach(w.users) && HasSend(w, fd, f, k) && StaysOn(w, fd, f, k, to, u)
    ensures MissedOnline(w, fd, f, k) && to != MissedFd(w, fd, f, k)
    ensures NameByFd(Departed(w, fd).users, to) == Some(u) && ValidName(u)
    ensures var us := UsersAfter(w, fd, f, k);
            UsersOk(us) && OneEach(us) && NameByFd(us, to) == Some(u)
  {
    hide Inv, OneEach, FitsAsLeft, Changed, RemoveMember, LogoutFd, GetFd, NameByFd, UsersOk, ValidGroup, Rounds;
    DepartedFacts(w, fd);
    MissedFacts(w, fd, f, k);
    DepartedFacts(Departed(w, fd), MissedFd(w, fd, f, k));
    InvParts(Departed(Departed(w, fd), MissedFd(w, fd, f, k)));
    assert ValidName(u) by { DepartureKeepsInv(w, to); }
  }

  /** The group, if the user is among the members it is sent to. */
  function OneIf(h: Group, ms: seq<Bytes>, u: Bytes): seq<Group> {
    if u in ms then [h] else []
  }

  /** What a user is told of before and after the failed send. */
  function ToldBefore(w: World, fd: int, f: nat, k: nat, u: Bytes): seq<Group>
    requires HasSend(w, fd, f, k)
  {
    ToldOf(Rounds(w, fd)[..f], u) + OneIf(Rounds(w, fd)[f], Rounds(w, fd)[f].members[..k], u)
  }

  function ToldAfter(w: World, fd: int, f: nat, k: nat, u: Bytes): seq<Group>
    requires HasSend(w, fd, f, k)
  {
    OneIf(Rounds(w, fd)[f], Rounds(w, fd)[f].members[k + 1..], u) + ToldOf(Rounds(w, fd)[f + 1..], u)
  }

  function ToldBetween(w: World, fd: int, f: nat, k: nat, u: Bytes): seq<Group>
    requires HasSend(w, fd, f, k)
  {
    ToldOf(PushedAfter(w, fd, f, k), u)
  }

  predicate AllTold(gs: seq<Group>) {
    forall i :: 0 <= i < |gs| ==> FitsAsLeft(gs[i]) && ValidGroup(gs[i])
  }

  lemma {:induction false} LeftPacketsAppend(a: seq<Group>, b: seq<Group>)
    requires AllTold(a) && AllTold(b)
    ensures AllTold(a + b) && LeftPackets(a + b) == LeftPackets(a) + LeftPackets(b)
  {
    hide FitsAsLeft, ValidGroup, LeftPacket;
    if a == [] {
      assert a + b == b;
    } else {
      LeftPacketsAppend(a[1..], b);
      assert (a + b)[0] == a[0] && (a + b)[1..] == a[1..] + b;
      assert forall i :: 0 <= i < |a + b| ==> (a + b)[i] == if i < |a| then a[i] else b[i - |a|];
      Regroup([LeftPacket(a[0])], LeftPackets(a[1..]), LeftPackets(b));
    }
  }

  lemma ToldAreTold(gs: seq<Group>, u: Bytes)
    requires forall c :: c in gs ==> ValidGroup(c)
    ensures AllTold(ToldOf(gs, u)) && forall c :: c in ToldOf(gs, u) ==> c in gs && u in c.members && FitsAsLeft(c)
  {
    hide FitsAsLeft, ValidGroup;
    ToldOfMeaning(gs, u);
    forall i | 0 <= i < |ToldOf(gs, u)| ensures ValidGroup(ToldOf(gs, u)[i]) {
      assert ToldOf(gs, u)[i] in gs;
    }
  }

  /** The groups of all rounds are valid, and so are those of the cleanup's rounds. */
  lemma AllRoundsValid(w: World, fd: int, f: nat, k: nat)
    requires Inv(w) && OneEach(w.users) && w.issued <= IDS + 1 && HasSend(w, fd, f, k)
    ensures forall c :: c in Rounds(w, fd) || c in PushedAfter(w, fd, f, k) ==> ValidGroup(c) && ValidMembers(c.members)
    ensures DistinctIds(Rounds(w, fd)) && DistinctIds(Departed(w, fd).groups)
    ensures DistinctIds(PushedAfter(w, fd, f, k)) && AllValid(Departed(w, fd).groups)
  {
    hide Inv, OneEach, FitsAsLeft, Changed, RemoveMember, LogoutFd, GetFd, NameByFd, ValidGroup, ValidMembers;
    DepartedFacts(w, fd);
    MissedFacts(w, fd, f, k);
    InvParts(w);
    InvParts(Departed(w, fd));
    PushedFacts(w.groups, NameByFd(w.users, fd).value);
    PushedFacts(Departed(w, fd).groups, Missed(w, fd, f, k));
  }

  lemma ToldParts(w: World, fd: int, f: nat, k: nat, u: Bytes)
    requires Inv(w) && OneEach(w.users) && w.issued <= IDS + 1 && HasSend(w, fd, f, k)
    ensures AllTold(ToldBefore(w, fd, f, k, u)) && AllTold(ToldBetween(w, fd, f, k, u)) && AllTold(ToldAfter(w, fd, f, k, u))
    ensures AllTold(ToldOf(Rounds(w, fd)[..f], u)) && AllTold(ToldOf(Rounds(w, fd)[f + 1..], u)) && ValidGroup(Rounds(w, fd)[f])
  {
    hide Inv, OneEach, FitsAsLeft, Pushed, ToldOf, ValidGroup, ValidMembers;
    AllRoundsValid(w, fd, f, k);
    assert Rounds(w, fd)[f] in Rounds(w, fd);
    ToldAreTold(Rounds(w, fd)[..f], u);
    ToldAreTold(Rounds(w, fd)[f + 1..], u);
    ToldAreTold(PushedAfter(w, fd, f, k), u);
  }

  /**
   What a socket is sent in a departure with one failed send: first the groups of the rounds up to that send,
   then what follows from cleaning up the member who missed it, then the groups of the other rounds.
   */
  lemma PacketsAround(env: Env, w: World, fd: int, f: nat, k: nat, to: int, u: Bytes)
    requires Inv(w) && OneEach(w.users) && w.issued <= IDS + 1 && HasSend(w, fd, f, k) && FailsOnly(env, w, fd, f, k)
    requires StaysOn(w, fd, f, k, to, u)
    ensures AllTold(ToldBefore(w, fd, f, k, u)) && AllTold(ToldBetween(w, fd, f, k, u)) && AllTold(ToldAfter(w, fd, f, k, u))
    ensures var r := Cleanup(env, w, fd);
            && r.groups == RemoveMember(Departed(w, fd).groups, Missed(w, fd, f, k)) && w.log <= r.log
            && PacketsTo(NewSends(w, r), to)
               == LeftPackets(ToldBefore(w, fd, f, k, u)) + LeftPackets(ToldBetween(w, fd, f, k, u))
                  + LeftPackets(ToldAfter(w, fd, f, k, u))
  {
    hide Inv, OneEach, FitsAsLeft, Cleanup, NameByFd, PacketsTo, LeftPackets, ToldBefore, ToldBetween, ToldAfter, ValidGroup, LogUpTo,
      LogFrom, Departed, UsersAfter, Rounds, FailsOnly, RemoveMember;
    LogAround(env, w, fd, f, k);
    ToldParts(w, fd, f, k, u);
    PacketsUpTo(w, fd, f, k, to, u);
    PacketsFrom(w, fd, f, k, to, u);
    PacketsToAppend(LogUpTo(w, fd, f, k), LogFrom(w, fd, f, k), to);
    Regroup(LeftPackets(ToldBefore(w, fd, f, k, u)), LeftPackets(ToldBetween(w, fd, f, k, u)), LeftPackets(ToldAfter(w, fd, f, k, u)));
  }

  lemma PacketsUpTo(w: World, fd: int, f: nat, k: nat, to: int, u: Bytes)
    requires Inv(w) && OneEach(w.users) && w.issued <= IDS + 1 && HasSend(w, fd, f, k) && StaysOn(w, fd, f, k, to, u)
    ensures MissedOnline(w, fd, f, k) && AllTold(ToldBefore(w, fd, f, k, u))
    ensures PacketsTo(LogUpTo(w, fd, f, k), to) == LeftPackets(ToldBefore(w, fd, f, k, u))
  {
    hide Inv, OneEach, FitsAsLeft, NameByFd, PacketsTo, ToldOf, Copies, LeftCopies, ValidGroup, ValidMembers, Rounds,
      LogoutFd, GetFd, LeftPacket, LeftPackets, UsersOk;
    var us, ps, h := Departed(w, fd).users, Rounds(w, fd)[..f], Rounds(w, fd)[f];
    DepartedFacts(w, fd);
    InvParts(Departed(w, fd));
    SocketsAfter(w, fd, f, k, to, u);
    AllRoundsValid(w, fd, f, k);
    ToldParts(w, fd, f, k, u);
    RoundsValid(w, fd, 0, f);
    LeftReachesMembers(us, ps, to);
    assert ValidMembers(h.members[..k]) by { RoundFacts(w, fd, f); SliceValid(h.members, 0, k); }
    OneRoundReaches(us, h, h.members[..k], to, u);
    var a, b := LeftCopies(us, ps), Copies(us, h.members[..k], LeftPacket(h));
    var failed := Attempt(MissedFd(w, fd, f, k), LeftPacket(h), false);
    PacketsToOne(failed, to);
    PacketsToAppend(a + b, [failed], to);
    PacketsToAppend(a, b, to);
    LeftPacketsAppend(ToldOf(ps, u), OneIf(h, h.members[..k], u));
  }

  lemma PacketsFrom(w: World, fd: int, f: nat, k: nat, to: int, u: Bytes)
    requires Inv(w) && OneEach(w.users) && w.issued <= IDS + 1 && HasSend(w, fd, f, k) && StaysOn(w, fd, f, k, to, u)
    ensures MissedOnline(w, fd, f, k) && AllTold(ToldBetween(w, fd, f, k, u)) && AllTold(ToldAfter(w, fd, f, k, u))
    ensures PacketsTo(LogFrom(w, fd, f, k), to)
            == LeftPackets(ToldBetween(w, fd, f, k, u)) + LeftPackets(ToldAfter(w, fd, f, k, u))
  {
    hide Inv, OneEach, FitsAsLeft, NameByFd, PacketsTo, ToldOf, Copies, LeftCopies, ValidGroup, ValidMembers, Rounds, PushedAfter,
      LogoutFd, GetFd, LeftPacket, LeftPackets, UsersOk, UsersAfter;
    SocketsAfter(w, fd, f, k, to, u);
    var us, later, h := UsersAfter(w, fd, f, k), Rounds(w, fd)[f + 1..], Rounds(w, fd)[f];
    AllRoundsValid(w, fd, f, k);
    ToldParts(w, fd, f, k, u);
    RoundsValid(w, fd, f + 1, |Rounds(w, fd)|);
    LeftReachesMembers(us, PushedAfter(w, fd, f, k), to);
    LeftReachesMembers(us, later, to);
    assert ValidMembers(h.members[k + 1..]) by { RoundFacts(w, fd, f); SliceValid(h.members, k + 1, |h.members|); }
    OneRoundReaches(us, h, h.members[k + 1..], to, u);
    var a, b, c := LeftCopies(us, PushedAfter(w, fd, f, k)), Copies(us, h.members[k + 1..], LeftPacket(h)), LeftCopies(us, later);
    PacketsToAppend(a + b, c, to);
    PacketsToAppend(a, b, to);
    LeftPacketsAppend(OneIf(h, h.members[k + 1..], u), ToldOf(later, u));
    Regroup(PacketsTo(a, to), PacketsTo(b, to), PacketsTo(c, to));
  }

  /** The round of a group when it is only sent to some of its members. */
  lemma OneRoundReaches(us: seq<User>, h: Group, ms: seq<Bytes>, to: int, u: Bytes)
    requires UsersOk(us) && OneEach(us) && NameByFd(us, to) == Some(u)
    requires FitsAsLeft(h) && ValidGroup(h) && ValidMembers(ms)
    ensures AllTold(OneIf(h, ms, u)) && PacketsTo(Copies(us, ms, LeftPacket(h)), to) == LeftPackets(OneIf(h, ms, u))
  {
    hide UsersOk, OneEach, FitsAsLeft, NameByFd, PacketsTo, Copies, ValidGroup, ValidMembers, LeftPacket;
    CopiesReachMembers(us, ms, LeftPacket(h), to);
    OneLeft(h);
  }

  lemma OneLeft(h: Group)
    requires FitsAsLeft(h) && ValidGroup(h)
    ensures AllTold([h]) && LeftPackets([h]) == [LeftPacket(h)]
  {
    hide FitsAsLeft, ValidGroup, LeftPacket;
    assert [h][1..] == [];
  }

  lemma RoundsValid(w: World, fd: int, a: nat, b: nat)
    requires Inv(w) && OneEach(w.users) && NameByFd(w.users, fd).Some? && a <= b <= |Rounds(w, fd)|
    ensures forall i :: 0 <= i < b - a ==> ValidMembers(Rounds(w, fd)[a..b][i].members)
  {
    hide Inv, OneEach, NameByFd, Rounds, ValidMembers;
    forall i | 0 <= i < b - a ensures ValidMembers(Rounds(w, fd)[a..b][i].members) { RoundFacts(w, fd, a + i); }
  }

  lemma SliceValid(ms: seq<Bytes>, a: nat, b: nat)
    requires ValidMembers(ms) && a <= b <= |ms|
    ensures ValidMembers(ms[a..b]) && (a == 0 ==> ms[a..b] == ms[..b]) && (b == |ms| ==> ms[a..b] == ms[a..])
  {
  }

  lemma IndexOfOwn(ms: seq<Bytes>, k: nat)
    requires ValidMembers(ms) && k < |ms|
    ensures MemberIndex(ms, ms[k]) == k
  {
    var i := MemberIndex(ms, ms[k]);
    assert ms[k] in ms;
  }

  /** The group without member `k` is kept, and is among the changes, when that member leaves. */
  lemma {:induction false} WithoutIsKept(gs: seq<Group>, h: Group, k: nat)
    requires AllValid(gs) && h in gs && k < |h.members| && |h.members| > 1
    ensures Without(h, k) in RemoveMember(gs, h.members[k]) && Without(h, k) in Changed(gs, h.members[k])
    ensures h !in RemoveMember(gs, h.members[k])
  {
    hide ValidGroup, MemberIndex, Without;
    if gs[0] == h {
      MembersOfValid(h);
      IndexOfOwn(h.members, k);
    } else {
      WithoutIsKept(gs[1..], h, k);
    }
    NotKeptWhole(gs, h, k);
  }

  lemma NotKeptWhole(gs: seq<Group>, h: Group, k: nat)
    requires AllValid(gs) && h in gs && k < |h.members|
    ensures h !in RemoveMember(gs, h.members[k])
  {
    hide RemoveMember, ValidGroup;
    var rs := RemoveMember(gs, h.members[k]);
    assert ValidName(h.members[k]) by { MembersOfValid(h); }
    assert h.members[k] in h.members;
    if h in rs {
      var j :| 0 <= j < |rs| && rs[j] == h;
      var i := RemovedFrom(gs, h.members[k], j);
    }
  }

  // ---------- who is left with an outdated group ----------

  /** The mirror is updated by what was told before, between and after, in this order. */
  lemma Layers(s: G.Session, a: seq<Group>, b: seq<Group>, c: seq<Group>)
    requires AllTold(a) && AllTold(b) && AllTold(c)
    ensures Absorb(s, LeftPackets(a) + LeftPackets(b) + LeftPackets(c)).groups == Updated(Updated(Updated(s.groups, a), b), c)
  {
    hide FitsAsLeft, ValidGroup, LeftPackets, Absorb, Updated;
    AbsorbAppend(s, LeftPackets(a) + LeftPackets(b), LeftPackets(c));
    AbsorbAppend(s, LeftPackets(a), LeftPackets(b));
    AbsorbLeft(s, a);
    AbsorbLeft(Absorb(s, LeftPackets(a)), b);
    AbsorbLeft(Absorb(Absorb(s, LeftPackets(a)), LeftPackets(b)), c);
  }

  predicate NoneWith(gs: seq<Group>, id: Bytes) {
    forall i :: 0 <= i < |gs| ==> gs[i].id != id
  }

  /** The last layer that has a group decides. */
  lemma LastLayer(cache: map<Bytes, G.GroupInfo>, a: seq<Group>, b: seq<Group>, c: seq<Group>, g: Group)
    requires DistinctIds(a) && DistinctIds(b) && DistinctIds(c)
    ensures var mirror := Updated(Updated(Updated(cache, a), b), c);
            && (g in c ==> g.id in mirror && mirror[g.id] == G.InfoOf(g))
            && (g in b && NoneWith(c, g.id) ==> g.id in mirror && mirror[g.id] == G.InfoOf(g))
            && (g in a && NoneWith(b, g.id) && NoneWith(c, g.id) ==> g.id in mirror && mirror[g.id] == G.InfoOf(g))
  {
    hide Updated, G.InfoOf;
    UpdatedLookup(cache, a);
    UpdatedLookup(Updated(cache, a), b);
    UpdatedLookup(Updated(Updated(cache, a), b), c);
  }

  /** In round `i` the user is told before the failed send. */
  predicate Early(w: World, fd: int, f: nat, k: nat, i: nat, u: Bytes)
    requires HasSend(w, fd, f, k)
  {
    i < f || (i == f && u in Rounds(w, fd)[f].members[..k])
  }

  lemma ToldIn(ps: seq<Group>, a: nat, b: nat, u: Bytes)
    requires DistinctIds(ps) && a <= b <= |ps|
    ensures DistinctIds(ToldOf(ps[a..b], u))
    ensures forall g :: g in ToldOf(ps[a..b], u) ==> exists i :: a <= i < b && ps[i] == g
    ensures forall i :: a <= i < b && FitsAsLeft(ps[i]) && u in ps[i].members ==> ps[i] in ToldOf(ps[a..b], u)
  {
    hide FitsAsLeft;
    ToldOfMeaning(ps[a..b], u);
    forall g | g in ToldOf(ps[a..b], u) ensures exists i :: a <= i < b && ps[i] == g {
      var j :| 0 <= j < |ps[a..b]| && ps[a..b][j] == g;
      assert ps[a + j] == g;
    }
    forall i | a <= i < b && FitsAsLeft(ps[i]) && u in ps[i].members ensures ps[i] in ToldOf(ps[a..b], u) {
      assert ps[a..b][i - a] == ps[i];
    }
  }

  /** A group is told before or after the failed send, and not both. */
  lemma BeforeOrAfter(w: World, fd: int, f: nat, k: nat, i: nat, u: Bytes)
    requires Inv(w) && OneEach(w.users) && w.issued <= IDS + 1 && HasSend(w, fd, f, k) && u != Missed(w, fd, f, k)
    requires i < |Rounds(w, fd)| && FitsAsLeft(Rounds(w, fd)[i]) && u in Rounds(w, fd)[i].members
    ensures DistinctIds(ToldBefore(w, fd, f, k, u)) && DistinctIds(ToldAfter(w, fd, f, k, u))
    ensures var c := Rounds(w, fd)[i];
            if Early(w, fd, f, k, i, u) then c in ToldBefore(w, fd, f, k, u) && NoneWith(ToldAfter(w, fd, f, k, u), c.id)
            else c in ToldAfter(w, fd, f, k, u)
  {
    hide Inv, OneEach, FitsAsLeft, ToldOf, ValidGroup, Rounds, NameByFd;
    var ps := Rounds(w, fd);
    var h := ps[f];
    AllRoundsValid(w, fd, f, k);
    ToldIn(ps, 0, f, u);
    ToldIn(ps, f + 1, |ps|, u);
    assert ps[0..f] == ps[..f] && ps[f + 1..|ps|] == ps[f + 1..];
    RoundFacts(w, fd, f);
    SidesOf(h.members, k, u);
    OneMoreDistinct(ps, ToldOf(ps[..f], u), ToldOf(ps[f + 1..], u), f);
    if Early(w, fd, f, k, i, u) { NotAfter(ps, ToldOf(ps[f + 1..], u), f, i); }
  }

  lemma NotAfter(ps: seq<Group>, b: seq<Group>, f: nat, i: nat)
    requires DistinctIds(ps) && i <= f < |ps|
    requires forall g :: g in b ==> exists n :: f + 1 <= n < |ps| && ps[n] == g
    ensures NoneWith(b, ps[i].id) && (i < f ==> NoneWith([ps[f]] + b, ps[i].id))
  {
    forall j | 0 <= j < |b| ensures b[j].id != ps[i].id { assert b[j] in b; }
  }

  lemma SidesOf(ms: seq<Bytes>, k: nat, u: Bytes)
    requires ValidMembers(ms) && k < |ms| && u != ms[k]
    ensures u in ms <==> u in ms[..k] || u in ms[k + 1..]
    ensures !(u in ms[..k] && u in ms[k + 1..])
  {
    assert ms == ms[..k] + [ms[k]] + ms[k + 1..];
  }

  lemma OneMoreDistinct(ps: seq<Group>, a: seq<Group>, b: seq<Group>, f: nat)
    requires DistinctIds(ps) && f < |ps| && DistinctIds(a) && DistinctIds(b)
    requires forall g :: g in a ==> exists i :: 0 <= i < f && ps[i] == g
    requires forall g :: g in b ==> exists i :: f + 1 <= i < |ps| && ps[i] == g
    ensures DistinctIds(a + [ps[f]]) && DistinctIds([ps[f]] + b) && DistinctIds(a + []) && DistinctIds([] + b)
  {
    assert a + [] == a && [] + b == b;
    forall j | 0 <= j < |a| ensures a[j].id != ps[f].id { assert a[j] in a; }
    forall j | 0 <= j < |b| ensures b[j].id != ps[f].id { assert b[j] in b; }
  }

  /** A group as it is when member `m` has left it, if `m` was in it. */
  function Now(c: Group, m: Bytes): Group {
    if MemberIndex(c.members, m) >= 0 then Without(c, MemberIndex(c.members, m)) else c
  }

  lemma NowFacts(gs: seq<Group>, c: Group, m: Bytes, u: Bytes)
    requires AllValid(gs) && c in gs && ValidName(m) && u in c.members && u != m
    ensures Now(c, m) in RemoveMember(gs, m) && Now(c, m).id == c.id && u in Now(c, m).members
    ensures m !in c.members ==> Now(c, m) == c
    ensures m in c.members ==> Now(c, m) in Changed(gs, m) && c !in RemoveMember(gs, m)
    ensures m in c.members && FitsAsLeft(c) ==> FitsAsLeft(Now(c, m))
  {
    hide FitsAsLeft, ValidGroup, RemoveMember, Changed;
    LeaveOne(c, m);
    var i :| 0 <= i < |gs| && gs[i] == c;
    if m in c.members {
      var k := MemberIndex(c.members, m);
      TwoMembers(c.members, m, u);
      WithoutIsKept(gs, c, k);
      if FitsAsLeft(c) { FitsWithout(c, k); }
    } else {
      var j := KeptIn(gs, m, i);
      assert RemoveMember(gs, m)[j] == c;
    }
  }

  lemma TwoMembers(ms: seq<Bytes>, m: Bytes, u: Bytes)
    requires m in ms && u in ms && u != m
    ensures |ms| > 1
  {
    var i :| 0 <= i < |ms| && ms[i] == m;
    var j :| 0 <= j < |ms| && ms[j] == u;
    assert i != j;
  }

  /** Of the cleanup's rounds a user is told of the group exactly when it changed and is pushed. */
  lemma Between(w: World, fd: int, f: nat, k: nat, i: nat, u: Bytes)
    requires Inv(w) && OneEach(w.users) && w.issued <= IDS + 1 && HasSend(w, fd, f, k) && u != Missed(w, fd, f, k)
    requires i < |Rounds(w, fd)| && FitsAsLeft(Rounds(w, fd)[i]) && u in Rounds(w, fd)[i].members
    ensures var c, m, told := Rounds(w, fd)[i], Missed(w, fd, f, k), ToldBetween(w, fd, f, k, u);
            && DistinctIds(told) && Now(c, m) in RemoveMember(Departed(w, fd).groups, m) && Now(c, m).id == c.id
            && (m in c.members ==> c !in RemoveMember(Departed(w, fd).groups, m))
            && (m !in c.members ==> Now(c, m) == c)
            && if m in c.members && Now(c, m) in PushedAfter(w, fd, f, k) then Now(c, m) in told else NoneWith(told, c.id)
  {
    hide Inv, OneEach, FitsAsLeft, ToldOf, ValidGroup, Rounds, NameByFd, RemoveMember, Changed, Pushed, MemberIndex, Now;
    var gs, c, m := Departed(w, fd).groups, Rounds(w, fd)[i], Missed(w, fd, f, k);
    AllRoundsValid(w, fd, f, k);
    RoundFacts(w, fd, i);
    MissedFacts(w, fd, f, k);
    NowFacts(gs, c, m, u);
    PushedFacts(gs, m);
    ChangedDistinct(gs, m);
    ToldOfMeaning(Pushed(gs, m), u);
    var told := ToldOf(Pushed(gs, m), u);
    forall j | 0 <= j < |told| && told[j].id == c.id ensures m in c.members && told[j] == Now(c, m) {
      assert told[j] in Pushed(gs, m) && told[j] in Changed(gs, m);
      SameIdChanged(gs, c, m, told[j]);
    }
  }

  lemma SameIdChanged(gs: seq<Group>, c: Group, m: Bytes, t: Group)
    requires AllValid(gs) && DistinctIds(gs) && ValidName(m) && c in gs && t in Changed(gs, m) && t.id == c.id
    ensures m in c.members
    ensures forall g :: g in Changed(gs, m) && g.id == c.id ==> t == g
  {
    hide Changed, ValidGroup;
    ChangedHad(gs, m);
    ChangedDistinct(gs, m);
    assert HadMember(gs, t.id, m);
    var i :| 0 <= i < |gs| && gs[i].id == t.id && m in gs[i].members;
    var j :| 0 <= j < |gs| && gs[j] == c;
    assert i == j;
  }

  /**
   Stale events, exactly: when one send of a departure fails, to member `m` of some round, then the mirror of
   any other user `u` ends with a group it was told of as the group now is exactly when `m` was not in
   it, or `u` was told before that send and the group is among the first 64 that change when `m` is
   cleaned up. Otherwise it ends with the group as it was, `m` still a member.
   */
  lemma StaleExactlyAfterFailure(env: Env, w: World, fd: int, f: nat, k: nat, i: nat, to: int, u: Bytes, s: G.Session)
    requires Inv(w) && OneEach(w.users) && w.issued <= IDS + 1 && HasSend(w, fd, f, k) && FailsOnly(env, w, fd, f, k)
    requires StaysOn(w, fd, f, k, to, u)
    requires i < |Rounds(w, fd)| && FitsAsLeft(Rounds(w, fd)[i]) && u in Rounds(w, fd)[i].members
    ensures var c, m, r := Rounds(w, fd)[i], Missed(w, fd, f, k), Cleanup(env, w, fd);
            var mirror := Absorb(s, PacketsTo(NewSends(w, r), to)).groups;
            && Now(c, m) in r.groups && (m in c.members ==> c !in r.groups) && (m !in c.members ==> Now(c, m) == c)
            && c.id in mirror
            && mirror[c.id] == G.InfoOf(if m in c.members && Early(w, fd, f, k, i, u) && Now(c, m) in PushedAfter(w, fd, f, k)
                                        then Now(c, m) else c)
  {
    hide Inv, OneEach, FitsAsLeft, Cleanup, NameByFd, PushedAfter, Absorb, PacketsTo, Departed, ToldBefore, ToldBetween, ToldAfter,
      LeftPackets, ValidGroup, RemoveMember, Rounds, Now, Early, Updated, G.InfoOf, FailsOnly, DistinctIds;
    PacketsAround(env, w, fd, f, k, to, u);
    BeforeOrAfter(w, fd, f, k, i, u);
    Between(w, fd, f, k, i, u);
    var c, m := Rounds(w, fd)[i], Missed(w, fd, f, k);
    var before, between, after := ToldBefore(w, fd, f, k, u), ToldBetween(w, fd, f, k, u), ToldAfter(w, fd, f, k, u);
    Layers(s, before, between, after);
    LastLayer(s.groups, before, between, after, c);
    LastLayer(s.groups, before, between, after, Now(c, m));
  }

  // ---------- an example ----------

  /**
   A failed send can leave a member with an outdated group: a leaves [a, b, c], the event to b fails,
   b is cleaned up too, and c is told "c alone" before it is told "b and c".
   */
  lemma StaleEventAfterNestedCleanup(env: Env, a: User, b: User, c: User, g: Group)
    requires UsersOk([a, b, c]) && At(a, 1) && At(b, 2) && At(c, 3)
    requires ValidGroup(g) && g.members == [a.name, b.name, c.name]
    requires !env.fate(0) && env.fate(1) && env.fate(2)
    ensures var r := Cleanup(env, World([a, b, c], [], [g], 2, []), 1);
            && r.groups == [g.(members := [c.name])]
            && |r.log| == 3 && r.log[2].fd == 3 && r.log[2].ok
            && DecodeEvent(r.log[2].packet.data)
               == Some(GroupEvent(EVENT_MEMBER_LEFT, g.(members := [b.name, c.name])))
  {
    hide EventFields, Build, Cleanup, SendEach, SendToMember, ValidGroup, FindFd, GetFd, UsersOk, SetOffline, FitsAsLeft,
      DecodeEvent;
    var us := [a, b, c];
    var g2, g1 := g.(members := [b.name, c.name]), g.(members := [c.name]);
    TwoLeft(g, a, b, c);
    ThreeUsers(a, b, c);
    var us1 := [a.(online := false, fd := -1), b, c];
    var us2 := [us1[0], b.(online := false, fd := -1), c];
    var e2, e1 := LeftPacket(g2), LeftPacket(g1);
    var w0, w1 := World(us, [], [g], 2, []), World(us1, [], [g2], 2, []);
    var w2 := World(us1, [], [g2], 2, [Attempt(2, e2, false)]);
    var w3 := World(us2, [], [g1], 2, [Attempt(2, e2, false)]);
    var w4 := World(us2, [], [g1], 2, [Attempt(2, e2, false), Attempt(3, e1, true)]);
    var w5 := World(us2, [], [g1], 2, [Attempt(2, e2, false), Attempt(3, e1, true), Attempt(3, e2, true)]);
    OnlyGroupDeparture(env, w0, 0, 1, g, [b.name, c.name]);
    OnlyGroupDeparture(env, w2, 1, 2, g2, [c.name]);
    SendInTurn(env, w1, b.name, c.name, e2);
    SendInTurn(env, w3, c.name, c.name, e1);
    OnlineTurn(env, w1, b.name, e2);
    assert Send(env, w1, 2, e2) == w2;
    OnlineTurn(env, w3, c.name, e1);
    OnlineTurn(env, w4, c.name, e2);
    assert Cleanup(env, w2, 2) == w4 && Cleanup(env, w0, 1) == w5;
  }

  lemma ThreeUsers(a: User, b: User, c: User)
    requires UsersOk([a, b, c]) && At(a, 1) && At(b, 2) && At(c, 3)
    ensures var us, us1 := [a, b, c], [a.(online := false, fd := -1), b, c];
            var us2 := [us1[0], b.(online := false, fd := -1), c];
            && FindFd(us, 1) == 0 && FindFd(us1, 2) == 1 && SetOffline(us, 0) == us1 && SetOffline(us1, 1) == us2
            && GetFd(us1, b.name) == Fd(2) && GetFd(us2, c.name) == Fd(3) && ValidName(a.name) && ValidName(b.name)
  {
    var us, us1 := [a, b, c], [a.(online := false, fd := -1), b, c];
    var us2 := [us1[0], b.(online := false, fd := -1), c];
    assert ValidUser(us[0]) && ValidUser(us[1]) && ValidUser(us[2]);
    assert us[0].name != us[1].name && us[0].name != us[2].name && us[1].name != us[2].name;
    FindFdIs(us, 1, 0);
    FindFdIs(us1, 2, 1);
    FindUserIs(us1, b.name, 1);
    FindUserIs(us2, c.name, 2);
  }

  lemma TwoLeft(g: Group, a: User, b: User, c: User)
    requires ValidGroup(g) && g.members == [a.name, b.name, c.name]
    ensures var g2, g1 := g.(members := [b.name, c.name]), g.(members := [c.name]);
            && FitsAsLeft(g2) && FitsAsLeft(g1)
            && DecodeEvent(Build(EventFields(EVENT_MEMBER_LEFT, g2)).value) == Some(GroupEvent(EVENT_MEMBER_LEFT, g2))
  {
    hide EventFields, Build;
    var g2, g1 := g.(members := [b.name, c.name]), g.(members := [c.name]);
    assert g.members[0] == a.name && g.members[1] == b.name && g.members[2] == c.name;
    assert ValidGroup(g2) && ValidGroup(g1);
    SmallGroupsFit(EVENT_MEMBER_LEFT, g2);
    SmallGroupsFit(EVENT_MEMBER_LEFT, g1);
    EventRoundTrip(EVENT_MEMBER_LEFT, g2);
  }
}
