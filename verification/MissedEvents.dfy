/** Two runs after which a member's mirror is wrong although every send succeeds. */
module MissedEvents {
  import opened Basics
  import opened Decimal
  import opened Wire
  import opened Credentials
  import opened GroupModel
  import opened Payload
  import opened UserModel
  import opened ServerModel
  import opened ServerSafety
  import opened ServerRuns
  import opened ChatSystem
  import opened CacheAgreement
  import opened MirrorRuns
  import G = Gateway

  // ---------- asking for a group ----------

  /** The request for a group with these other members. */
  function Request(name: Bytes, others: seq<Bytes>): Packet {
    PackedPacket(MSG_GROUP_CREATE, [], [], Join([name] + others))
  }

  function Requested(name: Bytes, others: seq<Bytes>): Event {
    Arrived(0, Request(name, others), None, false)
  }

  lemma RequestReads(name: Bytes, others: seq<Bytes>)
    requires NulFree([name] + others) && |Join([name] + others)| <= PACKET_DATA_MAX && |others| < GROUP_PAYLOAD_MAX_FIELDS
    ensures var d := Request(name, others).data;
            ParsesInC(d) && Fields(d) == [name] + others
  {
    hide Join, Fields, ParsesInC;
    BuildMeaning([name] + others);
    BuiltPayloadParses([name] + others);
  }

  /** What a user asks for is made when the others named are distinct users online. */
  lemma RequestMakes(w: World, user: Bytes, name: Bytes, others: seq<Bytes>)
    requires NameByFd(w.users, 0) == Some(user) && ValidGroupName(name) && |w.groups| < GROUP_MAX_GROUPS
    requires others != [] && ValidMembers([user] + others) && |others| < GROUP_MAX_MEMBERS && AllOnline(w.users, others)
    requires |Join([name] + others)| <= PACKET_DATA_MAX
    ensures NewGroup(w, 0, Request(name, others)) == Some(Group(FormatId(w.issued), name, user, [user] + others))
  {
    hide Join, Fields, ParsesInC, NameByFd, GetFd, FormatId, CreateGroup, Request;
    var all, p := [user] + others, Request(name, others);
    assert all[0] == user;
    forall i | 0 <= i < |others| ensures others[i] == all[i + 1] && ValidName(others[i]) {
      assert ValidName(all[i + 1]);
    }
    assert NulFree([name] + others);
    RequestReads(name, others);
    assert others[0] == all[1] && others[0] in others;
    assert ([name] + others)[1..] == others;
    assert CheckCreate(w, 0, p) == Wanted(user, name, others);
    CreateMeaning(w.groups, w.issued, user, name, others);
    FirstSeenDistinct(all);
    assert ValidName(all[0]);
  }

  /** A creation brings the mirror of another socket to the new groups. */
  lemma RequestMirrors(env: Env, w: World, user: Bytes, name: Bytes, others: seq<Bytes>, to: int, s: G.Session)
    requires Reliable(env) && Inv(w) && OneEach(w.users) && w.issued <= IDS && Mirrors(w, to, s) && to != 0
    requires NameByFd(w.users, 0) == Some(user) && ValidGroupName(name) && |w.groups| < GROUP_MAX_GROUPS
    requires others != [] && ValidMembers([user] + others) && |others| < GROUP_MAX_MEMBERS && AllOnline(w.users, others)
    requires |Join([name] + others)| <= PACKET_DATA_MAX
    requires FitsAsCreated(Group(FormatId(w.issued), name, user, [user] + others))
    ensures var r := Step(env, w, Requested(name, others));
            && Inv(r) && r.users == w.users && r.issued == w.issued + 1 && w.log <= r.log
            && r.groups == [Group(FormatId(w.issued), name, user, [user] + others)] + w.groups
            && Mirrors(r, to, Absorb(s, PacketsTo(NewSends(w, r), to)))
  {
    hide Inv, OneEach, Join, Mirrors, FitsAsCreated, FormatId, NewGroup, Absorb, PacketsTo, HandleGroupCreate, NameByFd, AllOnline,
      ValidMembers, ValidGroupName;
    RequestMakes(w, user, name, others);
    CreateMirrors(env, w, 0, Request(name, others), to, s);
    StepKeepsInv(env, w, Requested(name, others));
    assert Step(env, w, Requested(name, others)) == HandleGroupCreate(env, w, 0, Request(name, others));
  }

  // ---------- more than 64 changes ----------

  const A: Bytes := [97]
  const B: Bytes := [98]

  /** a is online on socket 0 and b on socket 1, alone on them, and there are no groups yet. */
  ghost predicate Two(w: World) {
    && Inv(w) && OneEach(w.users) && w.groups == [] && w.issued <= IDS - 128
    && NameByFd(w.users, 0) == Some(A) && NameByFd(w.users, 1) == Some(B)
  }

  /** The server after a has asked for `n` groups with b. */
  function Made(env: Env, w: World, n: nat): World {
    if n == 0 then w else Step(env, Made(env, w, n - 1), Requested([103], [B]))
  }

  /** b's session after what these steps sent it. */
  function Told(env: Env, w: World, n: nat, s: G.Session): G.Session {
    if n == 0 then s
    else Absorb(Told(env, w, n - 1, s), PacketsTo(NewSends(Made(env, w, n - 1), Made(env, w, n)), 1))
  }

  lemma PairFits(w: World)
    requires Inv(w) && OneEach(w.users) && NameByFd(w.users, 0) == Some(A) && NameByFd(w.users, 1) == Some(B)
    ensures ValidGroupName([103]) && ValidMembers([A] + [B]) && [A] + [B] == [A, B] && AllOnline(w.users, [B])
    ensures |Join([[103 as byte]] + [B])| <= PACKET_DATA_MAX
    ensures FitsAsCreated(Group(FormatId(w.issued), [103], A, [A] + [B]))
  {
    hide FormatId, NameByFd, GetFd, Build, EventFields;
    assert A[0] != B[0];
    InvParts(w);
    SocketOfUser(w.users, 1, B);
    FormatIdFacts(w.issued);
    SmallGroupsFit(EVENT_CREATED, Group(FormatId(w.issued), [103], A, [A] + [B]));
    JoinLength([[103 as byte]] + [B]);
    TotalLengthBounds([[103 as byte]] + [B], 1, 1);
  }

  lemma {:induction false} MadeFacts(env: Env, w: World, n: nat, s: G.Session)
    requires Reliable(env) && Two(w) && n <= 128 && s.loggedIn && CString(s.username) == B && s.groups == map[]
    ensures var r := Made(env, w, n);
            && Inv(r) && r.users == w.users && r.issued == w.issued + n && |r.groups| == n
            && (forall i :: 0 <= i < n ==> r.groups[i].members == [A, B])
            && Mirrors(r, 1, Told(env, w, n, s))
  {
    hide Inv, OneEach, Mirrors, Step, Absorb, PacketsTo, FormatId, NameByFd, AllOnline, FitsAsCreated, Join;
    if n == 0 {
      EmptyMirror(w, 1, B, s);
    } else {
      MadeFacts(env, w, n - 1, s);
      var before := Made(env, w, n - 1);
      PairFits(before);
      RequestMirrors(env, before, A, [103], [B], 1, Told(env, w, n - 1, s));
    }
  }

  lemma EmptyMirror(w: World, fd: int, user: Bytes, s: G.Session)
    requires w.groups == [] && NameByFd(w.users, fd) == Some(user)
    requires s.loggedIn && CString(s.username) == user && s.groups == map[]
    ensures Mirrors(w, fd, s)
  {
  }

  lemma PairLoses(g: Group)
    requires g.members == [A, B]
    ensures MemberIndex(g.members, A) == 0 && Without(g, 0).members == [B]
    ensures ValidGroup(g) ==> FitsAsLeft(Without(g, 0))
  {
    hide Build, EventFields;
    assert RemoveAt([A, B], 0) == [B];
    if ValidGroup(g) {
      assert ValidGroup(Without(g, 0));
      SmallGroupsFit(EVENT_MEMBER_LEFT, Without(g, 0));
    }
  }

  lemma {:induction false} PairsChange(gs: seq<Group>)
    requires AllValid(gs) && forall i :: 0 <= i < |gs| ==> gs[i].members == [A, B]
    ensures |Changed(gs, A)| == |gs| && forall i :: 0 <= i < |gs| ==> Changed(gs, A)[i].members == [B] && FitsAsLeft(Changed(gs, A)[i])
  {
    hide MemberIndex, Without, ValidGroup, FitsAsLeft;
    if gs != [] {
      PairLoses(gs[0]);
      PairsChange(gs[1..]);
      assert Changed(gs, A) == [Without(gs[0], 0)] + Changed(gs[1..], A);
    }
  }

  lemma PairsAnnounced(gs: seq<Group>)
    requires AllValid(gs) && forall i :: 0 <= i < |gs| ==> gs[i].members == [A, B]
    ensures AllAnnounced(gs, A, B) <==> |gs| <= 64
  {
    hide Changed, FitsAsLeft, ValidGroup;
    PairsChange(gs);
    var all := Changed(gs, A);
    if |gs| > 64 { assert all[64].members == [B] && B in all[64].members; }
  }

  /**
   a makes any number of groups with b, up to the 128 there may be; b is told of each and has a right mirror. Then a leaves: b's
   mirror is right again exactly when there were at most 64.
   */
  lemma SixtyFourGroupsAreTold(env: Env, w: World, n: nat, s: G.Session)
    requires Reliable(env) && Two(w) && n <= 128 && s.loggedIn && CString(s.username) == B && s.groups == map[]
    ensures var before, t := Made(env, w, n), Told(env, w, n, s);
            var after := Step(env, before, HungUp(0));
            && |before.groups| == n && Mirrors(before, 1, t) && before.log <= after.log
            && (Mirrors(after, 1, Absorb(t, PacketsTo(NewSends(before, after), 1))) <==> n <= 64)
  {
    hide Inv, OneEach, Mirrors, Cleanup, AllAnnounced, Absorb, PacketsTo, NameByFd, Made, Told, ValidGroup;
    MadeFacts(env, w, n, s);
    var before := Made(env, w, n);
    InvParts(before);
    PairsAnnounced(before.groups);
    DepartureMirrors(env, before, 0, 1, Told(env, w, n, s));
  }

  /** So with 65 groups b is never told about one of them. */
  lemma SixtyFifthGroupIsMissed(env: Env, w: World, s: G.Session)
    requires Reliable(env) && Two(w) && s.loggedIn && CString(s.username) == B && s.groups == map[]
    ensures var before, t := Made(env, w, 65), Told(env, w, 65, s);
            var after := Step(env, before, HungUp(0));
            && Mirrors(before, 1, t) && before.log <= after.log
            && !Mirrors(after, 1, Absorb(t, PacketsTo(NewSends(before, after), 1)))
  {
    hide *;
    SixtyFourGroupsAreTold(env, w, 65, s);
  }

  // ---------- an event of more than 1024 bytes ----------

  /** Names of 31 bytes. */
  function LongName(i: nat): (name: Bytes)
    requires i < 30
    ensures |name| == USERNAME_MAX_LEN - 1 && ValidName(name) && name[0] == (98 + i) as byte
  {
    seq(USERNAME_MAX_LEN - 1, _ => (98 + i) as byte)
  }

  const LongNames: seq<Bytes> := seq(30, i requires 0 <= i < 30 => LongName(i))

  /** A group name of 39 bytes. */
  const LongTitle: Bytes := seq(39, _ => 103 as byte)

  /** Its event fits while it is new, in 1023 bytes, but not without its creator, in 1025. */
  const LongGroup := Group(FormatId(1), LongTitle, A, [A] + LongNames)

  lemma LongGroupFits()
    ensures ValidGroupName(LongTitle) && ValidMembers([A] + LongNames)
    ensures |Join([LongTitle] + LongNames)| <= PACKET_DATA_MAX
    ensures FitsAsCreated(LongGroup) && !FitsAsLeft(LongGroup.(members := LongNames))
  {
    hide Build, EventFields, LongName, FormatId;
    assert |FormatId(1)| == 7 by { ShortId(); }
    assert |Digits(31)| == 2 && |Digits(30)| == 2 by {
      assert Digits(3) == [51];
      assert Digits(31) == Digits(3) + [49] && Digits(30) == Digits(3) + [48];
    }
    TotalLengthBounds(LongNames, 31, 31);
    assert ([A] + LongNames)[1..] == LongNames && ([LongTitle] + LongNames)[1..] == LongNames;
    assert TotalLength([A] + LongNames) == 2 + TotalLength(LongNames);
    assert TotalLength([LongTitle] + LongNames) == 40 + TotalLength(LongNames);
    JoinLength([LongTitle] + LongNames);
    EventSize(EVENT_CREATED, LongGroup);
    EventSize(EVENT_MEMBER_LEFT, LongGroup.(members := LongNames));
    LongMembers();
  }

  lemma ShortId()
    ensures |FormatId(1)| == 7
  {
    assert Digits(1) == [49];
  }

  lemma LongMembers()
    ensures ValidMembers([A] + LongNames)
  {
    hide LongName;
    var all := [A] + LongNames;
    forall i, j | 0 <= i < j < |all| ensures all[i] != all[j] {
      assert all[j] == LongName(j - 1) && all[i] == if i == 0 then A else LongName(i - 1);
      assert all[i][0] == (97 + i) as byte && all[j][0] == (97 + j) as byte;
    }
  }

  /** a is online on socket 0 and thirty users with long names on the next ones, and there were no groups yet. */
  ghost predicate Thirty(w: World) {
    && Inv(w) && OneEach(w.users) && w.groups == [] && w.issued == 1
    && NameByFd(w.users, 0) == Some(A) && forall i :: 0 <= i < 30 ==> NameByFd(w.users, i + 1) == Some(LongName(i))
  }

  lemma AllLongOnline(w: World)
    requires Thirty(w)
    ensures AllOnline(w.users, LongNames)
  {
    hide LongName, NameByFd, GetFd, Inv, OneEach;
    InvParts(w);
    forall i | 0 <= i < 30 ensures GetFd(w.users, LongNames[i]).Fd? {
      SocketOfUser(w.users, i + 1, LongName(i));
    }
  }

  lemma LongChange(to: nat)
    requires 1 <= to <= 30
    ensures !AllAnnounced([LongGroup], A, LongName(to - 1))
  {
    hide FormatId, Build, LongName;
    LongGroupFits();
    FirstLeaves(LongGroup, A, LongNames);
    var left := LongGroup.(members := LongNames);
    assert Changed([LongGroup], A)[0] == left;
    assert left.members[to - 1] == LongName(to - 1);
  }

  /**
   a makes a group with thirty users with long names; all are told of it and have right mirrors; then a
   leaves, and nobody can be told.
   */
  lemma LongEventIsMissed(env: Env, w: World, to: nat, s: G.Session)
    requires Reliable(env) && Thirty(w) && 1 <= to <= 30
    requires s.loggedIn && CString(s.username) == LongName(to - 1) && s.groups == map[]
    ensures var before := Step(env, w, Requested(LongTitle, LongNames));
            var t := Absorb(s, PacketsTo(NewSends(w, before), to));
            var after := Step(env, before, HungUp(0));
            && before.groups == [LongGroup] && Mirrors(before, to, t) && before.log <= after.log
            && !Mirrors(after, to, Absorb(t, PacketsTo(NewSends(before, after), to)))
  {
    hide Inv, OneEach, Mirrors, Cleanup, AllAnnounced, Absorb, PacketsTo, NameByFd, LongName, FitsAsCreated, FitsAsLeft, FormatId,
      Join, ValidMembers, ValidGroupName, AllOnline, Process;
    LongGroupFits();
    AllLongOnline(w);
    LongChange(to);
    assert NameByFd(w.users, to - 1 + 1) == Some(LongName(to - 1));
    EmptyMirror(w, to, LongName(to - 1), s);
    RequestMirrors(env, w, A, LongTitle, LongNames, to, s);
    var before := Step(env, w, Requested(LongTitle, LongNames));
    assert [LongGroup] + [] == [LongGroup];
    DepartureMirrors(env, before, 0, to, Absorb(s, PacketsTo(NewSends(w, before), to)));
  }

  // ---------- such servers exist ----------

  /** A user online on a socket; salt and hash do not matter here. */
  function Online(name: Bytes, fd: int): User {
    User(name, seq(SALT_HEX_LEN, _ => 48 as byte), seq(PASSWORD_HASH_HEX_LEN, _ => 48 as byte), true, fd)
  }

  function OnlyUsers(us: seq<User>): World {
    World(us, [], [], 1, [])
  }

  lemma TwoUsers()
    ensures Two(OnlyUsers([Online(A, 0), Online(B, 1)]))
  {
    var us := [Online(A, 0), Online(B, 1)];
    assert us[0].name == A && us[1].name == B && A[0] != B[0];
    FindFdIs(us, 0, 0);
    FindFdIs(us, 1, 1);
  }

  function ThirtyUsers(): seq<User> {
    [Online(A, 0)] + seq(30, i requires 0 <= i < 30 => Online(LongName(i), i + 1))
  }

  lemma ThirtyUsersOnline()
    ensures Thirty(OnlyUsers(ThirtyUsers()))
  {
    hide LongName;
    var us := ThirtyUsers();
    assert us[0] == Online(A, 0) && forall i :: 0 <= i < 30 ==> us[i + 1] == Online(LongName(i), i + 1);
    forall i | 0 <= i < 31 ensures us[i].name[0] == (97 + i) as byte && ValidUser(us[i]) && us[i].fd == i && us[i].online {
      assert us[i] == if i == 0 then Online(A, 0) else Online(LongName(i - 1), i);
    }
    forall i | 0 <= i < 31 ensures FindFd(us, i) == i {
      FindFdIs(us, i, i);
    }
  }
}
