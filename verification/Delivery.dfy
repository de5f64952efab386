/**
 What each request does: who is sent what, who is answered how, said in terms of the users, the groups and
 the bytes of the request, whatever sends fail.
 */
module Delivery {
  import opened Basics
  import opened Wire
  import opened Credentials
  import opened GroupModel
  import opened Payload
  import opened GroupStore
  import opened UserModel
  import opened ServerModel
  import opened ServerSafety
  import opened ServerRuns

  // ---------- who is where ----------

  /** User `k` is the one a socket stands for: the first in list order who is online on it. */
  predicate Holds(us: seq<User>, fd: int, k: nat) {
    k < |us| && us[k].online && us[k].fd == fd && forall j :: 0 <= j < k ==> !(us[j].online && us[j].fd == fd)
  }

  predicate NobodyHolds(us: seq<User>, fd: int) {
    forall j :: 0 <= j < |us| ==> !(us[j].online && us[j].fd == fd)
  }

  lemma HolderIs(us: seq<User>, fd: int, k: nat)
    requires Holds(us, fd, k)
    ensures NameByFd(us, fd) == Some(us[k].name)
  {
    FindFdIs(us, fd, k);
  }

  lemma NoHolder(us: seq<User>, fd: int)
    requires NobodyHolds(us, fd)
    ensures NameByFd(us, fd) == None
  {
    FindFdIs(us, fd, |us|);
  }

  /** User `k` has that name and is online. */
  predicate OnlineAs(us: seq<User>, name: Bytes, k: nat) {
    k < |us| && us[k].name == name && us[k].online
  }

  predicate NotOnline(us: seq<User>, name: Bytes) {
    forall k :: 0 <= k < |us| ==> !(us[k].name == name && us[k].online)
  }

  lemma OnlineAt(us: seq<User>, name: Bytes, k: nat)
    requires UsersOk(us) && OnlineAs(us, name, k)
    ensures GetFd(us, name) == Fd(us[k].fd)
  {
    FindUserAt(us, k);
    assert ValidUser(us[k]);
  }

  /** Why nobody can be reached under a name. */
  function WhyNot(us: seq<User>, name: Bytes): UserResult {
    if !ValidName(name) then BadInput else if exists k :: 0 <= k < |us| && us[k].name == name then Offline else Unknown
  }

  lemma NotOnlineAnywhere(us: seq<User>, name: Bytes)
    requires NotOnline(us, name)
    ensures GetFd(us, name) == NoFd(WhyNot(us, name))
  {
    var i := FindUser(us, name);
    if i < |us| { assert us[i].name == name; }
  }

  // ---------- answers ----------

  /** An answer is one send to that socket; it reads as a text from "server" to nobody. */
  lemma AnswerMeaning(env: Env, w: World, fd: int, kind: int, reply: Reply)
    ensures var r, p := Answer(env, w, fd, kind, reply), TextPacket(kind, env.wording(reply));
            && r == w.(log := w.log + [Attempt(fd, p, env.fate(|w.log|))])
            && JsView(p) == JsPacket(kind, [115, 101, 114, 118, 101, 114], [], env.wording(reply) + [0], env.wording(reply))
  {
    hide Fixed, CString;
    var text: Bytes := env.wording(reply);
    FixedReadsBack(SERVER_NAME, USERNAME_MAX_LEN);
    FixedReadsBack([], USERNAME_MAX_LEN);
    CStringOf(text, []);
    assert text + [NUL] + [] == text + [NUL];
  }

  // ---------- registering, logging in and out ----------

  /** A registration is answered OK exactly when it adds a user and the line is written. */
  lemma RegisterStep(env: Env, w: World, fd: int, p: Packet, salt: Option<Salt>, appended: bool)
    requires p.kind == MSG_REGISTER
    ensures var name, password := CString(p.sender), CString(p.data);
            var ok, known := ValidName(name) && ValidPassword(password), Known(w.users, name);
            var r := Step(env, w, Arrived(fd, p, salt, appended));
            if ok && salt.Some? && !known then
              var hash := ToHex(env.digest(salt.value, password));
              var line := name + [58] + ToHex(salt.value) + [58] + hash + [10];
              var w1 := w.(users := [User(name, ToHex(salt.value), hash, false, -1)] + w.users,
                           storage := w.storage + if appended then line else []);
              r == if appended then Answer(env, w1, fd, MSG_OK, RegisterOk) else Answer(env, w1, fd, MSG_ERROR, UserFailure(IoFailure))
            else
              r == Answer(env, w, fd, MSG_ERROR, UserFailure(if !ok then BadInput else if salt.None? then IoFailure else Exists))
  {
    hide Register, ValidName, ValidPassword, CString, ToHex, Answer;
    RegisterMeaning(env.digest, w.users, w.storage, CString(p.sender), CString(p.data), salt, appended);
  }

  /**
   A login under a user's name is answered OK exactly when that user is offline and knows the password, and then the
   user is online on the socket the request came from; nothing else changes.
   */
  lemma LoginStep(env: Env, w: World, fd: int, p: Packet, salt: Option<Salt>, appended: bool, k: nat)
    requires Inv(w) && p.kind == MSG_LOGIN && k < |w.users| && w.users[k].name == CString(p.sender)
    ensures var u, password := w.users[k], CString(p.data);
            Step(env, w, Arrived(fd, p, salt, appended))
            == if !ValidPassword(password) then Answer(env, w, fd, MSG_ERROR, UserFailure(BadInput))
               else if !Knows(env.digest, u, password) then Answer(env, w, fd, MSG_ERROR, UserFailure(BadPassword))
               else if u.online then Answer(env, w, fd, MSG_ERROR, UserFailure(AlreadyOnline))
               else Answer(env, w.(users := w.users[k := u.(online := true, fd := fd)]), fd, MSG_OK, LoginOk)
  {
    hide LoginUser, ValidName, ValidPassword, CString, Knows, Answer;
    InvUsers(w);
    assert ValidUser(w.users[k]);
    LoginMeaning(env.digest, w.users, CString(p.sender), CString(p.data), fd);
    SameNameSameUser(w.users, k);
    assert w.(users := w.users) == w;
  }

  lemma SameNameSameUser(us: seq<User>, k: nat)
    requires UniqueNames(us) && k < |us|
    ensures forall j :: 0 <= j < |us| && us[j].name == us[k].name ==> j == k
  {
  }

  lemma UnknownLogin(env: Env, w: World, fd: int, p: Packet, salt: Option<Salt>, appended: bool)
    requires Inv(w) && p.kind == MSG_LOGIN && !Known(w.users, CString(p.sender))
    ensures var ok := ValidName(CString(p.sender)) && ValidPassword(CString(p.data));
            Step(env, w, Arrived(fd, p, salt, appended))
            == Answer(env, w, fd, MSG_ERROR, UserFailure(if ok then Unknown else BadInput))
  {
    hide LoginUser, ValidName, ValidPassword, CString, Answer;
    InvUsers(w);
    LoginMeaning(env.digest, w.users, CString(p.sender), CString(p.data), fd);
    assert w.(users := w.users) == w;
  }

  /** Logging out is a cleanup and an OK, a heartbeat is an OK, and a kind the server does not know is an error. */
  lemma PlainAnswers(env: Env, w: World, fd: int, p: Packet, salt: Option<Salt>, appended: bool)
    ensures var r := Step(env, w, Arrived(fd, p, salt, appended));
            && (p.kind == 9 ==> r == Answer(env, Cleanup(env, w, fd), fd, MSG_OK, LoggedOut))
            && (p.kind == 10 ==> r == Answer(env, w, fd, MSG_OK, HeartbeatOk))
            && (!(1 <= p.kind <= 10) && !(14 <= p.kind <= 16) ==> r == Answer(env, w, fd, MSG_ERROR, BadKind))
  {
    hide Answer, Cleanup;
  }

  // ---------- private messages and files ----------

  /**
   A private or file packet goes, unchanged, to the socket of the online user it names, as the first send. When
   that succeeds, the last packet of a file and a private message are confirmed and nothing else is sent; when it
   fails, that socket is cleaned up and the sender is told.
   */
  lemma ForwardDelivers(env: Env, w: World, fd: int, p: Packet, salt: Option<Salt>, appended: bool, k: nat)
    requires Inv(w) && OnlineAs(w.users, CString(p.receiver), k)
    requires p.kind == MSG_PRIVATE || p.kind == MSG_FILE_BEGIN || p.kind == MSG_FILE_CHUNK || p.kind == MSG_FILE_END
    ensures var to, sent := w.users[k].fd, env.fate(|w.log|);
            var w1 := w.(log := w.log + [Attempt(to, p, sent)]);
            Step(env, w, Arrived(fd, p, salt, appended))
            == if !sent then Answer(env, Cleanup(env, w1, to), fd, MSG_ERROR, PeerLost)
               else if p.kind == MSG_PRIVATE then Answer(env, w1, fd, MSG_OK, PrivateSent)
               else if p.kind == MSG_FILE_END then Answer(env, w1, fd, MSG_OK, FileSent)
               else w1
  {
    hide Answer, Cleanup, CString, GetFd;
    InvUsers(w);
    OnlineAt(w.users, CString(p.receiver), k);
  }

  /** When the named user is unknown or offline the only send is an error to the sender. */
  lemma ForwardRefused(env: Env, w: World, fd: int, p: Packet, salt: Option<Salt>, appended: bool)
    requires NotOnline(w.users, CString(p.receiver))
    requires p.kind == MSG_PRIVATE || p.kind == MSG_FILE_BEGIN || p.kind == MSG_FILE_CHUNK || p.kind == MSG_FILE_END
    ensures Step(env, w, Arrived(fd, p, salt, appended))
            == Answer(env, w, fd, MSG_ERROR, UserFailure(WhyNot(w.users, CString(p.receiver))))
  {
    hide Answer, CString, GetFd;
    NotOnlineAnywhere(w.users, CString(p.receiver));
  }

  // ---------- broadcasts ----------

  predicate Hears(u: User, except: int) {
    u.online && u.fd >= 0 && u.fd != except
  }

  /** Positions in a list of `n`, in list order. */
  predicate Ascending(ks: seq<nat>, n: nat) {
    (forall i :: 0 <= i < |ks| ==> ks[i] < n) && forall i, j :: 0 <= i < j < |ks| ==> ks[i] < ks[j]
  }

  /** Positions in the rest of a list, seen from its front, behind that of the first element if it counts too. */
  function Front(first: bool, more: seq<nat>): (ks: seq<nat>)
    ensures var n := if first then 1 else 0;
            |ks| == |more| + n && forall i :: 0 <= i < |ks| ==> ks[i] == if i < n then 0 else more[i - n] + 1
  {
    (if first then [0] else []) + seq(|more|, i requires 0 <= i < |more| => more[i] + 1)
  }

  lemma FrontAscends(first: bool, more: seq<nat>, n: nat)
    requires n > 0 && Ascending(more, n - 1)
    ensures Ascending(Front(first, more), n)
  {
  }

  lemma InFront(first: bool, more: seq<nat>, k: nat)
    ensures (k + 1 in Front(first, more) <==> k in more) && (0 in Front(first, more) <==> first)
  {
    var ks, n := Front(first, more), if first then 1 else 0;
    if k in more {
      var i :| 0 <= i < |more| && more[i] == k;
      assert ks[i + n] == k + 1;
    }
    if first { assert ks[0] == 0; }
  }

  /** Nobody who can hear is left out, except behind `max` others. */
  predicate Complete(us: seq<User>, except: int, max: nat, ks: seq<nat>) {
    forall k :: 0 <= k < |us| && Hears(us[k], except) && k !in ks ==> |ks| == max && forall i :: 0 <= i < |ks| ==> ks[i] < k
  }

  /** The snapshot is the first `max` users in list order that can hear; only behind a full one is anybody left out. */
  lemma {:induction false} SnapshotMeaning(us: seq<User>, except: int, max: nat) returns (ks: seq<nat>)
    ensures Ascending(ks, |us|) && Complete(us, except, max, ks) && |ks| == |OnlineFds(us, except, max)| <= max
    ensures forall i :: 0 <= i < |ks| ==> Hears(us[ks[i]], except) && OnlineFds(us, except, max)[i] == us[ks[i]].fd
    decreases |us|
  {
    hide Hears, Complete;
    if us == [] || max == 0 {
      ks := [];
      NobodyLeftOut(us, except, max);
    } else {
      OnlineFdsOnce(us, except, max);
      var first := Hears(us[0], except);
      var n := if first then 1 else 0;
      var more := SnapshotMeaning(us[1..], except, max - n);
      ks := Front(first, more);
      FrontAscends(first, more, |us|);
      StillComplete(us, except, max, more);
      hide Front, OnlineFds, Ascending;
      forall i | 0 <= i < |ks| ensures Hears(us[ks[i]], except) && OnlineFds(us, except, max)[i] == us[ks[i]].fd {
        if i >= n { assert us[1..][more[i - n]] == us[ks[i]]; }
      }
    }
  }

  lemma NobodyLeftOut(us: seq<User>, except: int, max: nat)
    requires us == [] || max == 0
    ensures Complete(us, except, max, [])
  {
  }

  lemma OnlineFdsOnce(us: seq<User>, except: int, max: nat)
    requires us != [] && max > 0
    ensures OnlineFds(us, except, max)
            == if Hears(us[0], except) then [us[0].fd] + OnlineFds(us[1..], except, max - 1) else OnlineFds(us[1..], except, max)
  {
  }

  lemma StillComplete(us: seq<User>, except: int, max: nat, more: seq<nat>)
    requires us != [] && max > 0 && Complete(us[1..], except, max - (if Hears(us[0], except) then 1 else 0), more)
    ensures Complete(us, except, max, Front(Hears(us[0], except), more))
  {
    hide Hears, Front;
    var first := Hears(us[0], except);
    var ks := Front(first, more);
    forall k | 0 <= k < |us| && Hears(us[k], except) && k !in ks
      ensures |ks| == max && forall i :: 0 <= i < |ks| ==> ks[i] < k
    {
      InFront(first, more, 0);
      InFront(first, more, k - 1);
      assert us[1..][k - 1] == us[k];
    }
  }

  /** One send and the cleanup after it when it fails: one copy, whatever else follows. */
  lemma OneCopy(env: Env, w: World, fd: int, p: Packet)
    requires Inv(w) && p.kind != MSG_GROUP_EVENT
    ensures var r := SendOrCleanup(env, w, fd, p);
            && Inv(r) && Shrinks(w.users, r.users) && w.log <= r.log
            && SentTo(r.log[|w.log|..], p.kind) == [fd] && AllCopiesOf(r.log[|w.log|..], p)
  {
    hide Inv, Cleanup;
    var r, w1, copy := SendOrCleanup(env, w, fd, p), Send(env, w, fd, p), Attempt(fd, p, Delivers(env, w));
    SendOrCleanupCascades(env, w, fd, p, {p.kind, MSG_GROUP_EVENT});
    InvIgnoresLog(w, w1);
    CleanupCascades(env, w1, fd);
    var more := r.log[|w1.log|..];
    assert r.log[|w.log|..] == [copy] + more;
    SentToOthers(more, p.kind);
    assert [copy][1..] == [] && SentTo([copy], p.kind) == [fd];
    SentToAppend([copy], more, p.kind);
  }

  lemma {:induction false} CopyToEach(env: Env, w: World, fds: seq<int>, p: Packet)
    requires Inv(w) && p.kind != MSG_GROUP_EVENT
    ensures var r := SendToFds(env, w, fds, p);
            && Inv(r) && w.log <= r.log && AllCopiesOf(r.log[|w.log|..], p) && SentTo(r.log[|w.log|..], p.kind) == fds
    decreases |fds|
  {
    hide Inv, SendOrCleanup, Shrinks;
    if fds != [] {
      var w1 := SendOrCleanup(env, w, fds[0], p);
      OneCopy(env, w, fds[0], p);
      CopyToEach(env, w1, fds[1..], p);
      JoinTurns(w.log, w1.log, SendToFds(env, w, fds, p).log, p);
    }
  }

  /** The sockets of the users at these positions. */
  function FdsAt(us: seq<User>, ks: seq<nat>): (fds: seq<int>)
    requires Ascending(ks, |us|)
    ensures |fds| == |ks| && forall i :: 0 <= i < |ks| ==> fds[i] == us[ks[i]].fd
  {
    seq(|ks|, i requires 0 <= i < |ks| => us[ks[i]].fd)
  }

  /**
   A broadcast goes, unchanged and once each, to the first 256 users in list order who are online on another socket
   than the sender's, whatever sends fail; the OK comes after all of them. When there is nobody, an error is the
   only send.
   */
  lemma BroadcastDelivery(env: Env, w: World, fd: int, p: Packet, salt: Option<Salt>, appended: bool)
    returns (ks: seq<nat>, last: World)
    requires Inv(w) && p.kind == MSG_GROUP
    ensures Ascending(ks, |w.users|) && |ks| <= 256 && forall i :: 0 <= i < |ks| ==> Hears(w.users[ks[i]], fd)
    ensures Complete(w.users, fd, 256, ks)
    ensures Step(env, w, Arrived(fd, p, salt, appended))
            == if ks == [] then Answer(env, w, fd, MSG_ERROR, NobodyElse) else Answer(env, last, fd, MSG_OK, BroadcastSent)
    ensures w.log <= last.log && AllCopiesOf(last.log[|w.log|..], p) && SentTo(last.log[|w.log|..], MSG_GROUP) == FdsAt(w.users, ks)
  {
    hide Inv, OnlineFds, SendToFds, Answer, Hears, Complete;
    ks := SnapshotMeaning(w.users, fd, 256);
    var fds := OnlineFds(w.users, fd, MAX_ONLINE_SNAPSHOT);
    assert fds == FdsAt(w.users, ks);
    last := SendToFds(env, w, fds, p);
    CopyToEach(env, w, fds, p);
  }

  // ---------- the online list ----------

  function OnlineNames(us: seq<User>): seq<Bytes> {
    if us == [] then [] else (if us[0].online then [us[0].name] else []) + OnlineNames(us[1..])
  }

  /** The names of exactly the users who are online, in list order. */
  lemma {:induction false} OnlineNamesMeaning(us: seq<User>) returns (ks: seq<nat>)
    ensures Ascending(ks, |us|) && |ks| == |OnlineNames(us)|
    ensures forall i :: 0 <= i < |ks| ==> OnlineNames(us)[i] == us[ks[i]].name
    ensures forall k :: 0 <= k < |us| ==> (us[k].online <==> k in ks)
  {
    if us == [] {
      ks := [];
    } else {
      var more := OnlineNamesMeaning(us[1..]);
      var first := us[0].online;
      ks := Front(first, more);
      FrontAscends(first, more, |us|);
      var n := if first then 1 else 0;
      assert OnlineNames(us) == (if first then [us[0].name] else []) + OnlineNames(us[1..]);
      hide OnlineNames, Front, Ascending;
      forall i | 0 <= i < |ks| ensures OnlineNames(us)[i] == us[ks[i]].name {
        if i >= n { assert us[1..][more[i - n]] == us[ks[i]]; }
      }
      forall k | 0 <= k < |us| ensures us[k].online <==> k in ks {
        InFront(first, more, if k == 0 then 0 else k - 1);
        if k > 0 { assert us[1..][k - 1] == us[k]; }
      }
    }
  }

  /** Names behind others, a newline before each. */
  function MoreLines(names: seq<Bytes>): Bytes {
    if names == [] then [] else [NEWLINE] + names[0] + MoreLines(names[1..])
  }

  function LinesOf(names: seq<Bytes>): Bytes {
    if names == [] then [] else names[0] + MoreLines(names[1..])
  }

  lemma OneMoreLine(us: seq<User>)
    requires us != []
    ensures var names, more := OnlineNames(us), OnlineNames(us[1..]);
            if us[0].online then
              LinesOf(names) == us[0].name + MoreLines(more) && MoreLines(names) == [NEWLINE] + us[0].name + MoreLines(more)
            else names == more
  {
    assert ([us[0].name] + OnlineNames(us[1..]))[1..] == OnlineNames(us[1..]);
  }

  lemma {:induction false} OnlineTextRest(us: seq<User>, text: Bytes, count: nat)
    requires |text| < PACKET_DATA_MAX
    ensures var rest := if count == 0 then LinesOf(OnlineNames(us)) else MoreLines(OnlineNames(us));
            OnlineText(us, text, count) == if |text| + |rest| < PACKET_DATA_MAX then Some(text + rest) else None
    decreases |us|
  {
    if us == [] {
      assert text + [] == text;
    } else {
      hide OnlineNames, MoreLines, LinesOf;
      OneMoreLine(us);
      if us[0].online {
        var piece := (if count == 0 then [] else [NEWLINE]) + us[0].name;
        assert [] + us[0].name == us[0].name;
        if |text| + |piece| < PACKET_DATA_MAX {
          OnlineTextRest(us[1..], text + piece, count + 1);
          Regroup(text, piece, MoreLines(OnlineNames(us[1..])));
        }
      } else {
        OnlineTextRest(us[1..], text, count);
      }
    }
  }

  lemma {:induction false} CountsOnlineNames(us: seq<User>)
    ensures OnlineCount(us) == |OnlineNames(us)|
  {
    if us != [] { CountsOnlineNames(us[1..]); }
  }

  /**
   The online list is one packet back: the names of the online users, one to a line in list order, or the text for
   nobody exactly when nobody is online; an error when the lines have 1024 bytes or more.
   */
  lemma OnlineListStep(env: Env, w: World, fd: int, p: Packet, salt: Option<Salt>, appended: bool)
    requires p.kind == MSG_ONLINE_LIST
    ensures var names, r := OnlineNames(w.users), Step(env, w, Arrived(fd, p, salt, appended));
            if |LinesOf(names)| >= 1024 then r == Answer(env, w, fd, MSG_ERROR, UserFailure(IoFailure))
            else if names == [] then r == Answer(env, w, fd, MSG_ONLINE_LIST, NobodyOnline)
            else r == w.(log := w.log + [Attempt(fd, TextPacket(MSG_ONLINE_LIST, LinesOf(names)), env.fate(|w.log|))])
  {
    hide Answer, OnlineText, TextPacket;
    OnlineTextRest(w.users, [], 0);
    CountsOnlineNames(w.users);
    assert [] + LinesOf(OnlineNames(w.users)) == LinesOf(OnlineNames(w.users));
  }

  // ---------- group messages ----------

  /** Group `i` is the first in the store with that identifier. */
  predicate FirstWithId(gs: seq<Group>, id: Bytes, i: nat) {
    i < |gs| && gs[i].id == id && forall j :: 0 <= j < i ==> gs[j].id != id
  }

  lemma {:induction false} FindGroupIs(gs: seq<Group>, id: Bytes, i: nat)
    requires FirstWithId(gs, id, i) && ValidGroupId(id)
    ensures FindGroup(gs, id) == Found(gs[i])
  {
    hide ValidGroupId;
    if i > 0 {
      assert gs[1..][i - 1] == gs[i];
      FindGroupIs(gs[1..], id, i - 1);
    }
  }

  lemma {:induction false} FindGroupNot(gs: seq<Group>, id: Bytes)
    requires forall j :: 0 <= j < |gs| ==> gs[j].id != id
    ensures FindGroup(gs, id) == Missing(if ValidGroupId(id) then NotFound else Invalid)
  {
    hide ValidGroupId;
    if gs != [] { FindGroupNot(gs[1..], id); }
  }

  /** Data that carries no text: empty, too long, not terminated, or with nothing before the first NUL. */
  predicate CarriesNothing(d: Bytes) {
    d == [] || |d| > 1024 || d[|d| - 1] != 0 || d[0] == 0
  }

  lemma TextCarried(p: Packet)
    ensures CarriesNothing(p.data) <==> PacketText(p).None? || PacketText(p).value == []
  {
  }

  lemma TextRead(p: Packet, text: Bytes, rest: Bytes)
    requires p.data == text + [0] + rest && |p.data| <= 1024 && p.data[|p.data| - 1] == 0 && 0 !in text
    ensures PacketText(p) == Some(text)
  {
    CStringOf(text, rest);
  }

  /** A message takes up the three lengths and terminators. */
  lemma MessageSize(g: Group, text: Bytes)
    ensures Build(MessageFields(g, text)).Some? <==> |g.id| + |g.name| + |text| + 3 <= 1024
  {
    BuildMeaning(MessageFields(g, text));
    JoinLength(MessageFields(g, text));
    assert [text][1..] == [] && TotalLength([text]) == |text| + 1;
    assert [g.name, text][1..] == [text] && TotalLength([g.name, text]) == |g.name| + 1 + TotalLength([text]);
    assert MessageFields(g, text)[1..] == [g.name, text];
  }

  /** Whoever is online after a round of sends was reached in it, and nobody twice. */
  lemma {:induction false} OnlineWereReached(env: Env, w: World, members: seq<Bytes>, p: Packet)
    requires Inv(w) && p.kind != MSG_GROUP_EVENT && Distinct(members) && forall i :: 0 <= i < |members| ==> ValidName(members[i])
    ensures var reached, r := Reached(env, w, members, p), SendEach(env, w, members, p);
            && Distinct(reached) && Shrinks(w.users, r.users)
            && (forall m :: m in reached ==> m in members)
            && (forall m :: m in members && IsOnline(r.users, m) ==> m in reached)
    decreases |members|
  {
    hide Inv, SendToMember, IsOnline, Shrinks;
    SendEachCascades(env, w, members, p, {p.kind, MSG_GROUP_EVENT});
    if members != [] {
      var w1, r := SendToMember(env, w, members[0], p), SendEach(env, w, members, p);
      OneTurn(env, w, members[0], p);
      var later := Reached(env, w1, members[1..], p);
      OnlineWereReached(env, w1, members[1..], p);
      assert members[0] !in members[1..];
      if IsOnline(r.users, members[0]) { StillSameSocket(w.users, r.users, members[0]); }
      assert forall m :: m in members ==> m == members[0] || m in members[1..];
    }
  }

  /** Every copy sent carries the sender's name, the group and the text. */
  predicate CopiesRead(log: seq<Attempt>, from: nat, user: Bytes, g: Group, text: Bytes) {
    forall n :: from <= n < |log| && log[n].packet.kind == MSG_GROUP_MESSAGE ==>
      CString(log[n].packet.sender) == user && CString(log[n].packet.receiver) == g.id
      && DecodeMessage(log[n].packet.data) == Some(GroupText(g.id, g.name, text))
  }

  /**
   A member's message to a group: its text is what stands before the first NUL of the data. Each member who is still
   online in its turn is sent it once, on the socket it had, and so is everybody who is online afterwards; nobody else
   is sent it, each copy reads as the sender, the group and exactly the text, and the OK comes last.
   */
  lemma MessageDelivery(env: Env, w: World, fd: int, p: Packet, salt: Option<Salt>, appended: bool, k: nat, i: nat,
                        text: Bytes, rest: Bytes) returns (reached: seq<Bytes>, last: World)
    requires Inv(w) && p.kind == MSG_GROUP_MESSAGE && Holds(w.users, fd, k)
    requires FirstWithId(w.groups, CString(p.receiver), i) && w.users[k].name in w.groups[i].members
    requires p.data == text + [0] + rest && |p.data| <= 1024 && p.data[|p.data| - 1] == 0 && text != [] && 0 !in text
    requires |w.groups[i].id| + |w.groups[i].name| + |text| + 3 <= 1024
    ensures Step(env, w, Arrived(fd, p, salt, appended)) == Answer(env, last, fd, MSG_OK, GroupMessageSent)
    ensures w.log <= last.log && CopiesRead(last.log, |w.log|, w.users[k].name, w.groups[i], text)
    ensures Distinct(reached) && NamesOnline(w.users, reached)
            && SentTo(last.log[|w.log|..], MSG_GROUP_MESSAGE) == SocketsOf(w.users, reached)
    ensures (forall m :: m in reached ==> m in w.groups[i].members)
            && (forall m :: m in w.groups[i].members && IsOnline(last.users, m) ==> m in reached)
  {
    hide Inv, Answer, SendEach, Reached, Build, MemberIndex, CString, Fixed, PacketText, FindGroup, DecodeMessage, IsOnline, Shrinks,
      ValidGroup, ValidName, MessageFields;
    var g, user := w.groups[i], w.users[k].name;
    StoredGroupIsValid(w, g);
    GroupFacts(g, user);
    HolderIs(w.users, fd, k);
    FindGroupIs(w.groups, CString(p.receiver), i);
    TextRead(p, text, rest);
    MessageSize(g, text);
    var copy := PackedPacket(MSG_GROUP_MESSAGE, user, g.id, Build(MessageFields(g, text)).value);
    MessageCopyReads(g, user, text);
    reached, last := Reached(env, w, g.members, copy), SendEach(env, w, g.members, copy);
    ExactlyOneCopyEach(env, w, g.members, copy);
    OnlineWereReached(env, w, g.members, copy);
    assert HandleGroupMessage(env, w, fd, p) == Answer(env, last, fd, MSG_OK, GroupMessageSent);
    forall n | |w.log| <= n < |last.log| && last.log[n].packet.kind == MSG_GROUP_MESSAGE ensures last.log[n].packet == copy {
      assert last.log[|w.log|..][n - |w.log|] == last.log[n];
    }
  }

  lemma GroupFacts(g: Group, user: Bytes)
    requires ValidGroup(g) && user in g.members
    ensures g.id != [] && ValidGroupId(g.id) && ValidName(user) && MemberIndex(g.members, user) >= 0
    ensures Distinct(g.members) && forall i :: 0 <= i < |g.members| ==> ValidName(g.members[i])
  {
  }

  lemma MessageCopyReads(g: Group, user: Bytes, text: Bytes)
    requires ValidGroup(g) && ValidName(user) && 0 !in text && Build(MessageFields(g, text)).Some?
    ensures var copy := PackedPacket(MSG_GROUP_MESSAGE, user, g.id, Build(MessageFields(g, text)).value);
            && CString(copy.sender) == user && CString(copy.receiver) == g.id
            && DecodeMessage(copy.data) == Some(GroupText(g.id, g.name, text))
  {
    hide Build, DecodeMessage, CString, Fixed;
    FixedReadsBack(user, USERNAME_MAX_LEN);
    FixedReadsBack(g.id, USERNAME_MAX_LEN);
    ValidGroupNulFree(g);
    MessageRoundTrip(g, text);
  }

  /** Otherwise an error is the only send, with the first of these reasons: who, what, which group, member, size. */
  lemma MessageRefused(env: Env, w: World, fd: int, p: Packet, salt: Option<Salt>, appended: bool, k: nat)
    requires Inv(w) && p.kind == MSG_GROUP_MESSAGE
    ensures var r, id, gs := Step(env, w, Arrived(fd, p, salt, appended)), CString(p.receiver), w.groups;
            && (NobodyHolds(w.users, fd) ==> r == Answer(env, w, fd, MSG_ERROR, PleaseLogIn))
            && (Holds(w.users, fd, k) ==>
                  && (id == [] || CarriesNothing(p.data) ==> r == Answer(env, w, fd, MSG_ERROR, BadMessageData))
                  && (id != [] && !CarriesNothing(p.data) ==>
                        && ((forall j :: 0 <= j < |gs| ==> gs[j].id != id) ==>
                              r == Answer(env, w, fd, MSG_ERROR, GroupFailure(if ValidGroupId(id) then NotFound else Invalid)))
                        && forall i: nat :: FirstWithId(gs, id, i) ==>
                             && (w.users[k].name !in gs[i].members ==> r == Answer(env, w, fd, MSG_ERROR, GroupFailure(NotMember)))
                             && (w.users[k].name in gs[i].members
                                 && |gs[i].id| + |gs[i].name| + |CString(p.data)| + 3 > 1024 ==>
                                   r == Answer(env, w, fd, MSG_ERROR, GroupFailure(GroupError.Payload)))))
  {
    hide Inv, Answer, SendEach, Build, CString, Fixed, FindGroup, CarriesNothing, ValidGroup, MessageFields, MemberIndex;
    TextCarried(p);
    if NobodyHolds(w.users, fd) { NoHolder(w.users, fd); }
    if Holds(w.users, fd, k) {
      HolderIs(w.users, fd, k);
      var id, gs := CString(p.receiver), w.groups;
      if forall j :: 0 <= j < |gs| ==> gs[j].id != id { FindGroupNot(gs, id); }
      forall i: nat | FirstWithId(gs, id, i)
        ensures FindGroup(gs, id) == Found(gs[i])
        ensures w.users[k].name in gs[i].members <==> MemberIndex(gs[i].members, w.users[k].name) >= 0
        ensures Build(MessageFields(gs[i], CString(p.data))).Some? <==> |gs[i].id| + |gs[i].name| + |CString(p.data)| + 3 <= 1024
      {
        StoredGroupIsValid(w, gs[i]);
        assert ValidGroupId(id) by { ValidParts(gs[i]); }
        FindGroupIs(gs, id, i);
        MessageSize(gs[i], CString(p.data));
        if w.users[k].name in gs[i].members { GroupFacts(gs[i], w.users[k].name); }
      }
    }
  }

  lemma ValidParts(g: Group)
    requires ValidGroup(g)
    ensures ValidGroupId(g.id)
  {
  }

  // ---------- creating and listing groups ----------

  predicate AllThere(us: seq<User>, names: seq<Bytes>) {
    forall i :: 0 <= i < |names| ==> !NotOnline(us, names[i])
  }

  lemma AllThereIs(us: seq<User>, names: seq<Bytes>)
    requires UsersOk(us)
    ensures AllThere(us, names) <==> AllOnline(us, names)
    ensures AllThere(us, names) ==> forall i :: 0 <= i < |names| ==> ValidName(names[i])
  {
    hide GetFd, ValidName;
    forall i | 0 <= i < |names|
      ensures !NotOnline(us, names[i]) <==> GetFd(us, names[i]).Fd?
      ensures !NotOnline(us, names[i]) ==> ValidName(names[i])
    {
      if NotOnline(us, names[i]) {
        NotOnlineAnywhere(us, names[i]);
      } else {
        var k: nat :| k < |us| && us[k].name == names[i] && us[k].online;
        OnlineAt(us, names[i], k);
        assert ValidUser(us[k]);
      }
    }
  }

  /** With valid names and somebody else among them, only two limits and the group's name can be in the way. */
  lemma WhyNoGroup(gs: seq<Group>, issued: nat, user: Bytes, name: Bytes, members: seq<Bytes>)
    requires ValidName(user) && (forall i :: 0 <= i < |members| ==> ValidName(members[i])) && exists m :: m in members && m != user
    ensures var all := FirstSeen([user] + members);
            CreateGroup(gs, issued, user, name, members)
            == if !ValidGroupName(name) then CreateFailed(Invalid)
               else if |all| > 64 || |gs| >= 128 then CreateFailed(Full)
               else Created(Group(FormatId(issued), name, user, all))
  {
    hide ValidName, ValidGroupName, FormatId, FirstSeen, CreateGroup, Overflows;
    CreateMeaning(gs, issued, user, name, members);
    CreateError(gs, issued, user, name, members);
    OverflowsAtEnd(user, members);
  }

  lemma OverflowsAtEnd(user: Bytes, members: seq<Bytes>)
    requires forall i :: 0 <= i < |members| ==> ValidName(members[i])
    ensures (exists n: nat :: Overflows([user], members, n)) <==> |FirstSeen([user] + members)| > 64
  {
    hide ValidName, FirstSeen;
    assert members[..|members|] == members;
    if |FirstSeen([user] + members)| > 64 { assert Overflows([user], members, |members|); }
    if n: nat :| Overflows([user], members, n) {
      FirstSeenGrows([user] + members[..n], members[n..]);
      assert [user] + members[..n] + members[n..] == [user] + members;
    }
  }

  /**
   A request for a group, read as a name and members, makes a group exactly when 1 to 64 members are named, all of them
   online and one of them somebody else, the name is valid, the group has at most 64 members with the creator, and there are
   fewer than 128 groups. It has a new identifier, the creator first and the others as first named; its members are told,
   and then the creator gets an OK. Otherwise an error is the only send, with the first reason there is.
   */
  lemma CreateStep(env: Env, w: World, fd: int, p: Packet, salt: Option<Salt>, appended: bool, k: nat, name: Bytes, members: seq<Bytes>)
    requires Inv(w) && p.kind == MSG_GROUP_CREATE && Holds(w.users, fd, k)
    requires NulFree([name] + members) && p.data == Join([name] + members) && |p.data| <= 1024
    ensures var user, r := w.users[k].name, Step(env, w, Arrived(fd, p, salt, appended));
            var all := FirstSeen([user] + members);
            var g := Group(FormatId(w.issued), name, user, all);
            var w1 := w.(groups := [g] + w.groups, issued := w.issued + 1);
            r == if members == [] || |members| > 64 then Answer(env, w, fd, MSG_ERROR, BadCreateData)
                 else if !AllThere(w.users, members) then Answer(env, w, fd, MSG_ERROR, MembersOffline)
                 else if forall i :: 0 <= i < |members| ==> members[i] == user then Answer(env, w, fd, MSG_ERROR, ChooseSomeone)
                 else if !ValidGroupName(name) then Answer(env, w, fd, MSG_ERROR, GroupFailure(Invalid))
                 else if |all| > 64 || |w.groups| >= 128 then Answer(env, w, fd, MSG_ERROR, GroupFailure(Full))
                 else Answer(env, PushEvent(env, w1, EVENT_CREATED, g), fd, MSG_OK, GroupCreated)
  {
    hide Inv, Answer, PushEvent, CreateGroup, FormatId, FirstSeen, Fields, Join, ValidGroupName, ValidName, AllOnline, AllThere;
    InvUsers(w);
    assert ValidUser(w.users[k]);
    HolderIs(w.users, fd, k);
    FieldsOfJoin([name] + members);
    AllThereIs(w.users, members);
    assert Fields(p.data)[0] == name && Fields(p.data)[1..] == members;
    if members != [] && |members| <= 64 && AllThere(w.users, members) && !forall i :: 0 <= i < |members| ==> members[i] == w.users[k].name {
      var i :| 0 <= i < |members| && members[i] != w.users[k].name;
      assert members[i] in members;
      WhyNoGroup(w.groups, w.issued, w.users[k].name, name, members);
    }
  }

  /** A request that is not read as a name and members, or from nobody. */
  lemma CreateUnread(env: Env, w: World, fd: int, p: Packet, salt: Option<Salt>, appended: bool)
    requires p.kind == MSG_GROUP_CREATE
    ensures NobodyHolds(w.users, fd) ==> Step(env, w, Arrived(fd, p, salt, appended)) == Answer(env, w, fd, MSG_ERROR, PleaseLogIn)
    ensures !NobodyHolds(w.users, fd) && (p.data == [] || |p.data| > 1024 || p.data[|p.data| - 1] != 0) ==>
              Step(env, w, Arrived(fd, p, salt, appended)) == Answer(env, w, fd, MSG_ERROR, BadCreateData)
  {
    hide Answer;
    if NobodyHolds(w.users, fd) { NoHolder(w.users, fd); }
  }

  /** A user's groups are at these positions in the store, in order. */
  lemma {:induction false} OwnGroupsMeaning(gs: seq<Group>, user: Bytes) returns (ks: seq<nat>)
    ensures Ascending(ks, |gs|) && |ks| == |GroupsOf(gs, user)|
    ensures forall i :: 0 <= i < |ks| ==> GroupsOf(gs, user)[i] == gs[ks[i]]
    ensures forall k :: 0 <= k < |gs| ==> (user in gs[k].members <==> k in ks)
  {
    if gs == [] {
      ks := [];
    } else {
      var more := OwnGroupsMeaning(gs[1..], user);
      var first := user in gs[0].members;
      ks := Front(first, more);
      FrontAscends(first, more, |gs|);
      var n := if first then 1 else 0;
      assert GroupsOf(gs, user) == (if first then [gs[0]] else []) + GroupsOf(gs[1..], user);
      hide GroupsOf, Front, Ascending;
      forall i | 0 <= i < |ks| ensures GroupsOf(gs, user)[i] == gs[ks[i]] {
        if i >= n { assert gs[1..][more[i - n]] == gs[ks[i]]; }
      }
      forall k | 0 <= k < |gs| ensures user in gs[k].members <==> k in ks {
        InFront(first, more, if k == 0 then 0 else k - 1);
        if k > 0 { assert gs[1..][k - 1] == gs[k]; }
      }
    }
  }

  function GroupsAt(gs: seq<Group>, ks: seq<nat>): (r: seq<Group>)
    requires Ascending(ks, |gs|)
    ensures |r| == |ks| && forall i :: 0 <= i < |ks| ==> r[i] == gs[ks[i]]
  {
    seq(|ks|, i requires 0 <= i < |ks| => gs[ks[i]])
  }

  /**
   A group list is one packet back, which reads as exactly the user's groups in the order of the store; when they do not fit,
   or nobody is on the socket, an error is. A failed send of the list cleans the socket up.
   */
  lemma ListStep(env: Env, w: World, fd: int, p: Packet, salt: Option<Salt>, appended: bool, k: nat)
    returns (ks: seq<nat>, list: Packet)
    requires Inv(w) && p.kind == MSG_GROUP_LIST && Holds(w.users, fd, k)
    ensures Ascending(ks, |w.groups|) && forall j :: 0 <= j < |w.groups| ==> (w.users[k].name in w.groups[j].members <==> j in ks)
    ensures var mine, r := GroupsAt(w.groups, ks), Step(env, w, Arrived(fd, p, salt, appended));
            if |Join(ListFields(mine))| > 1024 then r == Answer(env, w, fd, MSG_ERROR, GroupFailure(GroupError.Payload))
            else
              && r == SendOrCleanup(env, w, fd, list) && list.kind == MSG_GROUP_LIST && CString(list.receiver) == w.users[k].name
              && ListOf(list.data) == Some(mine)
  {
    hide Inv, Answer, SendOrCleanup, Join, ListFields, GroupsOf, ListOf, Fixed, CString, Build, ValidGroup;
    var user := w.users[k].name;
    InvUsers(w);
    assert ValidUser(w.users[k]);
    HolderIs(w.users, fd, k);
    ks := OwnGroupsMeaning(w.groups, user);
    var mine := GroupsAt(w.groups, ks);
    assert mine == GroupsOf(w.groups, user);
    BuildMeaning(ListFields(mine));
    list := PackedPacket(MSG_GROUP_LIST, SERVER_NAME, user, []);
    if Build(ListFields(mine)).Some? {
      list := PackedPacket(MSG_GROUP_LIST, SERVER_NAME, user, Build(ListFields(mine)).value);
      FixedReadsBack(user, USERNAME_MAX_LEN);
      forall i | 0 <= i < |mine| ensures NulFreeGroup(mine[i]) {
        StoredGroupIsValid(w, mine[i]);
        ValidGroupNulFree(mine[i]);
      }
      ListRoundTrip(mine);
    }
  }

  lemma ListOfNobody(env: Env, w: World, fd: int, p: Packet, salt: Option<Salt>, appended: bool)
    requires p.kind == MSG_GROUP_LIST && NobodyHolds(w.users, fd)
    ensures Step(env, w, Arrived(fd, p, salt, appended)) == Answer(env, w, fd, MSG_ERROR, PleaseLogIn)
  {
    hide Answer;
    NoHolder(w.users, fd);
  }
}
