/** Each answer a gateway session gets is credited to the request that caused it. */
module ResponseMatching {
  import opened Basics
  import opened Wire
  import opened Credentials
  import opened GroupModel
  import opened Payload
  import opened GroupStore
  import opened UserModel
  import opened ServerModel
  import opened ServerSafety
  import opened ServerRuns
  import opened ChatSystem
  import G = Gateway

  // ---------- what the server answers ----------

  /** The kinds of request that the gateway queues an entry for. */
  predicate TrackedKind(kind: int) {
    kind == MSG_REGISTER || kind == MSG_LOGIN || kind == MSG_PRIVATE || kind == MSG_GROUP || kind == MSG_GROUP_CREATE
    || kind == MSG_GROUP_MESSAGE || kind == MSG_FILE_END || kind == MSG_LOGOUT
  }

  predicate UntrackedKind(kind: int) {
    kind == MSG_ONLINE_LIST || kind == MSG_GROUP_LIST || kind == MSG_FILE_BEGIN || kind == MSG_FILE_CHUNK
  }

  /** The sockets that get an answer, in order. */
  function Answers(log: seq<Attempt>): seq<int> {
    if log == [] then [] else (if IsAnswer(log[0].packet.kind) then [log[0].fd] else []) + Answers(log[1..])
  }

  lemma {:induction false} AnswersAppend(a: seq<Attempt>, b: seq<Attempt>)
    ensures Answers(a + b) == Answers(a) + Answers(b)
  {
    if a == [] {
      assert a + b == b;
    } else {
      AnswersAppend(a[1..], b);
      assert (a + b)[0] == a[0] && (a + b)[1..] == a[1..] + b;
      Regroup(if IsAnswer(a[0].packet.kind) then [a[0].fd] else [], Answers(a[1..]), Answers(b));
    }
  }

  lemma {:induction false} NoAnswers(log: seq<Attempt>)
    requires forall i :: 0 <= i < |log| ==> !IsAnswer(log[i].packet.kind)
    ensures Answers(log) == []
  {
    if log != [] { NoAnswers(log[1..]); }
  }

  /** From `w` to `r` the log grows by sends of which exactly the listed ones are answers. */
  predicate Answered(w: World, r: World, fds: seq<int>) {
    w.log <= r.log && Answers(r.log[|w.log|..]) == fds
  }

  lemma AnsweredThen(a: World, b: World, c: World, x: seq<int>, y: seq<int>)
    requires Answered(a, b, x) && Answered(b, c, y)
    ensures Answered(a, c, x + y)
  {
    assert c.log[|a.log|..] == b.log[|a.log|..] + c.log[|b.log|..];
    AnswersAppend(b.log[|a.log|..], c.log[|b.log|..]);
  }

  lemma NobodyTwice(a: World, b: World, c: World)
    requires Answered(a, b, []) && Answered(b, c, [])
    ensures Answered(a, c, [])
  {
    AnsweredThen(a, b, c, [], []);
  }

  lemma AnswerCounts(env: Env, w: World, fd: int, kind: int, reply: Reply)
    requires IsAnswer(kind)
    ensures Answered(w, Answer(env, w, fd, kind, reply), [fd])
  {
    var r := Answer(env, w, fd, kind, reply);
    assert r.log[|w.log|..] == [r.log[|w.log|]];
    assert [r.log[|w.log|]][1..] == [];
  }

  lemma CascadeAnswersNobody(w: World, r: World, sends: nat, kinds: set<int>)
    requires Cascade(w, r, sends, kinds) && MSG_OK !in kinds && MSG_ERROR !in kinds
    ensures Answered(w, r, [])
  {
    NoAnswers(r.log[|w.log|..]);
  }

  /** Something answer-free followed by one answer. */
  lemma ThenAnswer(env: Env, w: World, r: World, fd: int, kind: int, reply: Reply)
    requires Answered(w, r, []) && IsAnswer(kind)
    ensures Answered(w, Answer(env, r, fd, kind, reply), [fd])
  {
    AnswerCounts(env, r, fd, kind, reply);
    AnsweredThen(w, r, Answer(env, r, fd, kind, reply), [], [fd]);
    assert [] + [fd] == [fd];
  }

  lemma OneSendNoAnswer(env: Env, w: World, fd: int, p: Packet)
    requires !IsAnswer(p.kind)
    ensures Answered(w, Send(env, w, fd, p), [])
  {
    var r := Send(env, w, fd, p);
    assert r.log[|w.log|..] == [r.log[|w.log|]];
    NoAnswers(r.log[|w.log|..]);
  }

  lemma ForwardAnswers(env: Env, w: World, fd: int, p: Packet, done: Option<Reply>)
    requires Inv(w) && !IsAnswer(p.kind)
    ensures Answered(w, Forward(env, w, fd, p, done),
                     if done.None? && GetFd(w.users, CString(p.receiver)).Fd? && Delivers(env, w) then [] else [fd])
  {
    hide Inv, Cleanup, Answered, GetFd;
    match GetFd(w.users, CString(p.receiver))
    case NoFd(e) => AnswerCounts(env, w, fd, MSG_ERROR, UserFailure(e));
    case Fd(target) =>
      var w1 := Send(env, w, target, p);
      OneSendNoAnswer(env, w, target, p);
      InvIgnoresLog(w, w1);
      if !Delivers(env, w) {
        var w2 := Cleanup(env, w1, target);
        CleanupCascades(env, w1, target);
        CascadeAnswersNobody(w1, w2, 0, EVENTS_ONLY);
        NobodyTwice(w, w1, w2);
        ThenAnswer(env, w, w2, fd, MSG_ERROR, PeerLost);
      } else if done.Some? {
        ThenAnswer(env, w, w1, fd, MSG_OK, done.value);
      }
  }

  lemma FdsAnswerNobody(env: Env, w: World, fds: seq<int>, p: Packet)
    requires Inv(w) && !IsAnswer(p.kind)
    ensures Answered(w, SendToFds(env, w, fds, p), [])
    decreases |fds|
  {
    hide Inv, SendOrCleanup;
    if fds == [] {
      assert w.log[|w.log|..] == [];
    } else {
      var w1 := SendOrCleanup(env, w, fds[0], p);
      SendOrCleanupCascades(env, w, fds[0], p, {p.kind, MSG_GROUP_EVENT});
      CascadeAnswersNobody(w, w1, 1, {p.kind, MSG_GROUP_EVENT});
      FdsAnswerNobody(env, w1, fds[1..], p);
      NobodyTwice(w, w1, SendToFds(env, w, fds, p));
    }
  }

  lemma NothingAnswered(w: World, r: World)
    requires r.log == w.log
    ensures Answered(w, r, [])
  {
    assert r.log[|w.log|..] == [];
  }

  lemma CreateAnswers(env: Env, w: World, fd: int, p: Packet)
    requires Inv(w)
    ensures Answered(w, HandleGroupCreate(env, w, fd, p), [fd])
  {
    hide Inv, CheckCreate, CreateGroup, Answered, PushEvent;
    match CheckCreate(w, fd, p)
    case Refused(reply) => AnswerCounts(env, w, fd, MSG_ERROR, reply);
    case Wanted(user, name, members) =>
      match CreateGroup(w.groups, w.issued, user, name, members)
      case CreateFailed(e) => AnswerCounts(env, w, fd, MSG_ERROR, GroupFailure(e));
      case Created(g) =>
        var w1 := w.(groups := [g] + w.groups, issued := w.issued + 1);
        var w2 := PushEvent(env, w1, EVENT_CREATED, g);
        WantedIsOnline(w, fd, p);
        CreationKeepsInv(w, user, name, members);
        PushEventCascades(env, w1, EVENT_CREATED, g);
        CascadeAnswersNobody(w1, w2, GROUP_MAX_MEMBERS, EVENTS_ONLY);
        NothingAnswered(w, w1);
        NobodyTwice(w, w1, w2);
        ThenAnswer(env, w, w2, fd, MSG_OK, GroupCreated);
  }

  lemma AcceptedMessageAnswers(env: Env, w: World, fd: int, members: seq<Bytes>, copy: Packet)
    requires Inv(w) && copy.kind == MSG_GROUP_MESSAGE
    ensures Answered(w, Answer(env, SendEach(env, w, members, copy), fd, MSG_OK, GroupMessageSent), [fd])
  {
    hide Inv, SendEach, Answered, Answer;
    var r := SendEach(env, w, members, copy);
    SendEachCascades(env, w, members, copy, {MSG_GROUP_MESSAGE, MSG_GROUP_EVENT});
    CascadeAnswersNobody(w, r, |members|, {MSG_GROUP_MESSAGE, MSG_GROUP_EVENT});
    ThenAnswer(env, w, r, fd, MSG_OK, GroupMessageSent);
  }

  lemma MessageAnswers(env: Env, w: World, fd: int, p: Packet)
    requires Inv(w)
    ensures Answered(w, HandleGroupMessage(env, w, fd, p), [fd])
  {
    hide Inv, Build, FindGroup, MemberIndex, SendEach, Answered, CString, Fixed, PacketText, NameByFd, Answer;
    if MessageAccepted(w, fd, p) {
      var g := FindGroup(w.groups, CString(p.receiver)).group;
      AcceptedMessageAnswers(env, w, fd, g.members, PackedPacket(MSG_GROUP_MESSAGE, NameByFd(w.users, fd).value, g.id,
                                                                Build(MessageFields(g, PacketText(p).value)).value));
    } else {
      var reply: Reply :| HandleGroupMessage(env, w, fd, p) == Answer(env, w, fd, MSG_ERROR, reply);
      AnswerCounts(env, w, fd, MSG_ERROR, reply);
    }
  }

  lemma ListAnswers(env: Env, w: World, fd: int)
    requires Inv(w)
    ensures Answered(w, HandleGroupList(env, w, fd), if ListRefused(w, fd) then [fd] else [])
  {
    hide Inv, Build, SendOrCleanup, Answered, Join, ListFields;
    match NameByFd(w.users, fd)
    case None => AnswerCounts(env, w, fd, MSG_ERROR, PleaseLogIn);
    case Some(user) =>
      BuildMeaning(ListFields(GroupsOf(w.groups, user)));
      match Build(ListFields(GroupsOf(w.groups, user)))
      case None => AnswerCounts(env, w, fd, MSG_ERROR, GroupFailure(GroupError.Payload));
      case Some(payload) =>
        var p := PackedPacket(MSG_GROUP_LIST, SERVER_NAME, user, payload);
        SendOrCleanupCascades(env, w, fd, p, {MSG_GROUP_LIST, MSG_GROUP_EVENT});
        CascadeAnswersNobody(w, SendOrCleanup(env, w, fd, p), 1, {MSG_GROUP_LIST, MSG_GROUP_EVENT});
  }

  // ---------- requests whose answer nobody awaits ----------

  /** Bytes that the online names take up, each with a separator. */
  function OnlineNameBytes(us: seq<User>): nat {
    if us == [] then 0 else (if us[0].online then |us[0].name| + 1 else 0) + OnlineNameBytes(us[1..])
  }

  lemma {:induction false} OnlineTextFits(us: seq<User>, text: Bytes, count: nat)
    requires |text| < PACKET_DATA_MAX
    ensures OnlineText(us, text, count).None?
            <==> |text| + OnlineNameBytes(us) >= PACKET_DATA_MAX + if count == 0 then 1 else 0
  {
    if us != [] {
      if us[0].online {
        var piece := (if count == 0 then [] else [NEWLINE]) + us[0].name;
        if |text| + |piece| < PACKET_DATA_MAX { OnlineTextFits(us[1..], text + piece, count + 1); }
      } else {
        OnlineTextFits(us[1..], text, count);
      }
    }
  }

  /** Nobody is logged in on the socket, or the user's groups do not fit in a payload. */
  predicate ListRefused(w: World, fd: int) {
    match NameByFd(w.users, fd)
    case None => true
    case Some(user) => |Join(ListFields(GroupsOf(w.groups, user)))| > PACKET_DATA_MAX
  }

  /**
   The requests that are answered with an error although the gateway awaits no answer: the online names do
   not fit, the group list is refused, or a file packet has no online receiver or fails to reach it.
   */
  predicate UntrackedAnswered(env: Env, w: World, fd: int, p: Packet) {
    if p.kind == MSG_ONLINE_LIST then OnlineNameBytes(w.users) > PACKET_DATA_MAX
    else if p.kind == MSG_GROUP_LIST then ListRefused(w, fd)
    else GetFd(w.users, CString(p.receiver)).NoFd? || !Delivers(env, w)
  }

  /** The sockets that a step answers. */
  function AnswersOf(env: Env, w: World, e: Event): seq<int> {
    if e.HungUp? || (UntrackedKind(e.packet.kind) && !UntrackedAnswered(env, w, e.fd, e.packet)) then [] else [e.fd]
  }

  /**
   The server answers every packet exactly once, to the socket it came from, whatever sends fail;
   only the four untracked kinds go unanswered, exactly when nothing refuses them. A closed connection
   is never answered.
   */
  lemma ServerAnswers(env: Env, w: World, e: Event)
    requires Inv(w)
    ensures Answered(w, Step(env, w, e), AnswersOf(env, w, e))
  {
    hide Inv, Answered, Register, LoginUser, OnlineText, HandleGroupCreate, HandleGroupMessage, HandleGroupList, Cleanup,
      HandleOnlineList, OnlineNameBytes, ListRefused, Forward, GetFd, CString, OnlineFds, SendToFds;
    match e
    case HungUp(fd) =>
      CleanupCascades(env, w, fd);
      CascadeAnswersNobody(w, Cleanup(env, w, fd), 0, EVENTS_ONLY);
    case Arrived(fd, p, salt, appended) =>
      if p.kind == MSG_REGISTER {
        var g := Register(env.digest, w.users, w.storage, CString(p.sender), CString(p.data), salt, appended);
        var w1 := w.(users := g.users, storage := g.storage);
        NothingAnswered(w, w1);
        ThenAnswer(env, w, w1, fd, MSG_OK, RegisterOk);
        ThenAnswer(env, w, w1, fd, MSG_ERROR, UserFailure(g.result));
      } else if p.kind == MSG_LOGIN {
        var g := LoginUser(env.digest, w.users, CString(p.sender), CString(p.data), fd);
        var w1 := w.(users := g.users);
        NothingAnswered(w, w1);
        ThenAnswer(env, w, w1, fd, MSG_OK, LoginOk);
        ThenAnswer(env, w, w1, fd, MSG_ERROR, UserFailure(g.result));
      } else if p.kind == MSG_ONLINE_LIST {
        OnlineListAnswers(env, w, fd);
      } else if p.kind == MSG_GROUP_CREATE {
        CreateAnswers(env, w, fd, p);
      } else if p.kind == MSG_GROUP_MESSAGE {
        MessageAnswers(env, w, fd, p);
      } else if p.kind == MSG_GROUP_LIST {
        ListAnswers(env, w, fd);
      } else if p.kind == MSG_PRIVATE {
        ForwardAnswers(env, w, fd, p, Some(PrivateSent));
      } else if p.kind == MSG_FILE_BEGIN || p.kind == MSG_FILE_CHUNK || p.kind == MSG_FILE_END {
        ForwardAnswers(env, w, fd, p, if p.kind == MSG_FILE_END then Some(FileSent) else None);
      } else if p.kind == MSG_GROUP {
        var fds := OnlineFds(w.users, fd, MAX_ONLINE_SNAPSHOT);
        FdsAnswerNobody(env, w, fds, p);
        AnswerCounts(env, w, fd, MSG_ERROR, NobodyElse);
        ThenAnswer(env, w, SendToFds(env, w, fds, p), fd, MSG_OK, BroadcastSent);
      } else if p.kind == MSG_LOGOUT {
        CleanupCascades(env, w, fd);
        CascadeAnswersNobody(w, Cleanup(env, w, fd), 0, EVENTS_ONLY);
        ThenAnswer(env, w, Cleanup(env, w, fd), fd, MSG_OK, LoggedOut);
      } else if p.kind == MSG_HEARTBEAT {
        AnswerCounts(env, w, fd, MSG_OK, HeartbeatOk);
      } else {
        AnswerCounts(env, w, fd, MSG_ERROR, BadKind);
      }
  }

  lemma OnlineListAnswers(env: Env, w: World, fd: int)
    ensures Answered(w, HandleOnlineList(env, w, fd), if OnlineNameBytes(w.users) > PACKET_DATA_MAX then [fd] else [])
  {
    hide Answered, OnlineText, OnlineNameBytes;
    OnlineTextFits(w.users, [], 0);
    AnswerCounts(env, w, fd, MSG_ERROR, UserFailure(IoFailure));
    match OnlineText(w.users, [], 0)
    case None =>
    case Some(text) =>
      OneSendNoAnswer(env, w, fd, TextPacket(MSG_ONLINE_LIST, env.wording(NobodyOnline)));
      OneSendNoAnswer(env, w, fd, TextPacket(MSG_ONLINE_LIST, text));
  }

  // ---------- the queue of one connection ----------

  predicate AllCaused(down: seq<Down>) {
    forall i :: 0 <= i < |down| && IsAnswer(down[i].packet.kind) ==> down[i].cause.Some?
  }

  /** The requests answered by the answers in flight. */
  function Causes(down: seq<Down>): seq<G.Pending> {
    if down == [] then []
    else (if IsAnswer(down[0].packet.kind) && down[0].cause.Some? then [down[0].cause.value] else []) + Causes(down[1..])
  }

  /** The awaited requests that the server has not handled yet. */
  function Tags(up: seq<G.Request>): seq<G.Pending> {
    if up == [] then [] else (if up[0].tag.Some? then [up[0].tag.value] else []) + Tags(up[1..])
  }

  /** A request carries a queue entry exactly when its kind is tracked, and the entry fits the kind. */
  predicate UpOk(r: G.Request) {
    && !IsAnswer(r.packet.kind)
    && (r.tag.Some? <==> TrackedKind(r.packet.kind)) && (r.tag.None? ==> UntrackedKind(r.packet.kind))
    && (r.tag.Some? ==>
          && (r.packet.kind == MSG_LOGIN <==> r.tag.value.Auth? && r.tag.value.auth == G.DoLogin)
          && (r.packet.kind == MSG_REGISTER <==> r.tag.value.Auth? && r.tag.value.auth == G.DoRegister)
          && (r.packet.kind == MSG_LOGOUT <==> r.tag.value == G.Status(G.DoLogout))
          && (r.tag.value.Auth? ==> CString(r.packet.sender) == CString(r.tag.value.username)))
  }

  /** The queue lists the causes of the answers in flight, then the requests in flight, in order. */
  predicate Matched(l: Link) {
    l.Session? ==>
      && AllCaused(l.down) && (forall i :: 0 <= i < |l.up| ==> UpOk(l.up[i]))
      && l.session.pending == Causes(l.down) + Tags(l.up)
  }

  ghost predicate AllMatched(s: System) {
    Inv(s.world) && forall fd :: fd in s.links ==> Matched(s.links[fd])
  }

  lemma {:induction false} CausesAppend(a: seq<Down>, b: seq<Down>)
    ensures Causes(a + b) == Causes(a) + Causes(b)
  {
    if a == [] {
      assert a + b == b;
    } else {
      CausesAppend(a[1..], b);
      assert (a + b)[0] == a[0] && (a + b)[1..] == a[1..] + b;
      Regroup(if IsAnswer(a[0].packet.kind) && a[0].cause.Some? then [a[0].cause.value] else [], Causes(a[1..]), Causes(b));
    }
  }

  lemma {:induction false} TagsAppend(a: seq<G.Request>, b: seq<G.Request>)
    ensures Tags(a + b) == Tags(a) + Tags(b)
  {
    if a == [] {
      assert a + b == b;
    } else {
      TagsAppend(a[1..], b);
      assert (a + b)[0] == a[0] && (a + b)[1..] == a[1..] + b;
      Regroup(if a[0].tag.Some? then [a[0].tag.value] else [], Tags(a[1..]), Tags(b));
    }
  }

  // ---------- a browser action ----------

  /** The action queues an entry, fails to encode, and its handler drops all entries of that kind. */
  predicate EncodeFails(s: G.Session, a: G.Action) {
    && a.GroupMessage? && s.loggedIn && s.username != [] && a.groupId != [] && G.ValidText(a.text)
    && !G.EncodableMessage(a.groupId, a.text)
  }

  lemma ActSends(s: G.Session, a: G.Action)
    ensures var r := G.Act(s, a);
            && (r.request.Some? ==> UpOk(r.request.value) && r.session.open == s.open)
            && (!EncodeFails(s, a) ==>
                  r.session.pending
                  == s.pending + (if r.request.Some? && r.request.value.tag.Some? then [r.request.value.tag.value] else []))
            && (EncodeFails(s, a) ==>
                  r.request.None? && r.session.pending == G.WithoutGroupMessages(s.pending + [G.Status(G.SendGroupMessage)]))
  {
    hide CString, Fixed, G.FileBeginPayload, G.CreatePayload;
    if a.Register? && G.ValidPeer(a.username) { FixedText(a.username, USERNAME_MAX_LEN); }
    if a.Login? && G.ValidPeer(a.username) { FixedText(a.username, USERNAME_MAX_LEN); }
    assert s.pending + [] == s.pending;
  }

  lemma {:induction false} DroppedEntries(pending: seq<G.Pending>)
    ensures var more := pending + [G.Status(G.SendGroupMessage)];
            G.WithoutGroupMessages(more) == pending <==> G.Status(G.SendGroupMessage) !in pending
    ensures |G.WithoutGroupMessages(pending + [G.Status(G.SendGroupMessage)])| <= |pending|
  {
    var more := pending + [G.Status(G.SendGroupMessage)];
    if pending != [] {
      DroppedEntries(pending[1..]);
      assert more[1..] == pending[1..] + [G.Status(G.SendGroupMessage)];
      var rest := G.WithoutGroupMessages(more[1..]);
      if pending[0] != G.Status(G.SendGroupMessage) {
        assert G.WithoutGroupMessages(more) == [pending[0]] + rest;
        assert G.WithoutGroupMessages(more)[1..] == rest;
        assert [pending[0]] + pending[1..] == pending;
      } else {
        assert G.WithoutGroupMessages(more) == rest;
        DropIsShorter(pending);
      }
    }
  }

  lemma DropIsShorter(pending: seq<G.Pending>)
    requires pending != [] && pending[0] == G.Status(G.SendGroupMessage)
    requires |G.WithoutGroupMessages(pending[1..] + [G.Status(G.SendGroupMessage)])| <= |pending| - 1
    ensures G.WithoutGroupMessages(pending[1..] + [G.Status(G.SendGroupMessage)]) != pending
  {
  }

  /** A group message that fails to encode spoils the queue exactly when another one is awaited. */
  lemma FailedEncode(l: Link, a: G.Action)
    requires l.Session? && Matched(l) && EncodeFails(l.session, a)
    ensures Matched(Session(G.Act(l.session, a).session, l.up, l.down))
            <==> G.Status(G.SendGroupMessage) !in l.session.pending
  {
    ActSends(l.session, a);
    DroppedEntries(l.session.pending);
  }

  /** For instance a group id with a NUL: the entry of the message on its way is dropped, nothing is sent. */
  lemma NulInGroupId(l: Link)
    requires l.Session? && Matched(l) && l.session.loggedIn && l.session.username != []
    requires l.session.pending == [G.Status(G.SendGroupMessage)]
    ensures var a := G.GroupMessage([103, NUL], [104]);
            && EncodeFails(l.session, a) && G.Act(l.session, a).request.None? && G.Act(l.session, a).session.pending == []
            && !Matched(Session(G.Act(l.session, a).session, l.up, l.down))
  {
    var tag := G.Status(G.SendGroupMessage);
    FailedEncode(l, G.GroupMessage([103, NUL], [104]));
    assert [tag, tag][1..] == [tag] && [tag][1..] == [];
    assert G.WithoutGroupMessages([tag, tag]) == G.WithoutGroupMessages([tag]) == [];
  }

  // ---------- sends arriving ----------

  function DownsTo(log: seq<Attempt>, to: int, fd: int, tag: Option<G.Pending>): seq<Down> {
    if log == [] then []
    else (if log[0].fd == to then [Down(log[0].packet, if IsAnswer(log[0].packet.kind) && to == fd then tag else None)]
          else []) + DownsTo(log[1..], to, fd, tag)
  }

  /** A step appends to each connection what it sent there, or breaks it; sessions are not touched. */
  lemma {:induction false} ArriveEffect(links: map<int, Link>, log: seq<Attempt>, fd: int, tag: Option<G.Pending>, to: int)
    requires to in links
    ensures var r := ArriveAll(links, log, fd, tag);
            && r.Keys == links.Keys
            && (links[to].Plain? ==> r[to].Plain?)
            && (r[to].Session? ==> links[to].Session?
                                   && r[to] == links[to].(down := links[to].down + DownsTo(log, to, fd, tag)))
            && (links[to].Session? && (forall i :: 0 <= i < |log| && log[i].fd == to ==> log[i].ok) ==> r[to].Session?)
    decreases |log|
  {
    if log == [] {
      if links[to].Session? { assert links[to].down + [] == links[to].down; }
    } else {
      var next := Arrive(links, log[0], fd, tag);
      ArriveEffect(next, log[1..], fd, tag, to);
      var r := ArriveAll(links, log, fd, tag);
      if r[to].Session? {
        var first := if log[0].fd == to
                     then [Down(log[0].packet, if IsAnswer(log[0].packet.kind) && to == fd then tag else None)] else [];
        var rest := DownsTo(log[1..], to, fd, tag);
        assert links[to].down + [] == links[to].down;
        assert next[to] == links[to].(down := links[to].down + first);
        assert links[to].down + first + rest == links[to].down + (first + rest);
        assert first + rest == DownsTo(log, to, fd, tag);
      }
    }
  }

  lemma {:induction false} ArrivedAnswers(log: seq<Attempt>, to: int, fd: int, tag: Option<G.Pending>)
    requires forall i :: 0 <= i < |Answers(log)| ==> Answers(log)[i] == fd
    ensures var d := DownsTo(log, to, fd, tag);
            && (to != fd ==> AllCaused(d) && Causes(d) == [])
            && (to == fd && tag.Some? ==> AllCaused(d) && Causes(d) == seq(|Answers(log)|, _ => tag.value))
            && (to == fd && tag.None? ==> Causes(d) == [] && (AllCaused(d) <==> Answers(log) == []))
  {
    if log != [] {
      var rest := Answers(log[1..]);
      if IsAnswer(log[0].packet.kind) {
        assert Answers(log) == [log[0].fd] + rest;
        assert log[0].fd == Answers(log)[0] == fd;
        forall i | 0 <= i < |rest| ensures rest[i] == fd {
          assert rest[i] == Answers(log)[i + 1];
        }
      } else {
        assert Answers(log) == rest;
      }
      ArrivedAnswers(log[1..], to, fd, tag);
      var d, e := DownsTo(log, to, fd, tag), DownsTo(log[1..], to, fd, tag);
      if log[0].fd == to {
        assert d[1..] == e;
        AllCausedCons(d);
      } else {
        assert d == e;
      }
    }
  }

  lemma AllCausedCons(d: seq<Down>)
    requires d != []
    ensures AllCaused(d) <==> (IsAnswer(d[0].packet.kind) ==> d[0].cause.Some?) && AllCaused(d[1..])
  {
    if AllCaused(d[1..]) && (IsAnswer(d[0].packet.kind) ==> d[0].cause.Some?) {
      forall i | 0 <= i < |d| && IsAnswer(d[i].packet.kind) ensures d[i].cause.Some? {
        if i > 0 { assert d[i] == d[1..][i - 1]; }
      }
    }
  }

  /** Everything a step sends leaves the other connections matched. */
  lemma OthersStayMatched(links: map<int, Link>, log: seq<Attempt>, fd: int, tag: Option<G.Pending>, to: int)
    requires to in links && to != fd && Matched(links[to])
    requires forall i :: 0 <= i < |Answers(log)| ==> Answers(log)[i] == fd
    ensures to in ArriveAll(links, log, fd, tag) && Matched(ArriveAll(links, log, fd, tag)[to])
  {
    ArriveEffect(links, log, fd, tag, to);
    ArrivedAnswers(log, to, fd, tag);
    if links[to].Session? {
      CausesAppend(links[to].down, DownsTo(log, to, fd, tag));
      assert Causes(links[to].down) + [] == Causes(links[to].down);
    }
  }

  /** After an answer to an awaited request, or none to another, the queue is still matched; else no more. */
  lemma QueueAfterAnswers(links: map<int, Link>, fd: int, log: seq<Attempt>)
    requires fd in links && links[fd].Session? && links[fd].up != [] && Matched(links[fd])
    requires Answers(log) == [fd] || Answers(log) == []
    requires TrackedKind(links[fd].up[0].packet.kind) ==> Answers(log) == [fd]
    ensures var l := links[fd];
            var r := ArriveAll(links[fd := l.(up := l.up[1..])], log, fd, l.up[0].tag);
            fd in r && (r[fd].Session? ==> (Matched(r[fd]) <==> l.up[0].tag.Some? || Answers(log) == []))
  {
    var l := links[fd];
    var request := l.up[0];
    var links1 := links[fd := l.(up := l.up[1..])];
    ArriveEffect(links1, log, fd, request.tag, fd);
    ArrivedAnswers(log, fd, fd, request.tag);
    var d := DownsTo(log, fd, fd, request.tag);
    CausesAppend(l.down, d);
    assert UpOk(request);
    AllCausedAppend(l.down, d);
    if request.tag.Some? {
      assert seq(1, _ => request.tag.value) == [request.tag.value];
      Regroup(Causes(l.down), [request.tag.value], Tags(l.up[1..]));
    } else {
      assert Causes(l.down) + [] == Causes(l.down);
      assert Tags(l.up) == [] + Tags(l.up[1..]);
    }
  }

  lemma AllCausedAppend(a: seq<Down>, b: seq<Down>)
    ensures AllCaused(a + b) <==> AllCaused(a) && AllCaused(b)
  {
    if AllCaused(a + b) {
      forall i | 0 <= i < |a| && IsAnswer(a[i].packet.kind) ensures a[i].cause.Some? {
        assert a[i] == (a + b)[i];
      }
      forall i | 0 <= i < |b| && IsAnswer(b[i].packet.kind) ensures b[i].cause.Some? {
        assert b[i] == (a + b)[|a| + i];
      }
    }
  }

  // ---------- one move of the system ----------

  /** No failed encode while a group message is awaited, no untracked request that will be answered. */
  predicate Orderly(env: Env, s: System, m: Move)
    requires Enabled(s, m)
  {
    match m
    case Browse(fd, a) => EncodeFails(s.links[fd].session, a) ==> G.Status(G.SendGroupMessage) !in s.links[fd].session.pending
    case Serve(fd, _, _) =>
      var r := s.links[fd].up[0];
      r.tag.None? ==> !UntrackedAnswered(env, s.world, fd, r.packet)
    case _ => true
  }

  /**
   After the server has handled the first request of a connection the queue is still matched exactly
   when the request was awaited or is not one that gets an unexpected answer.
   */
  lemma ServedStaysMatched(env: Env, s: System, fd: int, salt: Option<Salt>, appended: bool)
    requires Inv(s.world) && OnSession(s, fd) && s.links[fd].up != [] && Matched(s.links[fd])
    ensures var l, r := s.links[fd], Next(env, s, Serve(fd, salt, appended)).links;
            && fd in r
            && (r[fd].Session? ==>
                  (Matched(r[fd]) <==> l.up[0].tag.Some? || !UntrackedAnswered(env, s.world, fd, l.up[0].packet)))
  {
    hide Inv, Step, UntrackedAnswered;
    var l := s.links[fd];
    var e := Arrived(fd, l.up[0].packet, salt, appended);
    ServerAnswers(env, s.world, e);
    assert UpOk(l.up[0]);
    QueueAfterAnswers(s.links, fd, NewSends(s.world, Step(env, s.world, e)));
  }

  /** How the browser is told of the answer to a request. */
  function Credited(request: G.Pending, ok: bool): G.UiEvent {
    match request
    case Auth(action, name) => G.AuthResult(action, ok, name)
    case Status(action) => if action == G.DoLogout then G.UiEvent.LoggedOut(ok) else G.CommandResult(Some(action), ok)
  }

  /** An answer in flight is credited to the request that caused it when it arrives. */
  lemma AnswerIsCredited(l: Link)
    requires l.Session? && Matched(l) && l.down != [] && IsAnswer(l.down[0].packet.kind)
    ensures var after := Receive(l.session, l.down[0].packet);
            var ok := l.down[0].packet.kind == MSG_OK;
            && l.down[0].cause.Some? && l.session.pending != [] && l.session.pending[0] == l.down[0].cause.value
            && after.pending == l.session.pending[1..]
            && after.ui == l.session.ui + [Credited(l.down[0].cause.value, ok)]
  {
    assert l.session.pending[0] == Causes(l.down)[0];
  }

  lemma DeliveryStaysMatched(l: Link)
    requires l.Session? && Matched(l) && l.down != []
    ensures Matched(Session(Receive(l.session, l.down[0].packet), l.up, l.down[1..]))
  {
    hide ListOf, DecodeEvent, DecodeMessage, G.DecodeFileBegin;
    AllCausedCons(l.down);
    if IsAnswer(l.down[0].packet.kind) {
      AnswerIsCredited(l);
      var rest := Causes(l.down[1..]);
      assert Causes(l.down) == [l.down[0].cause.value] + rest;
      assert l.session.pending[1..] == rest + Tags(l.up);
    } else {
      assert Causes(l.down) == [] + Causes(l.down[1..]);
      assert Receive(l.session, l.down[0].packet).pending == l.session.pending;
    }
  }

  lemma BrowseStaysMatched(l: Link, a: G.Action)
    requires l.Session? && Matched(l)
    requires EncodeFails(l.session, a) ==> G.Status(G.SendGroupMessage) !in l.session.pending
    ensures var r := G.Act(l.session, a);
            Matched(Session(r.session, l.up + (if r.request.Some? then [r.request.value] else []), l.down))
  {
    hide G.Act;
    var r := G.Act(l.session, a);
    ActSends(l.session, a);
    if EncodeFails(l.session, a) {
      DroppedEntries(l.session.pending);
      assert l.up + [] == l.up;
    } else if r.request.Some? {
      TagsAppend(l.up, [r.request.value]);
      assert [r.request.value][1..] == [];
      var t := if r.request.value.tag.Some? then [r.request.value.tag.value] else [];
      assert Tags([r.request.value]) == t;
      assert Causes(l.down) + Tags(l.up) + t == Causes(l.down) + (Tags(l.up) + t);
    } else {
      assert l.up + [] == l.up && l.session.pending + [] == l.session.pending;
    }
  }

  /**
   A file announced to somebody who is not online: its error is taken for the answer to the broadcast
   sent after it, which the server has not even seen.
   */
  lemma ErrorForTheWrongRequest(env: Env, s: System, fd: int, receiver: Bytes, filename: Bytes, text: Bytes)
    requires Inv(s.world) && fd in s.links && env.fate(|s.world.log|)
    requires var l := s.links[fd];
             && l.Session? && l.up == [] && l.down == []
             && l.session.open && l.session.loggedIn && l.session.username != [] && l.session.pending == []
    requires G.ValidPeer(receiver) && G.ValidText(text) && GetFd(s.world.users, CString(Fixed(receiver, USERNAME_MAX_LEN))).NoFd?
    requires filename != [] && |filename| < FILE_NAME_MAX_LEN && NEWLINE !in filename
    ensures var moves := [Browse(fd, G.FileStart(receiver, filename, 0)), Browse(fd, G.ToAll(text)), Serve(fd, None, false), Deliver(fd)];
            var r := RunSystem(env, s, moves);
            && !AllOrderly(env, s, moves) && OnSession(r, fd) && !Matched(r.links[fd])
            && r.links[fd].session.ui == s.links[fd].session.ui + [G.CommandResult(Some(G.SendToAll), false)]
            && |r.links[fd].up| == 1 && r.links[fd].up[0].tag == Some(G.Status(G.SendToAll))
            && r.links[fd].session.pending == []
  {
    hide Inv, Receive, Step, Served, Send, G.Act, G.FileBeginPayload, Fixed, CString, TextPacket, GetFd, AllOrderly, RunSystem,
      G.ValidPeer, G.ValidText;
    var session, m0, m1, m2, m3 := s.links[fd].session, Browse(fd, G.FileStart(receiver, filename, 0)), Browse(fd, G.ToAll(text)),
      Serve(fd, None, false), Deliver(fd);
    var p := PackedPacket(MSG_FILE_BEGIN, session.username, receiver, G.FileBeginPayload(filename, 0));
    var tag := G.Status(G.SendToAll);
    var broadcast := G.Request(PackedPacket(MSG_GROUP, session.username, [], text + [NUL]), Some(tag));
    var waiting := session.(pending := [tag]);
    var reply := TextPacket(MSG_ERROR, env.wording(UserFailure(GetFd(s.world.users, CString(p.receiver)).error)));
    var s1 := s.(links := s.links[fd := Session(session, [G.Request(p, None)], [])]);
    var s2 := s.(links := s.links[fd := Session(waiting, [G.Request(p, None), broadcast], [])]);
    var s3 := System(Send(env, s.world, fd, reply), s.links[fd := Session(waiting, [broadcast], [Down(reply, None)])]);
    TwoRequests(session, receiver, filename, text);
    assert [] + [G.Request(p, None)] == [G.Request(p, None)];
    assert Next(env, s, m0) == s1;
    assert [G.Request(p, None)] + [broadcast] == [G.Request(p, None), broadcast];
    assert Next(env, s1, m1) == s2;
    RefusedFile(env, s2, fd, p, broadcast);
    assert Next(env, s2, m2) == s3;
    TextPacketKind(MSG_ERROR, env.wording(UserFailure(GetFd(s.world.users, CString(p.receiver)).error)));
    AnswerTaken(waiting, reply);
    var s4 := s3.(links := s3.links[fd := Session(Receive(waiting, reply), [broadcast], [])]);
    assert [Down(reply, None)][1..] == [];
    assert Next(env, s3, m3) == s4;
    assert !Orderly(env, s2, m2);
    InFourMoves(env, s, s1, s2, s3, m0, m1, m2, m3);
    assert s4.links[fd].up == [broadcast] && Tags([broadcast]) == [tag] + Tags([broadcast][1..]);
  }

  lemma InFourMoves(env: Env, s: System, s1: System, s2: System, s3: System, m0: Move, m1: Move, m2: Move, m3: Move)
    requires Enabled(s, m0) && Next(env, s, m0) == s1 && Enabled(s1, m1) && Next(env, s1, m1) == s2
    requires Enabled(s2, m2) && Next(env, s2, m2) == s3 && Enabled(s3, m3)
    ensures RunSystem(env, s, [m0, m1, m2, m3]) == Next(env, s3, m3)
    ensures AllOrderly(env, s, [m0, m1, m2, m3]) ==> Orderly(env, s2, m2)
  {
    hide Next, Enabled, Orderly;
    assert [m0, m1, m2, m3][1..] == [m1, m2, m3] && [m1, m2, m3][1..] == [m2, m3] && [m2, m3][1..] == [m3] && [m3][1..] == [];
    assert RunSystem(env, s3, [m3]) == RunSystem(env, Next(env, s3, m3), []);
    assert RunSystem(env, s2, [m2, m3]) == RunSystem(env, s3, [m3]);
    assert RunSystem(env, s1, [m1, m2, m3]) == RunSystem(env, s2, [m2, m3]);
    if AllOrderly(env, s, [m0, m1, m2, m3]) {
      assert AllOrderly(env, s1, [m1, m2, m3]);
      assert AllOrderly(env, s2, [m2, m3]);
    }
  }

  /** For instance a is logged in on socket 5, b is registered and offline, and a announces a file to b. */
  lemma ErrorForTheWrongRequestAt5(env: Env)
    requires env.fate(0)
    ensures var salt, hash := seq(SALT_HEX_LEN, _ => 48 as byte), seq(PASSWORD_HASH_HEX_LEN, _ => 48 as byte);
            var w := World([User([97], salt, hash, true, 5), User([98], salt, hash, false, -1)], [], [], 1, []);
            var session := G.FreshSession.(loggedIn := true, username := [97]);
            var s := System(w, map[5 := Session(session, [], [])]);
            var moves := [Browse(5, G.FileStart([98], [102], 0)), Browse(5, G.ToAll([104])), Serve(5, None, false), Deliver(5)];
            var r := RunSystem(env, s, moves);
            && Inv(w) && OnSession(r, 5) && !Matched(r.links[5])
            && r.links[5].session.ui == [G.CommandResult(Some(G.SendToAll), false)]
  {
    var salt, hash := seq(SALT_HEX_LEN, _ => 48 as byte), seq(PASSWORD_HASH_HEX_LEN, _ => 48 as byte);
    var w := World([User([97], salt, hash, true, 5), User([98], salt, hash, false, -1)], [], [], 1, []);
    var session := G.FreshSession.(loggedIn := true, username := [97]);
    assert w.users[0].name == [97] && w.users[1].name == [98];
    FixedReadsBack([98], USERNAME_MAX_LEN);
    FindUserIs(w.users, [98], 1);
    hide RunSystem, AllOrderly, Matched, Fixed, CString;
    ErrorForTheWrongRequest(env, System(w, map[5 := Session(session, [], [])]), 5, [98], [102], [104]);
    assert [] + [G.CommandResult(Some(G.SendToAll), false)] == [G.CommandResult(Some(G.SendToAll), false)];
  }

  lemma TwoRequests(session: G.Session, receiver: Bytes, filename: Bytes, text: Bytes)
    requires session.loggedIn && session.username != [] && session.pending == [] && G.ValidPeer(receiver) && G.ValidText(text)
    requires filename != [] && |filename| < FILE_NAME_MAX_LEN && NEWLINE !in filename
    ensures G.Act(session, G.FileStart(receiver, filename, 0))
            == G.Acted(session, Some(G.Request(PackedPacket(MSG_FILE_BEGIN, session.username, receiver,
                                                        G.FileBeginPayload(filename, 0)), None)))
    ensures var tag := G.Status(G.SendToAll);
            G.Act(session, G.ToAll(text))
            == G.Acted(session.(pending := [tag]), Some(G.Request(PackedPacket(MSG_GROUP, session.username, [], text + [NUL]), Some(tag))))
  {
  }

  lemma RefusedFile(env: Env, s: System, fd: int, p: Packet, next: G.Request)
    requires fd in s.links && s.links[fd].Session? && s.links[fd].up == [G.Request(p, None), next] && s.links[fd].down == []
    requires p.kind == MSG_FILE_BEGIN && GetFd(s.world.users, CString(p.receiver)).NoFd? && env.fate(|s.world.log|)
    ensures var reply := TextPacket(MSG_ERROR, env.wording(UserFailure(GetFd(s.world.users, CString(p.receiver)).error)));
            Next(env, s, Serve(fd, None, false))
            == System(Send(env, s.world, fd, reply), s.links[fd := Session(s.links[fd].session, [next], [Down(reply, None)])])
  {
    hide CString, TextPacket, GetFd;
    var reply := TextPacket(MSG_ERROR, env.wording(UserFailure(GetFd(s.world.users, CString(p.receiver)).error)));
    var r := Send(env, s.world, fd, reply);
    assert Process(env, s.world, fd, p, None, false) == r;
    assert NewSends(s.world, r) == [Attempt(fd, reply, true)] && [Attempt(fd, reply, true)][1..] == [];
    assert [G.Request(p, None), next][1..] == [next];
    TextPacketKind(MSG_ERROR, env.wording(UserFailure(GetFd(s.world.users, CString(p.receiver)).error)));
    var links := s.links[fd := s.links[fd].(up := [next])];
    assert [] + [Down(reply, None)] == [Down(reply, None)];
    assert ArriveAll(links, [Attempt(fd, reply, true)], fd, None)
        == ArriveAll(Arrive(links, Attempt(fd, reply, true), fd, None), [], fd, None)
        == Arrive(links, Attempt(fd, reply, true), fd, None);
  }

  lemma TextPacketKind(kind: int, text: Bytes)
    ensures TextPacket(kind, text).kind == kind
  {
  }

  lemma AnswerTaken(session: G.Session, p: Packet)
    requires p.kind == MSG_ERROR && session.pending == [G.Status(G.SendToAll)]
    ensures Receive(session, p) == session.(pending := [], ui := session.ui + [G.CommandResult(Some(G.SendToAll), false)])
  {
    assert [G.Status(G.SendToAll)][1..] == [];
  }

  lemma ServeLinks(env: Env, s: System, e: Event, fd: int, tag: Option<G.Pending>, links: map<int, Link>)
    requires Inv(s.world) && (forall to :: to in links && to != fd ==> Matched(links[to]))
    requires e.fd == fd
    ensures var r := Served(env, s, fd, e, tag, links);
            && Inv(r.world) && r.links.Keys == links.Keys
            && (forall to :: to in links && to != fd ==> Matched(r.links[to]))
  {
    hide Inv, Step, Matched, UntrackedAnswered;
    StepKeepsInv(env, s.world, e);
    ServerAnswers(env, s.world, e);
    var w1 := Step(env, s.world, e);
    var log := NewSends(s.world, w1);
    forall to | to in links && to != fd ensures to in ArriveAll(links, log, fd, tag) && Matched(ArriveAll(links, log, fd, tag)[to]) {
      OthersStayMatched(links, log, fd, tag, to);
    }
    if to :| to in links {
      ArriveEffect(links, log, fd, tag, to);
    } else {
      NoLinks(links, log, fd, tag);
    }
  }

  lemma NoLinks(links: map<int, Link>, log: seq<Attempt>, fd: int, tag: Option<G.Pending>)
    requires links == map[]
    ensures ArriveAll(links, log, fd, tag) == map[]
    decreases |log|
  {
    if log != [] { NoLinks(links, log[1..], fd, tag); }
  }

  /** Every orderly move keeps all connections matched. */
  lemma MoveKeepsMatching(env: Env, s: System, m: Move)
    requires AllMatched(s) && Enabled(s, m) && Orderly(env, s, m)
    ensures AllMatched(Next(env, s, m))
  {
    hide Inv, Matched, Step, Answered, Answers, G.Act, Receive, UntrackedAnswered;
    match m
    case Connect(fd, gateway) => FreshIsMatched();
    case Browse(fd, a) => BrowseStaysMatched(s.links[fd], a); FreshIsMatched();
    case Deliver(fd) => DeliveryStaysMatched(s.links[fd]); FreshIsMatched();
    case Serve(fd, salt, appended) =>
      var l := s.links[fd];
      var links := s.links[fd := l.(up := l.up[1..])];
      var e := Arrived(fd, l.up[0].packet, salt, appended);
      ServeLinks(env, s, e, fd, l.up[0].tag, links);
      ServedStaysMatched(env, s, fd, salt, appended);
      FreshIsMatched();
      PlainIsMatched(Next(env, s, m).links[fd]);
    case Raw(fd, packet, salt, appended) =>
      ServeLinks(env, s, Arrived(fd, packet, salt, appended), fd, None, s.links);
      ArriveEffect(s.links, NewSends(s.world, Step(env, s.world, Arrived(fd, packet, salt, appended))), fd, None, fd);
      PlainIsMatched(Next(env, s, m).links[fd]);
    case Close(fd) => ServeLinks(env, s, HungUp(fd), fd, None, s.links - {fd});
  }

  lemma PlainIsMatched(l: Link)
    ensures l.Plain? ==> Matched(l)
  {
  }

  lemma FreshIsMatched()
    ensures Matched(Plain) && Matched(Session(G.FreshSession, [], []))
  {
  }

  ghost predicate AllOrderly(env: Env, s: System, moves: seq<Move>)
    decreases |moves|
  {
    moves == []
    || (if Enabled(s, moves[0]) then Orderly(env, s, moves[0]) && AllOrderly(env, Next(env, s, moves[0]), moves[1..])
        else AllOrderly(env, s, moves[1..]))
  }

  lemma {:induction false} RunKeepsMatching(env: Env, s: System, moves: seq<Move>)
    requires AllMatched(s) && AllOrderly(env, s, moves)
    ensures AllMatched(RunSystem(env, s, moves))
    decreases |moves|
  {
    hide AllMatched, Orderly, Enabled, Next;
    if moves != [] {
      if Enabled(s, moves[0]) {
        MoveKeepsMatching(env, s, moves[0]);
        RunKeepsMatching(env, Next(env, s, moves[0]), moves[1..]);
      } else {
        RunKeepsMatching(env, s, moves[1..]);
      }
    }
  }

  /**
   Response matching: over any orderly run, with any send failures and any other clients, every
   session's queue lists exactly its awaited requests that are unanswered, in order: first those whose
   answers are on their way, then those the server has yet to handle.
   */
  lemma ResponsesMatch(env: Env, storage: Bytes, moves: seq<Move>, fd: int)
    requires AllOrderly(env, Boot(storage), moves)
    requires OnSession(RunSystem(env, Boot(storage), moves), fd)
    ensures var l := RunSystem(env, Boot(storage), moves).links[fd];
            AllCaused(l.down) && l.session.pending == Causes(l.down) + Tags(l.up)
  {
    StartInv(storage);
    RunKeepsMatching(env, Boot(storage), moves);
  }
}
