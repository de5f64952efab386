/**
 From one browser to another: what a browser action asks for, what the server makes of it, and what the browsers
 that are sent something are shown.
 */
module EndToEnd {
  import opened Basics
  import opened Wire
  import opened Credentials
  import opened GroupModel
  import opened Payload
  import opened UserModel
  import opened ServerModel
  import opened ServerSafety
  import opened ServerRuns
  import opened ChatSystem
  import opened CacheAgreement
  import opened MirrorRuns
  import opened Delivery
  import opened FileTransfer
  import G = Gateway

  /** The packet of an action that is sent on. */
  function PacketOf(s: G.Session, a: G.Action): Packet
    requires G.Act(s, a).request.Some?
  {
    G.Act(s, a).request.value.packet
  }

  predicate LoggedIn(s: G.Session) {
    s.loggedIn && s.username != [] && |s.username| < 32
  }

  lemma PackedNames(kind: int, sender: Bytes, receiver: Bytes, data: Bytes)
    requires |sender| < 32 && |receiver| < 32
    ensures var p := PackedPacket(kind, sender, receiver, data);
            CString(p.sender) == CString(sender) && CString(p.receiver) == CString(receiver)
  {
    hide CString, Fixed;
    FixedText(sender, USERNAME_MAX_LEN);
    FixedText(receiver, USERNAME_MAX_LEN);
  }

  lemma TextOf(text: Bytes)
    ensures CString(text + [NUL]) == CString(text)
  {
    CStringStays(text, []);
    assert text + [NUL] + [] == text + [NUL];
  }

  // ---------- what is sent at all ----------

  /** The number each action has on the wire. */
  function KindOf(a: G.Action): int {
    if a.Register? then 1 else if a.Login? then 2 else if a.Private? then 3 else if a.ToAll? then 4 else if a.OnlineList? then 5
    else if a.FileStart? then 6 else if a.FileChunk? then 7 else if a.FileDone? then 8 else if a.Logout? then 9
    else if a.CreateGroup? then 14 else if a.ListGroups? then 15 else 16
  }

  /** A sent action shows the browser nothing yet and changes the session's queue only. */
  lemma ActionSent(s: G.Session, a: G.Action)
    requires G.Act(s, a).request.Some?
    ensures var r := G.Act(s, a);
            r.request.value.packet.kind == KindOf(a) && r.session == s.(pending := r.session.pending) && s.pending <= r.session.pending
  {
    hide Fixed, CString, G.FileBeginPayload, G.CreatePayload, G.OtherThan, G.AllPeers;
  }

  /** An action that is not sent: a failed registration or login says so, everything else shows a failure. */
  lemma ActionRefused(s: G.Session, a: G.Action)
    requires G.Act(s, a).request.None? && !a.Logout?
    ensures G.Act(s, a).session.(pending := s.pending)
            == s.(ui := s.ui + [if a.Register? then G.AuthResult(G.DoRegister, false, a.username)
                                else if a.Login? then G.AuthResult(G.DoLogin, false, a.username) else G.Failure])
    ensures !a.GroupMessage? ==> G.Act(s, a).session.pending == s.pending
  {
    hide Fixed, CString, G.FileBeginPayload, G.CreatePayload, G.OtherThan, G.AllPeers, G.WithoutGroupMessages;
  }

  /** A logout is sent by whoever is logged in; for others the session just ends. */
  lemma LogoutAsks(s: G.Session)
    ensures G.Act(s, G.Logout).request.Some? <==> s.loggedIn
    ensures !s.loggedIn ==>
              G.Act(s, G.Logout).session == s.(username := [], groups := map[], open := false, ui := s.ui + [G.UiEvent.LoggedOut(true)])
  {
    hide Fixed;
  }

  /** Which names and passwords may be sent: 1 to 31 and 1 to 63 bytes, without a newline, and names without a colon. */
  lemma AuthAsks(s: G.Session, name: Bytes, password: Bytes)
    ensures var ok := 1 <= |name| <= 31 && 58 !in name && 10 !in name && 1 <= |password| <= 63 && 10 !in password;
            (G.Act(s, G.Register(name, password)).request.Some? <==> ok) && (G.Act(s, G.Login(name, password)).request.Some? <==> ok)
  {
    hide Fixed;
  }

  /** Which pieces of a file may be sent: a name of 1 to 255 bytes, at most 10 MiB, in chunks of 1 to 1024 bytes. */
  lemma FileAsks(s: G.Session, receiver: Bytes, name: Bytes, size: nat, data: Bytes)
    requires LoggedIn(s)
    ensures var ok := 1 <= |receiver| <= 31 && 58 !in receiver && 10 !in receiver;
            && (G.Act(s, G.FileStart(receiver, name, size)).request.Some?
                <==> ok && 1 <= |name| <= 255 && 10 !in name && size <= 10485760)
            && (G.Act(s, G.FileChunk(receiver, data)).request.Some? <==> ok && 1 <= |data| <= 1024)
            && (G.Act(s, G.FileDone(receiver)).request.Some? <==> ok)
  {
    hide Fixed, G.FileBeginPayload;
  }

  /** Nothing but registering, logging in and logging out goes without a login. */
  lemma LoginNeeded(s: G.Session, a: G.Action)
    requires !s.loggedIn && !a.Register? && !a.Login? && !a.Logout?
    ensures G.Act(s, a) == G.Acted(s.(ui := s.ui + [G.Failure]), None)
  {
  }

  /** A message names its group in the mirror, and leaves what else is known about that and other groups. */
  lemma MessageNames(t: G.Session, p: Packet)
    requires p.kind == MSG_GROUP_MESSAGE && DecodeMessage(p.data).Some?
    ensures var m, r := DecodeMessage(p.data).value, Receive(t, p).groups;
            && r.Keys == t.groups.Keys + {m.id} && (forall id :: id in t.groups && id != m.id ==> r[id] == t.groups[id])
            && r[m.id].id == m.id && r[m.id].name == m.name
            && (if m.id in t.groups then r[m.id].creator == t.groups[m.id].creator && r[m.id].members == t.groups[m.id].members
                else r[m.id].creator.None? && r[m.id].members.None?)
  {
    hide DecodeMessage, CString;
  }

  // ---------- messages ----------

  lemma ChatShown(t: G.Session, p: Packet)
    requires p.kind == MSG_PRIVATE || p.kind == MSG_GROUP
    ensures Receive(t, p)
            == t.(ui := t.ui + [G.ChatMessage(p.kind == MSG_GROUP, CString(p.sender), CString(p.receiver), CString(p.data))])
  {
    hide CString;
  }

  /** What a private message shows whoever receives it, and which are sent at all. */
  lemma PrivateShows(s: G.Session, receiver: Bytes, text: Bytes, t: G.Session)
    requires LoggedIn(s)
    ensures G.Act(s, G.Private(receiver, text)).request.Some?
            <==> 1 <= |receiver| <= 31 && 58 !in receiver && 10 !in receiver && 1 <= |text| <= 1023
    ensures G.Act(s, G.Private(receiver, text)).request.Some? ==>
              var p := PacketOf(s, G.Private(receiver, text));
              && p.kind == MSG_PRIVATE && CString(p.receiver) == CString(receiver)
              && Receive(t, p) == t.(ui := t.ui + [G.ChatMessage(false, CString(s.username), CString(receiver), CString(text))])
  {
    hide CString, Fixed, Receive;
    if |receiver| < 32 { PackedNames(MSG_PRIVATE, s.username, receiver, text + [NUL]); }
    TextOf(text);
    if G.Act(s, G.Private(receiver, text)).request.Some? { ChatShown(t, PacketOf(s, G.Private(receiver, text))); }
  }

  /**
   A private message to a user who is online and reached: that user's browser is shown the sender and the text, up to
   its first NUL, and the sender gets an OK; nothing else is sent.
   */
  lemma PrivateArrives(env: Env, w: World, fd: int, s: G.Session, receiver: Bytes, text: Bytes, salt: Option<Salt>, appended: bool,
                       k: nat, t: G.Session)
    requires Inv(w) && LoggedIn(s) && G.Act(s, G.Private(receiver, text)).request.Some?
    requires OnlineAs(w.users, CString(receiver), k) && env.fate(|w.log|)
    ensures var p := PacketOf(s, G.Private(receiver, text));
            var w1 := w.(log := w.log + [Attempt(w.users[k].fd, p, true)]);
            && Step(env, w, Arrived(fd, p, salt, appended)) == Answer(env, w1, fd, MSG_OK, PrivateSent)
            && Receive(t, p).ui == t.ui + [G.ChatMessage(false, CString(s.username), w.users[k].name, CString(text))]
  {
    hide G.Act, Step, CString, Receive, Answer;
    PrivateShows(s, receiver, text, t);
    ForwardDelivers(env, w, fd, PacketOf(s, G.Private(receiver, text)), salt, appended, k);
  }

  lemma BroadcastAsks(s: G.Session, text: Bytes)
    requires LoggedIn(s)
    ensures G.Act(s, G.ToAll(text)).request.Some? <==> 1 <= |text| <= 1023
    ensures G.Act(s, G.ToAll(text)).request.Some? ==>
              PacketOf(s, G.ToAll(text)) == PackedPacket(MSG_GROUP, s.username, [], text + [NUL])
  {
    hide PackedPacket;
  }

  /** What a broadcast shows whoever receives it; `BroadcastDelivery` says who that is. */
  lemma BroadcastShows(s: G.Session, text: Bytes, t: G.Session)
    requires LoggedIn(s)
    ensures G.Act(s, G.ToAll(text)).request.Some? <==> 1 <= |text| <= 1023
    ensures G.Act(s, G.ToAll(text)).request.Some? ==>
              var p := PacketOf(s, G.ToAll(text));
              p.kind == MSG_GROUP && Receive(t, p) == t.(ui := t.ui + [G.ChatMessage(true, CString(s.username), [], CString(text))])
  {
    hide CString, Fixed, Receive, G.Act, PacketOf;
    BroadcastAsks(s, text);
    PackedNames(MSG_GROUP, s.username, [], text + [NUL]);
    CStringOf([], []);
    TextOf(text);
    if 1 <= |text| <= 1023 { ChatShown(t, PacketOf(s, G.ToAll(text))); }
  }

  /**
   A member's message to a group, from browser to browser: each member who is still online in turn is sent it once and its
   browser is shown the sender, the group and exactly the text.
   */
  lemma GroupMessageArrives(env: Env, w: World, fd: int, s: G.Session, groupId: Bytes, text: Bytes, salt: Option<Salt>, appended: bool,
                            k: nat, i: nat) returns (reached: seq<Bytes>, last: World)
    requires Inv(w) && LoggedIn(s) && Holds(w.users, fd, k) && w.users[k].name == s.username
    requires G.Act(s, G.GroupMessage(groupId, text)).request.Some?
    requires FirstWithId(w.groups, groupId, i) && s.username in w.groups[i].members
    requires |groupId| + |w.groups[i].name| + |text| + 3 <= 1024
    ensures var p := PacketOf(s, G.GroupMessage(groupId, text));
            Step(env, w, Arrived(fd, p, salt, appended)) == Answer(env, last, fd, MSG_OK, GroupMessageSent)
    ensures w.log <= last.log && Distinct(reached) && NamesOnline(w.users, reached)
            && SentTo(last.log[|w.log|..], MSG_GROUP_MESSAGE) == SocketsOf(w.users, reached)
    ensures (forall m :: m in reached ==> m in w.groups[i].members)
            && (forall m :: m in w.groups[i].members && IsOnline(last.users, m) ==> m in reached)
    ensures forall n, t: G.Session :: |w.log| <= n < |last.log| && last.log[n].packet.kind == MSG_GROUP_MESSAGE ==>
              Receive(t, last.log[n].packet).ui
              == t.ui + [G.GroupChat(s.username, GroupText(groupId, w.groups[i].name, text))]
  {
    hide G.Act, Step, CString, Receive, Answer, IsOnline, DecodeMessage;
    var p := PacketOf(s, G.GroupMessage(groupId, text));
    GroupMessageAsks(s, groupId, text);
    assert text + [0] + [] == text + [0];
    reached, last := MessageDelivery(env, w, fd, p, salt, appended, k, i, text, []);
    forall n, t: G.Session | |w.log| <= n < |last.log| && last.log[n].packet.kind == MSG_GROUP_MESSAGE
      ensures Receive(t, last.log[n].packet).ui == t.ui + [G.GroupChat(s.username, GroupText(groupId, w.groups[i].name, text))]
    {
      MessageShown(t, last.log[n].packet);
    }
  }

  lemma GroupMessageAsks(s: G.Session, groupId: Bytes, text: Bytes)
    requires LoggedIn(s)
    ensures G.Act(s, G.GroupMessage(groupId, text)).request.Some?
            <==> 1 <= |groupId| <= 31 && 0 !in groupId && 1 <= |text| <= 1023 && 0 !in text
    ensures G.Act(s, G.GroupMessage(groupId, text)).request.Some? ==>
              var p := PacketOf(s, G.GroupMessage(groupId, text));
              p.kind == MSG_GROUP_MESSAGE && CString(p.receiver) == groupId && p.data == text + [0]
  {
    hide CString, Fixed;
    if |groupId| < 32 {
      PackedNames(MSG_GROUP_MESSAGE, s.username, groupId, text + [NUL]);
      if 0 !in groupId { CStringOf(groupId, []); }
    }
  }

  lemma MessageShown(t: G.Session, p: Packet)
    requires p.kind == MSG_GROUP_MESSAGE && DecodeMessage(p.data).Some?
    ensures Receive(t, p).ui == t.ui + [G.GroupChat(CString(p.sender), DecodeMessage(p.data).value)]
  {
    hide DecodeMessage, CString;
  }

  // ---------- registering and logging in ----------

  /** What the answer to a login does to the session that awaits it. */
  lemma LoginAnswered(s: G.Session, name: Bytes, kind: int, text: Bytes)
    requires s.pending == [G.Auth(G.DoLogin, name)] && (kind == MSG_OK || kind == MSG_ERROR)
    ensures Receive(s, TextPacket(kind, text))
            == if kind == MSG_OK
               then s.(pending := [], groups := map[], loggedIn := true, username := name,
                       ui := s.ui + [G.AuthResult(G.DoLogin, true, name)])
               else s.(pending := [], ui := s.ui + [G.AuthResult(G.DoLogin, false, name)])
  {
    hide CString, Fixed;
  }

  /**
   A login from the browser of a user the server has: exactly when that user is offline and knows the password, the server
   puts the user online on this socket and the session is logged in under that name with no groups yet; in either case the
   browser is told.
   */
  lemma LoginArrives(env: Env, w: World, fd: int, s: G.Session, name: Bytes, password: Bytes, salt: Option<Salt>, appended: bool, k: nat)
    requires Inv(w) && k < |w.users| && w.users[k].name == name && s.pending == []
    requires G.Act(s, G.Login(name, password)).request.Some? && 0 !in password
    ensures var r := Step(env, w, Arrived(fd, PacketOf(s, G.Login(name, password)), salt, appended));
            var ok := !w.users[k].online && Knows(env.digest, w.users[k], password);
            && r.users == (if ok then w.users[k := w.users[k].(online := true, fd := fd)] else w.users)
            && |r.log| == |w.log| + 1 && w.log <= r.log && r.log[|w.log|].fd == fd
            && Receive(G.Act(s, G.Login(name, password)).session, r.log[|w.log|].packet)
               == if ok then s.(loggedIn := true, username := name, groups := map[], ui := s.ui + [G.AuthResult(G.DoLogin, true, name)])
                  else s.(ui := s.ui + [G.AuthResult(G.DoLogin, false, name)])
  {
    hide G.Act, Step, CString, Receive, Knows, TextPacket, ValidPassword;
    var a := G.Login(name, password);
    var p := PacketOf(s, a);
    InvUsers(w);
    assert ValidUser(w.users[k]);
    LoginAsks(s, name, password);
    LoginStep(env, w, fd, p, salt, appended, k);
    var asked := G.Act(s, a).session;
    forall kind, reply | kind == MSG_OK || kind == MSG_ERROR
      ensures Receive(asked, TextPacket(kind, env.wording(reply)))
              == if kind == MSG_OK
                 then s.(pending := [], groups := map[], loggedIn := true, username := name,
                         ui := s.ui + [G.AuthResult(G.DoLogin, true, name)])
                 else s.(pending := [], ui := s.ui + [G.AuthResult(G.DoLogin, false, name)])
    {
      LoginAnswered(asked, name, kind, env.wording(reply));
    }
  }

  lemma LoginAsks(s: G.Session, name: Bytes, password: Bytes)
    requires ValidName(name) && G.Act(s, G.Login(name, password)).request.Some? && 0 !in password
    ensures var p := PacketOf(s, G.Login(name, password));
            p.kind == MSG_LOGIN && CString(p.sender) == name && CString(p.data) == password && ValidPassword(password)
    ensures G.Act(s, G.Login(name, password)).session == s.(pending := s.pending + [G.Auth(G.DoLogin, name)])
  {
    hide CString, Fixed;
    PackedNames(MSG_LOGIN, name, [], password + [NUL]);
    CStringOf(name, []);
    CStringOf(password, []);
    TextOf(password);
  }

  lemma RegisterAsks(s: G.Session, name: Bytes, password: Bytes)
    requires G.Act(s, G.Register(name, password)).request.Some? && 0 !in name && 0 !in password
    ensures var p := PacketOf(s, G.Register(name, password));
            p.kind == MSG_REGISTER && CString(p.sender) == name && CString(p.data) == password && ValidName(name) && ValidPassword(password)
    ensures G.Act(s, G.Register(name, password)).session == s.(pending := s.pending + [G.Auth(G.DoRegister, name)])
  {
    hide CString, Fixed;
    PackedNames(MSG_REGISTER, name, [], password + [NUL]);
    CStringOf(name, []);
    CStringOf(password, []);
    TextOf(password);
  }

  lemma RegisterAnswered(s: G.Session, name: Bytes, kind: int, text: Bytes)
    requires s.pending == [G.Auth(G.DoRegister, name)] && (kind == MSG_OK || kind == MSG_ERROR)
    ensures Receive(s, TextPacket(kind, text)) == s.(pending := [], ui := s.ui + [G.AuthResult(G.DoRegister, kind == MSG_OK, name)])
  {
    hide CString, Fixed;
  }

  /** A registration from a browser: it is told of success exactly when the server has added the user and saved the line. */
  lemma RegisterArrives(env: Env, w: World, fd: int, s: G.Session, name: Bytes, password: Bytes, salt: Option<Salt>, appended: bool)
    requires s.pending == [] && G.Act(s, G.Register(name, password)).request.Some? && 0 !in name && 0 !in password
    ensures var r := Step(env, w, Arrived(fd, PacketOf(s, G.Register(name, password)), salt, appended));
            var added := salt.Some? && !Known(w.users, name);
            && r.users == (if added then [User(name, ToHex(salt.value), ToHex(env.digest(salt.value, password)), false, -1)] + w.users
                           else w.users)
            && |r.log| == |w.log| + 1 && w.log <= r.log && r.log[|w.log|].fd == fd
            && Receive(G.Act(s, G.Register(name, password)).session, r.log[|w.log|].packet)
               == s.(ui := s.ui + [G.AuthResult(G.DoRegister, added && appended, name)])
  {
    hide G.Act, Step, CString, Receive, Known, TextPacket, ValidPassword, ValidName, ToHex;
    var a := G.Register(name, password);
    RegisterAsks(s, name, password);
    RegisterStep(env, w, fd, PacketOf(s, a), salt, appended);
    var asked := G.Act(s, a).session;
    forall kind, reply | kind == MSG_OK || kind == MSG_ERROR
      ensures Receive(asked, TextPacket(kind, env.wording(reply)))
              == s.(pending := [], ui := s.ui + [G.AuthResult(G.DoRegister, kind == MSG_OK, name)])
    {
      RegisterAnswered(asked, name, kind, env.wording(reply));
    }
  }

  // ---------- group lists and events ----------

  lemma ListEffect(t: G.Session, p: Packet)
    requires p.kind == MSG_GROUP_LIST && ListOf(p.data).Some?
    ensures Receive(t, p).ui == t.ui + [G.GroupsListed(ListOf(p.data).value)]
  {
    hide CString, ListOf, G.ById;
  }

  /** A group list that fits is shown to the asking browser as exactly the user's groups, in the order of the store. */
  lemma GroupListArrives(env: Env, w: World, fd: int, s: G.Session, salt: Option<Salt>, appended: bool, k: nat, t: G.Session)
    returns (ks: seq<nat>, list: Packet)
    requires Inv(w) && LoggedIn(s) && Holds(w.users, fd, k)
    ensures G.Act(s, G.ListGroups).request.Some?
    ensures Ascending(ks, |w.groups|) && forall j :: 0 <= j < |w.groups| ==> (w.users[k].name in w.groups[j].members <==> j in ks)
    ensures |Join(ListFields(GroupsAt(w.groups, ks)))| <= 1024 ==>
              && Step(env, w, Arrived(fd, PacketOf(s, G.ListGroups), salt, appended)) == SendOrCleanup(env, w, fd, list)
              && Receive(t, list).ui == t.ui + [G.GroupsListed(GroupsAt(w.groups, ks))]
  {
    hide Step, Receive, SendOrCleanup, Inv, Join, ListFields, ListOf, CString;
    ks, list := ListStep(env, w, fd, PacketOf(s, G.ListGroups), salt, appended, k);
    if |Join(ListFields(GroupsAt(w.groups, ks)))| <= 1024 { ListEffect(t, list); }
  }

  /** Events are shown with their kind, "created" or "member_left", and the group as it then is. */
  lemma EventsShow(t: G.Session, g: Group)
    requires ValidGroup(g)
    ensures FitsAsCreated(g) ==>
              Receive(t, CreatedEvent(g)).ui
              == t.ui + [G.GroupChanged(GroupEvent([99, 114, 101, 97, 116, 101, 100], g))]
    ensures FitsAsLeft(g) ==>
              Receive(t, LeftPacket(g)).ui
              == t.ui + [G.GroupChanged(GroupEvent([109, 101, 109, 98, 101, 114, 95, 108, 101, 102, 116], g))]
  {
    hide Build, EventFields, CString, Fixed, DecodeEvent, ValidGroup, Receive;
    ValidGroupNulFree(g);
    if FitsAsCreated(g) {
      EventRoundTrip(EVENT_CREATED, g);
      EventEffect(t, CreatedEvent(g));
    }
    if FitsAsLeft(g) {
      EventRoundTrip(EVENT_MEMBER_LEFT, g);
      EventEffect(t, LeftPacket(g));
    }
  }

  lemma EventEffect(t: G.Session, p: Packet)
    requires p.kind == MSG_GROUP_EVENT && DecodeEvent(p.data).Some?
    ensures Receive(t, p).ui == t.ui + [G.GroupChanged(DecodeEvent(p.data).value)]
  {
    hide CString, DecodeEvent;
  }

  // ---------- the online list ----------

  lemma NoLines()
    ensures G.Lines([]) == [] && MoreLines([]) == []
  {
  }

  lemma {:induction false} LineLengthIs(text: Bytes, n: nat)
    requires n <= |text| && NEWLINE !in text[..n] && (n < |text| ==> text[n] == NEWLINE)
    ensures G.LineLength(text) == n
  {
    if n > 0 {
      assert text[..n] == [text[0]] + text[1..][..n - 1];
      LineLengthIs(text[1..], n - 1);
    }
  }

  /** The first of several lines, and the lines behind it. */
  lemma FirstLine(name: Bytes, names: seq<Bytes>)
    requires name != [] && NEWLINE !in name
    ensures G.Lines(name + MoreLines(names)) == [name] + G.Lines(MoreLines(names))
  {
    var text := name + MoreLines(names);
    var n := |name|;
    assert text[..n] == name;
    LineLengthIs(text, n);
    assert text[..n] == name && text[n..] == MoreLines(names);
  }

  lemma {:induction false} LinesBack(names: seq<Bytes>)
    requires forall i :: 0 <= i < |names| ==> names[i] != [] && NEWLINE !in names[i]
    ensures G.Lines(MoreLines(names)) == names && G.Lines(LinesOf(names)) == names
  {
    hide G.Lines;
    NoLines();
    if names != [] {
      LinesBack(names[1..]);
      FirstLine(names[0], names[1..]);
      AfterNewline(names[0] + MoreLines(names[1..]));
      assert MoreLines(names) == [NEWLINE] + (names[0] + MoreLines(names[1..]));
    }
  }

  lemma AfterNewline(text: Bytes)
    ensures G.Lines([NEWLINE] + text) == G.Lines(text)
  {
    assert ([NEWLINE] + text)[1..] == text;
  }

  lemma {:induction false} NoNulInLines(names: seq<Bytes>)
    requires forall i :: 0 <= i < |names| ==> NUL !in names[i]
    ensures NUL !in MoreLines(names) && NUL !in LinesOf(names)
  {
    if names != [] { NoNulInLines(names[1..]); }
  }

  lemma NamesAreLines(us: seq<User>)
    requires UsersOk(us)
    ensures forall i :: 0 <= i < |OnlineNames(us)| ==>
              OnlineNames(us)[i] != [] && NEWLINE !in OnlineNames(us)[i] && NUL !in OnlineNames(us)[i]
  {
    hide OnlineNames;
    var ks := OnlineNamesMeaning(us);
    forall i | 0 <= i < |OnlineNames(us)| ensures ValidName(OnlineNames(us)[i]) { assert ValidUser(us[ks[i]]); }
  }

  lemma ListShown(t: G.Session, text: Bytes)
    requires NUL !in text
    ensures Receive(t, TextPacket(MSG_ONLINE_LIST, text)) == t.(ui := t.ui + [G.OnlineUsers(G.ListedNames(text))])
  {
    hide CString, Fixed, G.ListedNames;
    TextOf(text);
    CStringOf(text, []);
  }

  lemma ListAsks(s: G.Session)
    requires LoggedIn(s)
    ensures G.Act(s, G.OnlineList).request.Some? && PacketOf(s, G.OnlineList).kind == MSG_ONLINE_LIST
  {
  }

  /** The only online user has the name that the gateway takes for the text about nobody. */
  predicate Misread(us: seq<User>) {
    OnlineNames(us) == [G.NOBODY_ONLINE]
  }

  /**
   The online list, from the browser that asks to what it is shown: exactly the names of the online users in list order, unless the
   only one of them is called what the server says when there is nobody; then, and only then, the list shown is wrong.
   */
  lemma OnlineListArrives(env: Env, w: World, fd: int, s: G.Session, salt: Option<Salt>, appended: bool, t: G.Session)
    returns (shown: seq<Bytes>)
    requires Inv(w) && LoggedIn(s) && env.wording(NobodyOnline) == G.NOBODY_ONLINE && |LinesOf(OnlineNames(w.users))| < 1024
    ensures G.Act(s, G.OnlineList).request.Some?
    ensures var r := Step(env, w, Arrived(fd, PacketOf(s, G.OnlineList), salt, appended));
            && r == w.(log := r.log) && |r.log| == |w.log| + 1 && w.log <= r.log && r.log[|w.log|].fd == fd
            && Receive(t, r.log[|w.log|].packet).ui == t.ui + [G.OnlineUsers(shown)]
    ensures shown == OnlineNames(w.users) <==> !Misread(w.users)
  {
    hide G.Act, Step, Receive, TextPacket, OnlineNames, LinesOf, G.Lines;
    var names := OnlineNames(w.users);
    InvUsers(w);
    NamesAreLines(w.users);
    LinesBack(names);
    NoNulInLines(names);
    ListAsks(s);
    OnlineListStep(env, w, fd, PacketOf(s, G.OnlineList), salt, appended);
    var text: Bytes := if names == [] then G.NOBODY_ONLINE else LinesOf(names);
    ListShown(t, text);
    shown := G.ListedNames(text);
    OnlyThatName(names);
  }

  lemma OnlyThatName(names: seq<Bytes>)
    requires G.Lines(LinesOf(names)) == names
    ensures LinesOf(names) == G.NOBODY_ONLINE <==> names == [G.NOBODY_ONLINE]
  {
    hide G.Lines;
    if names == [G.NOBODY_ONLINE] {
      assert names[1..] == [] && LinesOf(names) == G.NOBODY_ONLINE + [];
    }
    if LinesOf(names) == G.NOBODY_ONLINE {
      NoLines();
      FirstLine(G.NOBODY_ONLINE, []);
      assert G.NOBODY_ONLINE + [] == G.NOBODY_ONLINE;
    }
  }

  /** That name is a valid one: a server on which its user alone is online. */
  lemma SuchAUser(u: User) returns (w: World)
    requires u.name == G.NOBODY_ONLINE && ValidUser(u) && u.online
    ensures ValidName(u.name) && Inv(w) && w.users == [u] && Misread(w.users)
  {
    w := World([u], [], [], 1, []);
    assert OnlineNames([u]) == [u.name] + OnlineNames([u][1..]);
  }

  // ---------- creating a group ----------

  /** The names other than the user's, empty ones left out: which they are, and that they keep their order. */
  lemma {:induction false} OtherThanMeaning(members: seq<Bytes>, user: Bytes)
    ensures forall m :: m in G.OtherThan(members, user) <==> m in members && m != [] && m != user
  {
    if members != [] { OtherThanMeaning(members[1..], user); }
  }

  lemma {:induction false} OtherThanOrder(members: seq<Bytes>, user: Bytes, a: nat) returns (b: nat)
    requires a < |G.OtherThan(members, user)|
    ensures b < |members| && members[b] == G.OtherThan(members, user)[a]
    ensures forall m :: m in members[..b] && m != [] && m != user ==> m in G.OtherThan(members, user)[..a]
  {
    var others, more := G.OtherThan(members, user), G.OtherThan(members[1..], user);
    if members[0] == [] || members[0] == user {
      assert others == more;
      b := OtherThanOrder(members[1..], user, a);
      assert members[..b + 1] == [members[0]] + members[1..][..b];
      b := b + 1;
    } else {
      assert others == [members[0]] + more;
      if a == 0 {
        b := 0;
      } else {
        b := OtherThanOrder(members[1..], user, a - 1);
        assert members[..b + 1] == [members[0]] + members[1..][..b];
        assert others[..a] == [members[0]] + more[..a - 1];
        b := b + 1;
      }
    }
  }

  lemma InOrderOfAll(members: seq<Bytes>, user: Bytes)
    ensures InOrderOf(FirstSeen(G.OtherThan(members, user)), members)
  {
    hide FirstSeen, G.OtherThan;
    var others := G.OtherThan(members, user);
    var names := FirstSeen(others);
    FirstSeenInOrder(others);
    FirstSeenFacts(others);
    OtherThanMeaning(members, user);
    forall i, j | 0 <= i < j < |names| ensures SeenBefore(names[i], names[j], members) {
      assert SeenBefore(names[i], names[j], others);
      var a :| 0 <= a < |others| && others[a] == names[i] && names[j] !in others[..a];
      var b := OtherThanOrder(members, user, a);
      assert names[j] in others;
      assert members[b] == names[i] && names[j] !in members[..b];
    }
  }

  lemma CreatorFirst(user: Bytes, others: seq<Bytes>)
    requires Distinct(others) && user !in others
    ensures FirstSeen([user] + others) == [user] + others
  {
    FirstSeenDistinct([user] + others);
  }

  /** Which names a browser may ask for a group with, and how it asks. */
  lemma CreateAsks(s: G.Session, name: Bytes, members: seq<Bytes>)
    requires LoggedIn(s)
    ensures var others := FirstSeen(G.OtherThan(members, s.username));
            && (G.Act(s, G.CreateGroup(name, members)).request.Some?
                <==> 1 <= |name| <= 63 && 0 !in name && 10 !in name && others != [] && |Join([name] + others)| <= 1024
                     && forall m: Bytes :: m in others ==> 1 <= |m| <= 31 && 0 !in m && 10 !in m && 58 !in m)
            && (G.Act(s, G.CreateGroup(name, members)).request.Some? ==>
                  var p := PacketOf(s, G.CreateGroup(name, members));
                  p.kind == MSG_GROUP_CREATE && p.data == Join([name] + others) && NulFree([name] + others))
  {
    hide FirstSeen, G.OtherThan, Build, Join, Fixed;
    var all := G.OtherThan(members, s.username);
    var others := FirstSeen(all);
    FirstSeenFacts(all);
    BuildMeaning([name] + others);
    assert G.AllPeers(all) <==> forall m :: m in others ==> G.ValidPeer(m);
    assert NulFree([name] + others) <==> 0 !in name && forall m: Bytes :: m in others ==> 0 !in m by {
      assert ([name] + others)[0] == name;
      forall m | m in others ensures m in [name] + others {}
      forall i | 0 <= i < |others| ensures others[i] == ([name] + others)[i + 1] {}
    }
    if all != [] { assert all[0] in others; }
    if others != [] { assert others[0] in all; }
  }

  /**
   A group asked for in a browser: the others are the names given, each once, without empty ones and the user's own, in the order
   given. When at most 63 are left, all of them online, and there are fewer than 128 groups, the group has the name given, the
   asking user as creator and first member, and the others after that. Otherwise an error comes back and nothing changes.
   */
  lemma GroupFromBrowser(env: Env, w: World, fd: int, s: G.Session, name: Bytes, members: seq<Bytes>, salt: Option<Salt>,
                         appended: bool, k: nat) returns (others: seq<Bytes>)
    requires Inv(w) && LoggedIn(s) && Holds(w.users, fd, k) && w.users[k].name == s.username
    requires G.Act(s, G.CreateGroup(name, members)).request.Some?
    ensures Distinct(others) && InOrderOf(others, members)
    ensures forall m :: m in others <==> m in members && m != [] && m != s.username
    ensures var r := Step(env, w, Arrived(fd, PacketOf(s, G.CreateGroup(name, members)), salt, appended));
            var g := Group(FormatId(w.issued), name, s.username, [s.username] + others);
            var w1 := w.(groups := [g] + w.groups, issued := w.issued + 1);
            r == if |others| > 64 then Answer(env, w, fd, MSG_ERROR, BadCreateData)
                 else if !AllThere(w.users, others) then Answer(env, w, fd, MSG_ERROR, MembersOffline)
                 else if |others| > 63 || |w.groups| >= 128 then Answer(env, w, fd, MSG_ERROR, GroupFailure(Full))
                 else Answer(env, PushEvent(env, w1, EVENT_CREATED, g), fd, MSG_OK, GroupCreated)
  {
    hide G.Act, Step, Inv, Answer, PushEvent, FormatId, FirstSeen, G.OtherThan, Join, AllThere, InOrderOf, NulFree;
    var all := G.OtherThan(members, s.username);
    others := FirstSeen(all);
    FirstSeenFacts(all);
    OtherThanMeaning(members, s.username);
    InOrderOfAll(members, s.username);
    CreateAsks(s, name, members);
    NameRules(name);
    CreatorFirst(s.username, others);
    assert others[0] in others && others[0] != s.username;
    CreateStep(env, w, fd, PacketOf(s, G.CreateGroup(name, members)), salt, appended, k, name, others);
  }

  // ---------- files ----------

  /** The packets of one browser action after another. */
  function PacketsOf(s: G.Session, actions: seq<G.Action>): seq<Packet>
    decreases |actions|
  {
    if actions == [] then []
    else
      var r := G.Act(s, actions[0]);
      (if r.request.Some? then [r.request.value.packet] else []) + PacketsOf(r.session, actions[1..])
  }

  function ChunkActions(receiver: Bytes, cs: seq<Bytes>): seq<G.Action> {
    if cs == [] then [] else [G.FileChunk(receiver, cs[0])] + ChunkActions(receiver, cs[1..])
  }

  /** A file sent from a browser in these pieces. */
  function FileActions(receiver: Bytes, name: Bytes, cs: seq<Bytes>): seq<G.Action> {
    [G.FileStart(receiver, name, |Flatten(cs)|)] + (ChunkActions(receiver, cs) + [G.FileDone(receiver)])
  }

  lemma {:induction false} ChunksAsked(s: G.Session, receiver: Bytes, cs: seq<Bytes>)
    requires LoggedIn(s) && G.ValidPeer(receiver) && forall i :: 0 <= i < |cs| ==> 1 <= |cs[i]| <= 1024
    ensures PacketsOf(s, ChunkActions(receiver, cs) + [G.FileDone(receiver)])
            == ChunkPackets(s.username, receiver, cs) + [EndPacket(s.username, receiver)]
  {
    hide PackedPacket;
    var done := G.FileDone(receiver);
    if cs == [] {
      assert ChunkActions(receiver, cs) + [done] == [done] && [done][1..] == [];
      assert PacketsOf(s, [done]) == [EndPacket(s.username, receiver)] + [];
    } else {
      ChunksAsked(s, receiver, cs[1..]);
      var rest := ChunkActions(receiver, cs[1..]) + [done];
      var actions := ChunkActions(receiver, cs) + [done];
      assert actions[0] == G.FileChunk(receiver, cs[0]) && actions[1..] == rest;
      var one := PackedPacket(MSG_FILE_CHUNK, s.username, receiver, cs[0]);
      assert G.Act(s, actions[0]) == G.Acted(s, Some(G.Request(one, None)));
      Regroup([one], ChunkPackets(s.username, receiver, cs[1..]), [EndPacket(s.username, receiver)]);
    }
  }

  lemma FileAsked(s: G.Session, receiver: Bytes, name: Bytes, cs: seq<Bytes>)
    requires LoggedIn(s) && G.ValidPeer(receiver) && forall i :: 0 <= i < |cs| ==> 1 <= |cs[i]| <= 1024
    requires name != [] && |name| <= 255 && 10 !in name && |Flatten(cs)| <= 10485760
    ensures PacketsOf(s, FileActions(receiver, name, cs)) == Pieces(s.username, receiver, name, |Flatten(cs)|, cs)
  {
    hide PackedPacket, Flatten, G.FileBeginPayload, ChunkActions, ChunkPackets;
    var actions, rest := FileActions(receiver, name, cs), ChunkActions(receiver, cs) + [G.FileDone(receiver)];
    ChunksAsked(s, receiver, cs);
    assert actions[1..] == rest;
    var begin := PackedPacket(MSG_FILE_BEGIN, s.username, receiver, G.FileBeginPayload(name, |Flatten(cs)|));
    assert G.Act(s, actions[0]) == G.Acted(s, Some(G.Request(begin, None)));
    Regroup([begin], ChunkPackets(s.username, receiver, cs), [EndPacket(s.username, receiver)]);
  }

  function ArrivedAll(fd: int, ps: seq<Packet>): seq<Event> {
    if ps == [] then [] else [Arrived(fd, ps[0], None, false)] + ArrivedAll(fd, ps[1..])
  }

  /** File packets to one user, who is online. */
  predicate FilePacketsTo(ps: seq<Packet>, receiver: Bytes) {
    forall i :: 0 <= i < |ps| ==> FileKind(ps[i].kind) && CString(ps[i].receiver) == receiver
  }

  lemma {:induction false} FileOnlyAppend(a: seq<JsPacket>, b: seq<JsPacket>)
    ensures FileOnly(a + b) == FileOnly(a) + FileOnly(b)
  {
    if a == [] {
      assert a + b == b;
    } else {
      FileOnlyAppend(a[1..], b);
      assert (a + b)[0] == a[0] && (a + b)[1..] == a[1..] + b;
      Regroup(if FileKind(a[0].kind) then [a[0]] else [], FileOnly(a[1..]), FileOnly(b));
    }
  }

  lemma {:induction false} ViewsAppend(a: seq<Packet>, b: seq<Packet>)
    ensures Views(a + b) == Views(a) + Views(b)
  {
    hide JsView;
    if a == [] {
      assert a + b == b;
    } else {
      ViewsAppend(a[1..], b);
      assert (a + b)[0] == a[0] && (a + b)[1..] == a[1..] + b;
      Regroup([JsView(a[0])], Views(a[1..]), Views(b));
    }
  }

  /** The file packets that a socket is sent. */
  function FilesTo(log: seq<Attempt>, to: int): seq<JsPacket> {
    FileOnly(Views(PacketsTo(log, to)))
  }

  lemma FilesToAppend(a: seq<Attempt>, b: seq<Attempt>, to: int)
    ensures FilesTo(a + b, to) == FilesTo(a, to) + FilesTo(b, to)
  {
    hide JsView, FileOnly, Views, PacketsTo;
    PacketsToAppend(a, b, to);
    ViewsAppend(PacketsTo(a, to), PacketsTo(b, to));
    FileOnlyAppend(Views(PacketsTo(a, to)), Views(PacketsTo(b, to)));
  }

  lemma FilesToOne(a: Attempt, to: int)
    ensures FilesTo([a], to) == if a.fd == to && FileKind(a.packet.kind) then [JsView(a.packet)] else []
  {
    hide JsView;
    var p, v := a.packet, JsView(a.packet);
    ViewKind(p);
    assert [a][1..] == [] && [p][1..] == [] && [v][1..] == [];
    assert PacketsTo([a][1..], to) == [] && Views([p][1..]) == [] && FileOnly([v][1..]) == [] && FileOnly([]) == [] && Views([]) == [];
    assert PacketsTo([a], to) == if a.fd == to then [p] else [];
    assert Views([p]) == [v] + [] && [v] + [] == [v];
    assert FileOnly([v]) == if FileKind(p.kind) then [v] else [];
  }

  lemma ViewKind(p: Packet)
    ensures JsView(p).kind == p.kind
  {
  }

  /** One forwarded file packet is the one file packet its receiver is sent. */
  lemma OneForwarded(env: Env, w: World, fd: int, p: Packet, k: nat)
    requires Inv(w) && FileKind(p.kind) && OnlineAs(w.users, CString(p.receiver), k) && env.fate(|w.log|)
    ensures var r := Step(env, w, Arrived(fd, p, None, false));
            r == w.(log := r.log) && w.log <= r.log && Inv(r) && |r.log| <= |w.log| + 2
            && FilesTo(r.log[|w.log|..], w.users[k].fd) == [JsView(p)]
  {
    hide Step, Answer, Cleanup, FilesTo, JsView, CString, TextPacket, Inv;
    var to, r := w.users[k].fd, Step(env, w, Arrived(fd, p, None, false));
    var w1 := w.(log := w.log + [Attempt(to, p, true)]);
    ForwardDelivers(env, w, fd, p, None, false, k);
    AnswerMeaning(env, w1, fd, MSG_OK, FileSent);
    InvIgnoresLog(w, r);
    FilesToOne(Attempt(to, p, true), to);
    var confirmed := Attempt(fd, TextPacket(MSG_OK, env.wording(FileSent)), env.fate(|w1.log|));
    if p.kind == MSG_FILE_END {
      assert confirmed.packet.kind == MSG_OK by { ViewKind(confirmed.packet); }
      FilesToOne(confirmed, to);
      FilesToAppend([Attempt(to, p, true)], [confirmed], to);
      assert r.log[|w.log|..] == [Attempt(to, p, true)] + [confirmed];
    } else {
      assert r.log[|w.log|..] == [Attempt(to, p, true)];
    }
  }

  /** File packets in a row to an online user reach that user's socket unchanged and in order. */
  lemma {:induction false} FilesForwarded(env: Env, w: World, fd: int, ps: seq<Packet>, receiver: Bytes, k: nat)
    requires Inv(w) && FilePacketsTo(ps, receiver) && OnlineAs(w.users, receiver, k)
    requires ReliableFor(env, |w.log|, 2 * |ps|)
    ensures var r := Run(env, w, ArrivedAll(fd, ps));
            w.log <= r.log && FilesTo(r.log[|w.log|..], w.users[k].fd) == Views(ps)
    decreases |ps|
  {
    hide Step, FilesTo, JsView, CString, Inv;
    if ps == [] {
      assert w.log[|w.log|..] == [];
      assert FilesTo([], w.users[k].fd) == [] by { NoFiles(w.users[k].fd); }
    } else {
      var e, w1 := Arrived(fd, ps[0], None, false), Step(env, w, Arrived(fd, ps[0], None, false));
      OneForwarded(env, w, fd, ps[0], k);
      FilesForwarded(env, w1, fd, ps[1..], receiver, k);
      var r := Run(env, w, ArrivedAll(fd, ps));
      assert ArrivedAll(fd, ps)[0] == e && ArrivedAll(fd, ps)[1..] == ArrivedAll(fd, ps[1..]);
      assert r == Run(env, w1, ArrivedAll(fd, ps[1..]));
      var a, b := w1.log[|w.log|..], r.log[|w1.log|..];
      assert r.log[|w.log|..] == a + b;
      FilesToAppend(a, b, w.users[k].fd);
    }
  }

  lemma NoFiles(to: int)
    ensures FilesTo([], to) == []
  {
  }

  lemma {:induction false} ChunksAreFor(sender: Bytes, receiver: Bytes, cs: seq<Bytes>)
    requires |receiver| < 32
    ensures FilePacketsTo(ChunkPackets(sender, receiver, cs), CString(receiver))
  {
    hide CString, Fixed;
    if cs != [] {
      ChunksAreFor(sender, receiver, cs[1..]);
      FixedText(receiver, USERNAME_MAX_LEN);
    }
  }

  lemma PiecesAreFor(sender: Bytes, receiver: Bytes, name: Bytes, size: nat, cs: seq<Bytes>)
    requires |receiver| < 32
    ensures FilePacketsTo(Pieces(sender, receiver, name, size, cs), CString(receiver))
  {
    hide CString, Fixed, ChunkPackets, G.FileBeginPayload, FilePacketsTo;
    ChunksAreFor(sender, receiver, cs);
    FixedText(receiver, USERNAME_MAX_LEN);
    var begin := PackedPacket(MSG_FILE_BEGIN, sender, receiver, G.FileBeginPayload(name, size));
    OneIsFor(begin, CString(receiver));
    OneIsFor(EndPacket(sender, receiver), CString(receiver));
    BothAreFor([begin], ChunkPackets(sender, receiver, cs), CString(receiver));
    BothAreFor([begin] + ChunkPackets(sender, receiver, cs), [EndPacket(sender, receiver)], CString(receiver));
  }

  lemma OneIsFor(p: Packet, receiver: Bytes)
    requires FileKind(p.kind) && CString(p.receiver) == receiver
    ensures FilePacketsTo([p], receiver)
  {
  }

  lemma BothAreFor(a: seq<Packet>, b: seq<Packet>, receiver: Bytes)
    requires FilePacketsTo(a, receiver) && FilePacketsTo(b, receiver)
    ensures FilePacketsTo(a + b, receiver)
  {
    hide CString;
  }

  /**
   A file from browser to browser: sent in pieces of 1 to 1024 bytes and at most 10 MiB in all, it is handed to the receiver's browser
   under its name with exactly its bytes, when the receiver is online and the sends succeed.
   */
  lemma FileArrives(env: Env, w: World, fd: int, s: G.Session, receiver: Bytes, name: Bytes, cs: seq<Bytes>, k: nat, t: G.Session)
    requires Inv(w) && LoggedIn(s) && NUL !in s.username && G.ValidPeer(receiver) && OnlineAs(w.users, CString(receiver), k)
    requires forall i :: 0 <= i < |cs| ==> 1 <= |cs[i]| <= 1024
    requires name != [] && |name| <= 255 && 10 !in name && 0 !in name && |Flatten(cs)| <= 10485760
    requires ReliableFor(env, |w.log|, 2 * |PacketsOf(s, FileActions(receiver, name, cs))|)
    ensures var ps := PacketsOf(s, FileActions(receiver, name, cs));
            var r := Run(env, w, ArrivedAll(fd, ps));
            && w.log <= r.log
            && G.FileReceived(s.username, name, Flatten(cs)) in G.HandleEach(t, Views(PacketsTo(r.log[|w.log|..], w.users[k].fd))).ui
  {
    hide CString, Flatten, Inv, Run, ArrivedAll, PacketsOf, FileActions, G.HandleEach, FilePacketsTo, FileOnly, Views, Pieces, PacketsTo;
    FileAsked(s, receiver, name, cs);
    var ps := Pieces(s.username, receiver, name, |Flatten(cs)|, cs);
    PiecesAreFor(s.username, receiver, name, |Flatten(cs)|, cs);
    FilesForwarded(env, w, fd, ps, CString(receiver), k);
    PiecesArrive(t, s.username, receiver, name, cs, Views(PacketsTo(Run(env, w, ArrivedAll(fd, ps)).log[|w.log|..], w.users[k].fd)));
  }
}
