/**
 The server and any number of clients as one system: each connection carries requests up and packets
 down, both in order. Gateway sessions are modelled; any other client may send anything.
 */
module ChatSystem {
  import opened Basics
  import opened Wire
  import opened Credentials
  import opened ServerModel
  import G = Gateway

  /**
   A packet on its way to a session. `cause` records, for an answer, the queue entry made for the
   request that the server was handling when it sent the answer.
   */
  datatype Down = Down(packet: Packet, cause: Option<G.Pending>)

  /** `Plain` is any client about whose state nothing is claimed, or a broken connection. */
  datatype Link = Session(session: G.Session, up: seq<G.Request>, down: seq<Down>) | Plain

  datatype System = System(world: World, links: map<int, Link>)

  predicate IsAnswer(kind: int) {
    kind == MSG_OK || kind == MSG_ERROR
  }

  /** One send reaches its connection, or breaks it. */
  function Arrive(links: map<int, Link>, a: Attempt, fd: int, tag: Option<G.Pending>): map<int, Link> {
    if a.fd !in links || links[a.fd].Plain? then links
    else if !a.ok then links[a.fd := Plain]
    else links[a.fd := links[a.fd].(down := links[a.fd].down
                                            + [Down(a.packet, if IsAnswer(a.packet.kind) && a.fd == fd then tag else None)])]
  }

  /** All sends of one step, made while handling a request from `fd` with queue entry `tag`. */
  function ArriveAll(links: map<int, Link>, log: seq<Attempt>, fd: int, tag: Option<G.Pending>): map<int, Link>
    decreases |log|
  {
    if log == [] then links else ArriveAll(Arrive(links, log[0], fd, tag), log[1..], fd, tag)
  }

  function NewSends(w: World, r: World): seq<Attempt> {
    if w.log <= r.log then r.log[|w.log|..] else []
  }

  datatype Move =
    | Connect(fd: int, gateway: bool)
    | Browse(fd: int, action: G.Action)
    | Serve(fd: int, salt: Option<Salt>, appended: bool)
    | Deliver(fd: int)
    | Raw(fd: int, packet: Packet, salt: Option<Salt>, appended: bool)
    | Close(fd: int)

  predicate OnSession(s: System, fd: int) {
    fd in s.links && s.links[fd].Session?
  }

  predicate Enabled(s: System, m: Move) {
    match m
    case Connect(fd, _) => fd !in s.links && 0 <= fd
    case Browse(fd, _) => OnSession(s, fd) && s.links[fd].session.open
    case Serve(fd, _, _) => OnSession(s, fd) && s.links[fd].up != []
    case Deliver(fd) => OnSession(s, fd) && s.links[fd].down != []
    case Raw(fd, _, _, _) => fd in s.links && s.links[fd].Plain?
    case Close(fd) => fd in s.links
  }

  /** What the receiving session makes of a packet from the server. */
  function Receive(s: G.Session, p: Packet): G.Session {
    G.HandlePacket(s, JsView(p))
  }

  function Served(env: Env, s: System, fd: int, e: Event, tag: Option<G.Pending>, links: map<int, Link>): System {
    var r := Step(env, s.world, e);
    System(r, ArriveAll(links, NewSends(s.world, r), fd, tag))
  }

  function Next(env: Env, s: System, m: Move): System
    requires Enabled(s, m)
  {
    match m
    case Connect(fd, gateway) => s.(links := s.links[fd := if gateway then Session(G.FreshSession, [], []) else Plain])
    case Browse(fd, action) =>
      var l, r := s.links[fd], G.Act(s.links[fd].session, action);
      if !r.session.open then s.(links := s.links[fd := Plain])
      else s.(links := s.links[fd := Session(r.session, l.up + (if r.request.Some? then [r.request.value] else []), l.down)])
    case Serve(fd, salt, appended) =>
      var l := s.links[fd];
      Served(env, s, fd, Arrived(fd, l.up[0].packet, salt, appended), l.up[0].tag, s.links[fd := l.(up := l.up[1..])])
    case Deliver(fd) =>
      var l := s.links[fd];
      var after := Receive(l.session, l.down[0].packet);
      if !after.open then s.(links := s.links[fd := Plain])
      else s.(links := s.links[fd := Session(after, l.up, l.down[1..])])
    case Raw(fd, packet, salt, appended) => Served(env, s, fd, Arrived(fd, packet, salt, appended), None, s.links)
    case Close(fd) => Served(env, s, fd, HungUp(fd), None, s.links - {fd})
  }

  function RunSystem(env: Env, s: System, moves: seq<Move>): System
    decreases |moves|
  {
    if moves == [] then s
    else if !Enabled(s, moves[0]) then RunSystem(env, s, moves[1..])
    else RunSystem(env, Next(env, s, moves[0]), moves[1..])
  }

  /** A server just started on a user file, with no connections. */
  function Boot(storage: Bytes): System {
    System(Start(storage), map[])
  }
}
