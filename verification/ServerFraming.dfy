/** Stream framing: what the server acts on depends only on the bytes of a connection, not on
    how `recv` cuts them, nor on what other connections do. */
module ServerFraming {
  import opened Sequences
  import opened ServerSpec
  import opened ServerInvariant

  // ----- reference: cutting a whole byte stream into packets -----

  datatype ConnState = Waiting | Idle | Grouped | Dead

  /** The state of a connection after a request of its own. */
  function React(st: ConnState, r: Request): ConnState {
    match (st, r)
    case (Waiting, LoginRequest(data)) => if ValidLogin(data) then Idle else Dead
    case (Idle, PingRequest) => Idle
    case (Idle, ConnectRequest(group)) => if ValidGroupName(group) then Grouped else Dead
    case (Idle, ScanRequest) => Idle
    case (Grouped, PingRequest) => Grouped
    case (Grouped, DisconnectRequest) => Idle
    case (Grouped, ChatRequest(_)) => Grouped
    case _ => Dead
  }

  /** The packets of a stream received in state st. */
  function Frames(st: ConnState, bytes: Bytes): seq<Bytes>
    decreases |bytes|
  {
    if st == Dead || bytes == [] then []
    else match FrontPacket(st != Waiting, bytes)
      case Complete(r, size) => [bytes[..size]] + Frames(React(st, r), bytes[size..])
      case _ => []
  }

  function Joined(frames: seq<Bytes>): Bytes {
    if frames == [] then [] else frames[0] + Joined(frames[1..])
  }

  // ----- paths of whole packets -----

  /** f is exactly one packet in state st. */
  ghost predicate WholePacket(st: ConnState, f: Bytes) {
    st != Dead && f != [] && FrontPacket(st != Waiting, f).Complete? && FrontPacket(st != Waiting, f).size == |f|
  }

  /** The state after a whole packet. */
  ghost function Reacted(st: ConnState, f: Bytes): ConnState
    requires WholePacket(st, f)
  {
    React(st, FrontPacket(st != Waiting, f).request)
  }

  ghost predicate Path(st: ConnState, frames: seq<Bytes>)
    decreases |frames|
  {
    frames == [] || (WholePacket(st, frames[0]) && Path(Reacted(st, frames[0]), frames[1..]))
  }

  ghost function After(st: ConnState, frames: seq<Bytes>): ConnState
    requires Path(st, frames)
    decreases |frames|
  {
    if frames == [] then st else After(Reacted(st, frames[0]), frames[1..])
  }

  /** A whole packet is recognised whatever follows it. */
  lemma PacketThenMore(st: ConnState, f: Bytes, more: Bytes)
    requires WholePacket(st, f)
    ensures FrontPacket(st != Waiting, f + more) == FrontPacket(st != Waiting, f)
  {
    var all := f + more;
    assert all[0] == f[0];
    assert |f| >= LOGIN_SIZE ==> all[1..7] == f[1..7] && all[7..135] == f[7..135] && all[135..144] == f[135..144];
    assert |f| >= CONNECT_SIZE ==> all[1..CONNECT_SIZE] == f[1..CONNECT_SIZE];
    assert |f| >= CHAT_SIZE ==> all[1..CHAT_SIZE - 1] == f[1..CHAT_SIZE - 1];
  }

  /** A complete front packet, cut off, is a whole packet with the same request. */
  lemma CutPacket(st: ConnState, rx: Bytes)
    requires st != Dead && rx != [] && FrontPacket(st != Waiting, rx).Complete?
    ensures var size := FrontPacket(st != Waiting, rx).size;
      && 0 < size <= |rx|
      && WholePacket(st, rx[..size]) && FrontPacket(st != Waiting, rx[..size]) == FrontPacket(st != Waiting, rx)
  {
    var size := FrontPacket(st != Waiting, rx).size;
    var f := rx[..size];
    assert f[0] == rx[0];
    assert size == LOGIN_SIZE ==> f[1..7] == rx[1..7] && f[7..135] == rx[7..135] && f[135..144] == rx[135..144];
    assert size == CONNECT_SIZE ==> f[1..CONNECT_SIZE] == rx[1..CONNECT_SIZE];
    assert size == CHAT_SIZE ==> f[1..CHAT_SIZE - 1] == rx[1..CHAT_SIZE - 1];
  }

  /** A stream that begins with whole packets is cut into them first. */
  lemma {:induction false} FramesOfPath(st: ConnState, frames: seq<Bytes>, more: Bytes)
    requires Path(st, frames)
    ensures Frames(st, Joined(frames) + more) == frames + Frames(After(st, frames), more)
    decreases |frames|
  {
    if frames == [] {
      assert [] + more == more;
    } else {
      FirstFrame(st, frames[0], Joined(frames[1..]) + more);
      FramesOfPath(Reacted(st, frames[0]), frames[1..], more);
      Regroup(frames[0], Joined(frames[1..]), more);
      Regroup([frames[0]], frames[1..], Frames(After(st, frames), more));
      assert [frames[0]] + frames[1..] == frames;
    }
  }

  lemma FirstFrame(st: ConnState, f: Bytes, rest: Bytes)
    requires WholePacket(st, f)
    ensures Frames(st, f + rest) == [f] + Frames(Reacted(st, f), rest)
  {
    PacketThenMore(st, f, rest);
    assert (f + rest)[..|f|] == f && (f + rest)[|f|..] == rest;
  }

  lemma {:induction false} PathGrows(st: ConnState, frames: seq<Bytes>, f: Bytes)
    requires Path(st, frames) && WholePacket(After(st, frames), f)
    ensures Path(st, frames + [f])
    ensures After(st, frames + [f]) == Reacted(After(st, frames), f)
    decreases |frames|
  {
    var all := frames + [f];
    if frames == [] {
      assert all == [f] && all[1..] == [];
    } else {
      assert all[1..] == frames[1..] + [f] && all[0] == frames[0];
      PathGrows(Reacted(st, frames[0]), frames[1..], f);
    }
  }

  lemma {:induction false} JoinedGrows(frames: seq<Bytes>, f: Bytes)
    ensures Joined(frames + [f]) == Joined(frames) + f
  {
    var all := frames + [f];
    if frames == [] {
      assert all == [f] && all[1..] == [];
    } else {
      assert all[1..] == frames[1..] + [f];
      JoinedGrows(frames[1..], f);
    }
  }

  // ----- connections in the database -----

  ghost function StateOf(u: User): ConnState {
    if u.id.None? then Waiting else if u.group.None? then Idle else Grouped
  }

  ghost predicate OnPath(u: User, h: History) {
    && Path(Waiting, h.handled) && After(Waiting, h.handled) == StateOf(u)
    && h.received == Joined(h.handled) + u.rx
  }

  ghost predicate LiveStream(u: User, h: History) {
    |u.rx| < RX_SIZE && OnPath(u, h)
  }

  ghost predicate ClosedStream(h: History) {
    Path(Waiting, h.handled) && Joined(h.handled) <= h.received
  }

  ghost predicate StreamInv(db: Db) {
    forall fd :: fd in db.hist ==> StreamOk(db, fd)
  }

  /** An operation for connection fd leaves the others and all histories alone, and takes fd to
      the given state. */
  ghost predicate OnlyConcerns(db: Db, db': Db, fd: Fd, st: ConnState) {
    && db'.hist == db.hist
    && db'.users - {fd} == db.users - {fd}
    && (fd in db'.users <==> st != Dead)
    && db'.userList == (if st != Dead then db.userList else Remove(db.userList, fd))
    && (fd in db'.users && fd in db.users ==> db'.users[fd].rx == db.users[fd].rx && StateOf(db'.users[fd]) == st)
  }

  lemma LogoutConcerns(db: Db, fd: Fd)
    requires DbInv(db) && fd in db.users
    ensures Linked(db, fd) && OnlyConcerns(db, Logout(db, fd), fd, Dead)
  {
    LogoutGone(db, fd);
  }

  lemma JoinConcerns(db: Db, fd: Fd, name: Bytes)
    requires Linked(db, fd) && db.users[fd].id.Some?
    ensures OnlyConcerns(db, JoinGroup(db, fd, name), fd, Grouped)
  {
    var u' := JoinGroup(db, fd, name).users[fd];
    assert db.users[fd := u'] - {fd} == db.users - {fd};
  }

  lemma LeaveConcerns(db: Db, fd: Fd)
    requires DbInv(db) && fd in db.users && db.users[fd].group.Some?
    ensures Linked(db, fd) && OnlyConcerns(db, LeaveGroup(db, fd), fd, Idle)
  {
    Found(db, fd);
    LeaveGroupLeft(db, fd);
    assert db.users[fd := db.users[fd].(group := None)] - {fd} == db.users - {fd};
  }

  lemma LoginConcerns(db: Db, links: Crosslinks, fd: Fd, data: Identity)
    requires DbInv(db) && fd in db.users && db.users[fd].id.None?
    ensures Linked(db, fd) && OnlyConcerns(db, LoginData(db, links, fd, data), fd, if ValidLogin(data) then Idle else Dead)
  {
    Found(db, fd);
    if ValidLogin(data) {
      var u' := LoginData(db, links, fd, data).users[fd];
      assert db.users[fd := u'] - {fd} == db.users - {fd};
    } else {
      LogoutConcerns(db, fd);
    }
  }

  /** Acting on a request moves the connection as the reference says, and no other. */
  lemma ActReacts(db: Db, links: Crosslinks, fd: Fd, r: Request)
    requires DbInv(db) && fd in db.users && (r.LoginRequest? <==> db.users[fd].id.None?)
    ensures Linked(db, fd) && OnlyConcerns(db, Act(db, links, fd, r), fd, React(StateOf(db.users[fd]), r))
  {
    Found(db, fd);
    match r
    case PingRequest =>
    case LoginRequest(data) => LoginConcerns(db, links, fd, data);
    case ConnectRequest(group) => ConnectReacts(db, fd, group);
    case DisconnectRequest => DisconnectReacts(db, fd);
    case ScanRequest => ScanReacts(db, fd);
    case ChatRequest(message) => ChatReacts(db, fd, message);
  }

  lemma ScanReacts(db: Db, fd: Fd)
    requires DbInv(db) && fd in db.users && db.users[fd].id.Some? && Linked(db, fd)
    ensures OnlyConcerns(db, Scan(db, fd), fd, React(StateOf(db.users[fd]), ScanRequest))
  {
    LogoutConcerns(db, fd);
  }

  lemma ChatReacts(db: Db, fd: Fd, message: Bytes)
    requires DbInv(db) && fd in db.users && db.users[fd].id.Some? && Linked(db, fd)
    ensures OnlyConcerns(db, Chat(db, fd, message), fd, React(StateOf(db.users[fd]), ChatRequest(message)))
  {
    LogoutConcerns(db, fd);
  }

  lemma ConnectReacts(db: Db, fd: Fd, group: Bytes)
    requires DbInv(db) && fd in db.users && db.users[fd].id.Some? && Linked(db, fd)
    ensures OnlyConcerns(db, Connect(db, fd, group), fd, React(StateOf(db.users[fd]), ConnectRequest(group)))
  {
    if !ValidGroupName(group) || db.users[fd].group.Some? {
      LogoutConcerns(db, fd);
    } else {
      JoinConcerns(db, fd, CString(group));
    }
  }

  lemma DisconnectReacts(db: Db, fd: Fd)
    requires DbInv(db) && fd in db.users && db.users[fd].id.Some? && Linked(db, fd)
    ensures OnlyConcerns(db, Disconnect(db, fd), fd, React(StateOf(db.users[fd]), DisconnectRequest))
  {
    if db.users[fd].group.Some? {
      LeaveConcerns(db, fd);
    } else {
      LogoutConcerns(db, fd);
    }
  }

  ghost predicate StreamOk(db: Db, fd: Fd)
    requires fd in db.hist
  {
    if fd in db.users then LiveStream(db.users[fd], db.hist[fd]) else ClosedStream(db.hist[fd])
  }

  /** Streams of the connections an operation does not concern. */
  lemma OthersKeepStreams(db: Db, db': Db, fd: Fd, f: Fd)
    requires f in db.hist && f in db'.hist && f != fd && StreamOk(db, f)
    requires db'.users - {fd} == db.users - {fd} && db'.hist[f] == db.hist[f]
    ensures StreamOk(db', f)
  {
    assert f in db'.users <==> f in db'.users - {fd};
    assert f in db.users <==> f in db.users - {fd};
    assert f in db.users ==> (db'.users - {fd})[f] == (db.users - {fd})[f];
  }

  /** What a turn may change: the stream of connection fd and nothing of the others. */
  ghost predicate TurnKept(db: Db, db': Db, fd: Fd) {
    && fd in db.hist && fd in db'.hist && StreamOk(db', fd)
    && db'.hist == db.hist[fd := db'.hist[fd]] && db'.users - {fd} == db.users - {fd}
  }

  /** The history after one more packet is on its path to the state the packet leads to. */
  lemma PacketOnPath(u: User, h: History, size: nat)
    requires OnPath(u, h) && u.rx != []
    requires FrontPacket(u.id.Some?, u.rx).Complete? && size == FrontPacket(u.id.Some?, u.rx).size
    ensures 0 < size <= |u.rx|
    ensures var handled' := h.handled + [u.rx[..size]];
      && Path(Waiting, handled') && After(Waiting, handled') == React(StateOf(u), FrontPacket(u.id.Some?, u.rx).request)
      && h.received == Joined(handled') + u.rx[size..]
  {
    CutPacket(StateOf(u), u.rx);
    var front, rest := u.rx[..size], u.rx[size..];
    PathGrows(Waiting, h.handled, front);
    JoinedGrows(h.handled, front);
    CutInTwo(u.rx, size);
    Regroup(Joined(h.handled), front, rest);
  }

  lemma CutInTwo<T>(s: seq<T>, n: nat)
    requires n <= |s|
    ensures s == s[..n] + s[n..]
  {
  }

  /** A connection that an operation moved to the state its history leads to. */
  lemma MovedStream(db: Db, db': Db, fd: Fd, st: ConnState)
    requires OnlyConcerns(db, db', fd, st) && fd in db.users && fd in db.hist
    requires |db.users[fd].rx| < RX_SIZE
    requires Path(Waiting, db.hist[fd].handled) && After(Waiting, db.hist[fd].handled) == st
    requires db.hist[fd].received == Joined(db.hist[fd].handled) + db.users[fd].rx
    ensures StreamOk(db', fd)
  {
  }

  /** The connection between taking a packet out of the buffer and acting on it. */
  lemma ConsumedStream(db: Db, fd: Fd, size: nat)
    requires fd in db.users && fd in db.hist && size <= |db.users[fd].rx|
    ensures var db1, u, h := Consumed(db, fd, size), db.users[fd], db.hist[fd];
      && fd in db1.users && db1.users[fd] == u.(rx := u.rx[size..]) && db1.users - {fd} == db.users - {fd}
      && fd in db1.hist && db1.hist[fd] == h.(handled := h.handled + [u.rx[..size]]) && db1.hist == db.hist[fd := db1.hist[fd]]
  {
  }

  lemma RequestFitsState(u: User, request: Request, size: nat)
    requires u.rx != [] && FrontPacket(u.id.Some?, u.rx) == Complete(request, size)
    ensures request.LoginRequest? <==> u.id.None?
  {
  }

  lemma PacketStream(db: Db, db1: Db, links: Crosslinks, fd: Fd, request: Request, size: nat)
    requires DbInv(db1) && fd in db.users && fd in db.hist
    requires OnPath(db.users[fd], db.hist[fd]) && 0 < |db.users[fd].rx| <= RX_SIZE
    requires FrontPacket(db.users[fd].id.Some?, db.users[fd].rx) == Complete(request, size) && 0 < size <= |db.users[fd].rx|
    requires db1 == Consumed(db, fd, size) && fd in db1.users && Linked(db1, fd) && db1.users[fd].id == db.users[fd].id
    requires request.LoginRequest? <==> db.users[fd].id.None?
    ensures TurnKept(db, Act(db1, links, fd, request), fd)
  {
    var u, h := db.users[fd], db.hist[fd];
    PacketOnPath(u, h, size);
    ConsumedStream(db, fd, size);
    ActReacts(db1, links, fd, request);
    MovedStream(db1, Act(db1, links, fd, request), fd, React(StateOf(u), request));
  }

  /** Acting on the front of the buffer keeps the stream on its path. */
  lemma HandleFrontStream(db: Db, links: Crosslinks, fd: Fd)
    requires DbInv(db) && fd in db.users && fd in db.hist && Linked(db, fd)
    requires OnPath(db.users[fd], db.hist[fd]) && |db.users[fd].rx| <= RX_SIZE
    ensures TurnKept(db, HandleFront(db, links, fd), fd)
  {
    var u := db.users[fd];
    if u.rx != [] {
      match FrontPacket(u.id.Some?, u.rx)
      case Incomplete =>
      case BadOpcode => LogoutConcerns(db, fd);
      case Complete(request, size) => FrontPacketStream(db, links, fd, request, size);
    }
  }

  lemma FrontPacketStream(db: Db, links: Crosslinks, fd: Fd, request: Request, size: nat)
    requires DbInv(db) && fd in db.users && fd in db.hist && 0 < |db.users[fd].rx| <= RX_SIZE
    requires OnPath(db.users[fd], db.hist[fd])
    requires FrontPacket(db.users[fd].id.Some?, db.users[fd].rx) == Complete(request, size)
    ensures request.LoginRequest? <==> db.users[fd].id.None?
    ensures size <= |db.users[fd].rx| && Linked(Consumed(db, fd, size), fd)
    ensures TurnKept(db, Act(Consumed(db, fd, size), links, fd, request), fd)
  {
    var u := db.users[fd];
    CutPacket(StateOf(u), u.rx);
    RequestFitsState(u, request, size);
    ConsumedKeeps(db, fd, size);
    Found(Consumed(db, fd, size), fd);
    PacketStream(db, Consumed(db, fd, size), links, fd, request, size);
  }

  lemma ReceivedStream(db: Db, fd: Fd, bytes: Bytes, now: nat)
    requires fd in db.users && fd in db.hist && LiveStream(db.users[fd], db.hist[fd])
    requires |bytes| <= RX_SIZE - |db.users[fd].rx|
    ensures var db' := Received(db, fd, bytes, now);
      && fd in db'.users && fd in db'.hist && OnPath(db'.users[fd], db'.hist[fd]) && |db'.users[fd].rx| <= RX_SIZE
      && db'.hist == db.hist[fd := db'.hist[fd]] && db'.users - {fd} == db.users - {fd}
  {
    var h, rx := db.hist[fd], db.users[fd].rx;
    assert Joined(h.handled) + rx + bytes == Joined(h.handled) + (rx + bytes);
    if bytes == [] { assert db.hist == db.hist[fd := h]; }
  }

  lemma TurnStream(db: Db, links: Crosslinks, fd: Fd, r: RecvResult, now: nat)
    requires DbInv(db) && Linked(db, fd) && fd in db.hist && Possible(db.users[fd], r) && StreamOk(db, fd)
    ensures TurnKept(db, Turn(db, links, fd, r, now), fd)
  {
    if r == Closed || r == Failed || now - db.users[fd].lastRecv >= SERVER_USER_TIMEOUT {
      LogoutConcerns(db, fd);
    } else {
      var bytes := if r.Data? then r.bytes else [];
      ReceivedStream(db, fd, bytes, now);
      ReceivedKeeps(db, fd, bytes, now);
      var db1 := Received(db, fd, bytes, now);
      Found(db1, fd);
      HandleFrontStream(db1, links, fd);
      KeptThrough(db, db1, HandleFront(db1, links, fd), fd);
    }
  }

  lemma KeptThrough(db: Db, db1: Db, db2: Db, fd: Fd)
    requires fd in db.hist && fd in db1.hist && db1.hist == db.hist[fd := db1.hist[fd]]
    requires db1.users - {fd} == db.users - {fd} && TurnKept(db1, db2, fd)
    ensures TurnKept(db, db2, fd)
  {
  }

  lemma StepStreams(db: Db, links: Crosslinks, e: Event)
    requires DbInv(db) && StreamInv(db)
    ensures StreamInv(Step(db, links, e))
  {
    match e
    case Accepted(fd, ip, port, now) =>
      if fd !in db.hist && LoginStream(db, fd, ip, port, now).Some? {
        AcceptStreams(db, fd, ip, port, now);
      }
    case Turned(fd, r, now) =>
      if Linked(db, fd) && fd in db.hist && Possible(db.users[fd], r) {
        TurnStreams(db, links, fd, r, now);
      }
  }

  lemma AcceptStreams(db: Db, fd: Fd, ip: nat, port: nat, now: nat)
    requires StreamInv(db) && fd !in db.hist && LoginStream(db, fd, ip, port, now).Some?
    ensures StreamInv(LoginStream(db, fd, ip, port, now).value)
  {
    var db' := LoginStream(db, fd, ip, port, now).value;
    forall f | f in db'.hist ensures StreamOk(db', f) {
      assert f != fd ==> StreamOk(db, f);
    }
  }

  lemma TurnStreams(db: Db, links: Crosslinks, fd: Fd, r: RecvResult, now: nat)
    requires DbInv(db) && StreamInv(db) && Linked(db, fd) && fd in db.hist && Possible(db.users[fd], r)
    ensures StreamInv(Turn(db, links, fd, r, now))
  {
    assert StreamOk(db, fd);
    TurnStream(db, links, fd, r, now);
    var db' := Turn(db, links, fd, r, now);
    forall f | f in db'.hist ensures StreamOk(db', f) {
      if f != fd {
        assert StreamOk(db, f);
        OthersKeepStreams(db, db', fd, f);
      }
    }
  }

  lemma {:induction false} RunStreams(links: Crosslinks, events: seq<Event>)
    ensures StreamInv(Run(links, events))
  {
    if events != [] {
      RunStreams(links, events[..|events| - 1]);
      RunConsistent(links, events[..|events| - 1]);
      StepStreams(Run(links, events[..|events| - 1]), links, events[|events| - 1]);
    }
  }

  // ----- main results -----

  /** A live connection: the packets acted on, followed by the buffer, are the bytes received;
      together with the packets still in the buffer they are the packets of the byte stream;
      and there is room for the next `recv`. */
  lemma LiveFraming(links: Crosslinks, events: seq<Event>, fd: Fd)
    requires fd in Run(links, events).users
    ensures var db := Run(links, events);
      && fd in db.hist
      && var u, h := db.users[fd], db.hist[fd];
      && h.received == Joined(h.handled) + u.rx
      && Frames(Waiting, h.received) == h.handled + Frames(StateOf(u), u.rx)
      && |u.rx| < RX_SIZE
  {
    RunStreams(links, events);
    RunConsistent(links, events);
    var db := Run(links, events);
    assert StreamOk(db, fd);
    FramesOfPath(Waiting, db.hist[fd].handled, db.users[fd].rx);
  }

  /** A closed connection: what was acted on is a beginning of the packets of its stream. */
  lemma ClosedFraming(links: Crosslinks, events: seq<Event>, fd: Fd)
    requires fd in Run(links, events).hist && fd !in Run(links, events).users
    ensures var h := Run(links, events).hist[fd]; h.handled <= Frames(Waiting, h.received)
  {
    RunStreams(links, events);
    var db := Run(links, events);
    assert StreamOk(db, fd);
    var h := db.hist[fd];
    var more := h.received[|Joined(h.handled)|..];
    assert h.received == Joined(h.handled) + more;
    FramesOfPath(Waiting, h.handled, more);
  }

  /** No complete packet is waiting in the buffer. */
  ghost predicate Drained(u: User) {
    Frames(StateOf(u), u.rx) == []
  }

  lemma DrainedFraming(links: Crosslinks, events: seq<Event>, fd: Fd)
    requires fd in Run(links, events).users && Drained(Run(links, events).users[fd])
    ensures fd in Run(links, events).hist
    ensures Run(links, events).hist[fd].handled == Frames(Waiting, Run(links, events).hist[fd].received)
  {
    LiveFraming(links, events, fd);
    var h := Run(links, events).hist[fd];
    assert h.handled + [] == h.handled;
  }

  // ----- connections the server closes for what they sent -----

  /** The connection ends for another reason than its packets: a time-out, a close by the client
      or a failing receive. */
  ghost predicate CutOff(db: Db, e: Event, fd: Fd) {
    && e.Turned? && e.fd == fd && fd in db.users && Possible(db.users[fd], e.r)
    && (e.r == Closed || e.r == Failed || e.now - db.users[fd].lastRecv >= SERVER_USER_TIMEOUT)
  }

  ghost predicate EverCutOff(links: Crosslinks, events: seq<Event>, fd: Fd) {
    exists i :: 0 <= i < |events| && CutOff(Run(links, events[..i]), events[i], fd)
  }

  /** Every packet of the stream was acted on, and no later byte would make another one. */
  ghost predicate Finished(h: History) {
    forall more: Bytes :: Frames(Waiting, h.received + more) == h.handled
  }

  lemma BadOpcodeFinishes(u: User, h: History)
    requires OnPath(u, h) && u.rx != [] && FrontPacket(u.id.Some?, u.rx).BadOpcode?
    ensures Finished(h)
  {
    forall more: Bytes ensures Frames(Waiting, h.received + more) == h.handled {
      FramesOfPath(Waiting, h.handled, u.rx + more);
      Regroup(Joined(h.handled), u.rx, more);
      assert (u.rx + more)[0] == u.rx[0];
      assert Frames(StateOf(u), u.rx + more) == [];
      assert h.handled + [] == h.handled;
    }
  }

  lemma DeadFinishes(h: History, rest: Bytes)
    requires Path(Waiting, h.handled) && After(Waiting, h.handled) == Dead
    requires h.received == Joined(h.handled) + rest
    ensures Finished(h)
  {
    forall more: Bytes ensures Frames(Waiting, h.received + more) == h.handled {
      FramesOfPath(Waiting, h.handled, rest + more);
      Regroup(Joined(h.handled), rest, more);
      assert h.handled + [] == h.handled;
    }
  }

  lemma PacketFinishes(db: Db, links: Crosslinks, fd: Fd, request: Request, size: nat)
    requires DbInv(db) && fd in db.users && fd in db.hist && OnPath(db.users[fd], db.hist[fd])
    requires db.users[fd].rx != [] && FrontPacket(db.users[fd].id.Some?, db.users[fd].rx) == Complete(request, size)
    ensures size <= |db.users[fd].rx| && Linked(Consumed(db, fd, size), fd)
    ensures request.LoginRequest? <==> db.users[fd].id.None?
    ensures var db' := Act(Consumed(db, fd, size), links, fd, request);
      fd in db'.hist && (fd !in db'.users ==> Finished(db'.hist[fd]))
  {
    var u, h := db.users[fd], db.hist[fd];
    CutPacket(StateOf(u), u.rx);
    RequestFitsState(u, request, size);
    ConsumedKeeps(db, fd, size);
    ConsumedStream(db, fd, size);
    PacketOnPath(u, h, size);
    var db1 := Consumed(db, fd, size);
    Found(db1, fd);
    ActReacts(db1, links, fd, request);
    if React(StateOf(u), request) == Dead {
      DeadFinishes(db1.hist[fd], u.rx[size..]);
    }
  }

  lemma HandleFrontFinishes(db: Db, links: Crosslinks, fd: Fd)
    requires DbInv(db) && fd in db.users && fd in db.hist && Linked(db, fd) && OnPath(db.users[fd], db.hist[fd])
    ensures var db' := HandleFront(db, links, fd);
      fd in db'.hist && (fd !in db'.users ==> Finished(db'.hist[fd]))
  {
    var u := db.users[fd];
    if u.rx != [] {
      match FrontPacket(u.id.Some?, u.rx)
      case Incomplete =>
      case BadOpcode =>
        LogoutConcerns(db, fd);
        BadOpcodeFinishes(u, db.hist[fd]);
      case Complete(request, size) => PacketFinishes(db, links, fd, request, size);
    }
  }

  lemma TurnFinishes(db: Db, links: Crosslinks, fd: Fd, r: RecvResult, now: nat)
    requires DbInv(db) && StreamInv(db) && Linked(db, fd) && fd in db.hist && Possible(db.users[fd], r)
    requires !CutOff(db, Turned(fd, r, now), fd)
    ensures var db' := Turn(db, links, fd, r, now);
      fd in db'.hist && (fd !in db'.users ==> Finished(db'.hist[fd]))
  {
    assert StreamOk(db, fd);
    var bytes := if r.Data? then r.bytes else [];
    ReceivedStream(db, fd, bytes, now);
    ReceivedKeeps(db, fd, bytes, now);
    Found(Received(db, fd, bytes, now), fd);
    HandleFrontFinishes(Received(db, fd, bytes, now), links, fd);
  }

  /** A step of another connection, or of a new one, leaves a connection as it is. */
  lemma StepLeavesOther(db: Db, links: Crosslinks, e: Event, fd: Fd)
    requires DbInv(db) && StreamInv(db) && fd in db.hist
    requires e.Turned? && e.fd == fd ==> fd !in db.users
    ensures var db' := Step(db, links, e);
      && fd in db'.hist && db'.hist[fd] == db.hist[fd] && (fd in db'.users <==> fd in db.users)
  {
    if e.Turned? && Linked(db, e.fd) && e.fd in db.hist && Possible(db.users[e.fd], e.r) {
      assert StreamOk(db, e.fd);
      TurnStream(db, links, e.fd, e.r, e.now);
      if fd != e.fd { KeptOutside(db, Turn(db, links, e.fd, e.r, e.now), e.fd, fd); }
    }
  }

  lemma KeptOutside(db: Db, db': Db, fd: Fd, other: Fd)
    requires TurnKept(db, db', fd) && other != fd && other in db.hist
    ensures other in db'.hist && db'.hist[other] == db.hist[other] && (other in db'.users <==> other in db.users)
  {
    assert other in db'.users - {fd} <==> other in db.users - {fd};
  }

  lemma NewIsLive(db: Db, links: Crosslinks, e: Event, fd: Fd)
    requires DbInv(db) && StreamInv(db) && fd !in db.hist && fd in Step(db, links, e).hist
    ensures fd in Step(db, links, e).users
  {
    if e.Turned? && Linked(db, e.fd) && e.fd in db.hist && Possible(db.users[e.fd], e.r) {
      assert StreamOk(db, e.fd);
      TurnStream(db, links, e.fd, e.r, e.now);
    }
  }

  /** A connection the server closed for its packets alone: exactly the packets of its stream
      were acted on, whatever else the client sends. */
  lemma {:induction false} ServerClosedFraming(links: Crosslinks, events: seq<Event>, fd: Fd)
    requires fd in Run(links, events).hist && fd !in Run(links, events).users && !EverCutOff(links, events, fd)
    ensures Finished(Run(links, events).hist[fd])
    decreases |events|
  {
    var last := |events| - 1;
    var before := events[..last];
    var db := Run(links, before);
    RunStreams(links, before);
    RunConsistent(links, before);
    assert !CutOff(Run(links, events[..last]), events[last], fd);
    if fd !in db.hist {
      NewIsLive(db, links, events[last], fd);
    } else if fd !in db.users {
      StepLeavesOther(db, links, events[last], fd);
      EarlierCuts(links, events, fd);
      ServerClosedFraming(links, before, fd);
    } else {
      OwnTurn(db, links, events[last], fd);
    }
  }

  lemma EarlierCuts(links: Crosslinks, events: seq<Event>, fd: Fd)
    requires events != [] && !EverCutOff(links, events, fd)
    ensures !EverCutOff(links, events[..|events| - 1], fd)
  {
    var last := |events| - 1;
    var before := events[..last];
    forall i | 0 <= i < last ensures !CutOff(Run(links, before[..i]), before[i], fd) {
      assert before[..i] == events[..i] && before[i] == events[i];
    }
  }

  /** Only its own turn takes a connection out. */
  lemma OwnTurn(db: Db, links: Crosslinks, e: Event, fd: Fd)
    requires DbInv(db) && StreamInv(db) && fd in db.hist && fd in db.users && !CutOff(db, e, fd)
    ensures var db' := Step(db, links, e);
      fd in db'.hist && (fd !in db'.users ==> Finished(db'.hist[fd]))
  {
    if e.Turned? && e.fd == fd {
      if Linked(db, fd) && Possible(db.users[fd], e.r) {
        TurnFinishes(db, links, fd, e.r, e.now);
      }
    } else {
      StepLeavesOther(db, links, e, fd);
    }
  }

  /** The server is through with a byte stream: it has received all of it and no complete packet
      is left, or it has closed the connection for the packets it has received of it. */
  ghost predicate Settled(links: Crosslinks, events: seq<Event>, fd: Fd, sent: Bytes) {
    var db := Run(links, events);
    && fd in db.hist && db.hist[fd].received <= sent
    && if fd in db.users then db.hist[fd].received == sent && Drained(db.users[fd])
       else !EverCutOff(links, events, fd)
  }

  lemma SettledFraming(links: Crosslinks, events: seq<Event>, fd: Fd, sent: Bytes)
    requires Settled(links, events, fd, sent)
    ensures Run(links, events).hist[fd].handled == Frames(Waiting, sent)
  {
    var db := Run(links, events);
    if fd in db.users {
      DrainedFraming(links, events, fd);
    } else {
      ServerClosedFraming(links, events, fd);
      var received := db.hist[fd].received;
      assert sent == received + sent[|received|..];
    }
  }

  /** Two servers, however they cut a stream and whatever else they serve, act on the same
      packets of it, whether they keep the connection or close it for its packets. */
  lemma FramingIndependence(links: Crosslinks, a: seq<Event>, b: seq<Event>, fd: Fd, gd: Fd, sent: Bytes)
    requires Settled(links, a, fd, sent) && Settled(links, b, gd, sent)
    ensures Run(links, a).hist[fd].handled == Run(links, b).hist[gd].handled
  {
    SettledFraming(links, a, fd, sent);
    SettledFraming(links, b, gd, sent);
  }
}
