/** The packets of clients as packets.h lays them out, and what the server does on each. */
module ServerWire {
  import opened ServerSpec
  import opened ServerInvariant
  import opened ServerFraming

  // --- The layout ---

  function Zeros(n: nat): Bytes { seq(n, _ => 0) }

  /** Fields of the lengths packets.h gives them; a message is sent with a terminator. */
  predicate Encodable(r: Request) {
    match r
    case LoginRequest(data) => |data.mac| == 6 && |data.name| == 128 && |data.game| == 9
    case ConnectRequest(group) => |group| == 8
    case ChatRequest(message) => |message| < 64 && forall i :: 0 <= i < |message| ==> message[i] != 0
    case _ => true
  }

  function Wire(r: Request): Bytes
    requires Encodable(r)
  {
    match r
    case PingRequest => [0]
    case LoginRequest(data) => [1] + data.mac + data.name + data.game
    case ConnectRequest(group) => [2] + group
    case DisconnectRequest => [3]
    case ScanRequest => [4]
    case ChatRequest(message) => [7] + message + Zeros(64 - |message|)
  }

  lemma WireLength(r: Request)
    requires Encodable(r)
    ensures |Wire(r)| == match r case LoginRequest(_) => 144 case ConnectRequest(_) => 9 case ChatRequest(_) => 65 case _ => 1
  {
  }

  /** A whole packet is read as what it says, whatever follows it. */
  lemma WireRead(r: Request, more: Bytes)
    requires Encodable(r)
    ensures FrontPacket(!r.LoginRequest?, Wire(r) + more) == Complete(r, |Wire(r)|)
  {
    WireLength(r);
    var rx := Wire(r) + more;
    match r
    case LoginRequest(data) =>
      assert rx[1..7] == data.mac && rx[7..135] == data.name && rx[135..144] == data.game;
    case ConnectRequest(group) =>
      assert rx[1..9] == group;
    case ChatRequest(message) =>
      assert rx[1..64] == message + Zeros(63 - |message|);
      TextBefore(message, 63 - |message|);
    case _ =>
  }

  lemma {:induction false} TextBefore(message: Bytes, n: nat)
    requires forall i :: 0 <= i < |message| ==> message[i] != 0
    ensures CString(message + Zeros(n)) == message
  {
    if message == [] {
      assert message + Zeros(n) == Zeros(n);
    } else {
      assert (message + Zeros(n))[1..] == message[1..] + Zeros(n);
      TextBefore(message[1..], n);
    }
  }

  /** A packet that has not arrived as a whole is waited for. */
  lemma WireIncomplete(r: Request, n: nat)
    requires Encodable(r) && 0 < n < |Wire(r)|
    ensures FrontPacket(!r.LoginRequest?, Wire(r)[..n]) == Incomplete
  {
    WireLength(r);
    assert Wire(r)[..n][0] == Wire(r)[0];
  }

  /** No other first byte is accepted. */
  lemma OtherBytes(loggedIn: bool, rx: Bytes)
    requires rx != []
    ensures FrontPacket(loggedIn, rx).BadOpcode? <==> rx[0] !in (if loggedIn then {0, 2, 3, 4, 7} else {1})
  {
  }

  /** Nothing but these layouts is read as a packet; of a chat packet the message up to its
      terminator counts. */
  lemma OnlyWire(loggedIn: bool, rx: Bytes)
    requires rx != [] && FrontPacket(loggedIn, rx).Complete?
    ensures var r, size := FrontPacket(loggedIn, rx).request, FrontPacket(loggedIn, rx).size;
      && r.LoginRequest? == !loggedIn && size <= |rx|
      && if r.ChatRequest? then
           && size == 65 && rx[0] == 7 && |r.message| < 64 && rx[1..1 + |r.message|] == r.message
           && (forall i :: 0 <= i < |r.message| ==> r.message[i] != 0)
           && (|r.message| < 63 ==> rx[1 + |r.message|] == 0)
         else Encodable(r) && rx[..size] == Wire(r)
  {
    var r := FrontPacket(loggedIn, rx).request;
    match r
    case LoginRequest(data) => assert rx[..144] == [1] + rx[1..7] + rx[7..135] + rx[135..144];
    case ConnectRequest(group) => assert rx[..9] == [2] + rx[1..9];
    case ChatRequest(message) => TextIsBeginning(rx[1..64]);
    case _ =>
  }

  lemma {:induction false} TextIsBeginning(s: Bytes)
    ensures var t := CString(s);
      && |t| <= |s| && s[..|t|] == t && (forall i :: 0 <= i < |t| ==> t[i] != 0) && (|t| < |s| ==> s[|t|] == 0)
  {
    if s != [] && s[0] != 0 {
      TextIsBeginning(s[1..]);
      var t := CString(s[1..]);
      assert s[..|t| + 1] == [s[0]] + s[1..][..|t|];
      assert s[|t| + 1..] == s[1..][|t|..];
    }
  }

  // --- A turn ---

  function Incoming(r: RecvResult): Bytes {
    if r.Data? then r.bytes else []
  }

  /** A connection whose turn finds this request at the front of its buffer. */
  ghost predicate Arrived(db: Db, fd: Fd, r: RecvResult, now: nat, request: Request, more: Bytes) {
    && fd in db.users && (r.WouldBlock? || r.Data?) && now < db.users[fd].lastRecv + 15
    && (request.LoginRequest? <==> db.users[fd].id.None?)
    && Encodable(request) && db.users[fd].rx + Incoming(r) == Wire(request) + more
  }

  /** The database once the packet is taken out of the buffer. */
  ghost function Taken(db: Db, fd: Fd, r: RecvResult, now: nat, request: Request): Db
    requires fd in db.users && fd in db.hist && Encodable(request) && |Wire(request)| <= |db.users[fd].rx + Incoming(r)|
  {
    Consumed(Received(db, fd, Incoming(r), now), fd, |Wire(request)|)
  }

  /** A turn takes the packet out of the buffer and acts on the request. */
  lemma TurnActs(db: Db, links: Crosslinks, fd: Fd, r: RecvResult, now: nat, request: Request, more: Bytes)
    requires Consistent(db) && Arrived(db, fd, r, now, request, more)
    ensures fd in db.hist && Linked(db, fd)
    ensures var db1 := Taken(db, fd, r, now, request);
      && Consistent(db1) && Linked(db1, fd) && TakenOut(db, db1, fd, r, now, more)
      && Turn(db, links, fd, r, now) == Act(db1, links, fd, request)
  {
    TakenKeeps(db, fd, r, now, request, more);
    TakenIsOut(db, fd, r, now, request, more);
    TurnIsAct(db, links, fd, r, now, request, more);
  }

  lemma TakenKeeps(db: Db, fd: Fd, r: RecvResult, now: nat, request: Request, more: Bytes)
    requires Consistent(db) && Arrived(db, fd, r, now, request, more)
    ensures fd in db.hist && Linked(db, fd)
    ensures var db1 := Taken(db, fd, r, now, request); Consistent(db1) && Linked(db1, fd)
  {
    Found(db, fd);
    ReceivedKeeps(db, fd, Incoming(r), now);
    var received := Received(db, fd, Incoming(r), now);
    ConsumedKeeps(received, fd, |Wire(request)|);
    Found(Consumed(received, fd, |Wire(request)|), fd);
  }

  lemma TakenIsOut(db: Db, fd: Fd, r: RecvResult, now: nat, request: Request, more: Bytes)
    requires fd in db.hist && Arrived(db, fd, r, now, request, more)
    ensures TakenOut(db, Taken(db, fd, r, now, request), fd, r, now, more)
  {
    assert (Wire(request) + more)[|Wire(request)|..] == more;
  }

  lemma TurnIsAct(db: Db, links: Crosslinks, fd: Fd, r: RecvResult, now: nat, request: Request, more: Bytes)
    requires fd in db.hist && Linked(db, fd) && Arrived(db, fd, r, now, request, more)
    requires Linked(Taken(db, fd, r, now, request), fd)
    ensures Turn(db, links, fd, r, now) == Act(Taken(db, fd, r, now, request), links, fd, request)
  {
    WireRead(request, more);
    WireLength(request);
    FrontServed(Received(db, fd, Incoming(r), now), links, fd, request, more);
  }

  lemma FrontServed(db: Db, links: Crosslinks, fd: Fd, request: Request, more: Bytes)
    requires Linked(db, fd) && fd in db.hist && Encodable(request) && db.users[fd].rx == Wire(request) + more
    requires (request.LoginRequest? <==> db.users[fd].id.None?) && Wire(request) != []
    requires FrontPacket(!request.LoginRequest?, Wire(request) + more) == Complete(request, |Wire(request)|)
    ensures var db1 := Consumed(db, fd, |Wire(request)|);
      Linked(db1, fd) && HandleFront(db, links, fd) == Act(db1, links, fd, request)
  {
  }

  /** Only the buffer and the clock of the user have changed. */
  ghost predicate TakenOut(db: Db, db1: Db, fd: Fd, r: RecvResult, now: nat, more: Bytes) {
    && fd in db.users && fd in db1.users
    && db1.users[fd] == db.users[fd].(rx := more, lastRecv := if Incoming(r) == [] then db.users[fd].lastRecv else now)
    && db1 == db.(users := db.users[fd := db1.users[fd]], hist := db1.hist)
  }

  /** The other users are as they were. */
  ghost predicate OthersSame(db: Db, db': Db, fd: Fd) {
    db'.users - {fd} == db.users - {fd}
  }

  /** Letters and digits up to the terminator. */
  ghost predicate Alphanumeric(name: Bytes) {
    forall i :: 0 <= i < |name| && (forall j :: 0 <= j <= i ==> name[j] != 0) ==>
      var b := name[i];
      0x30 <= b <= 0x39 || 0x41 <= b <= 0x5A || 0x61 <= b <= 0x7A
  }

  /** Capital letters and digits only, a name, and a MAC that is neither all ones nor all zeros. */
  ghost predicate Credible(data: Identity) {
    && (forall i :: 0 <= i < |data.game| ==> 0x30 <= data.game[i] <= 0x39 || 0x41 <= data.game[i] <= 0x5A)
    && data.name != [] && data.name[0] != 0
    && (exists i :: 0 <= i < |data.mac| && data.mac[i] != 0xFF) && (exists i :: 0 <= i < |data.mac| && data.mac[i] != 0)
  }

  /** The requests the server answers with a logout. */
  ghost predicate Offends(u: User, request: Request) {
    match request
    case PingRequest => false
    case LoginRequest(data) => !Credible(data)
    case ConnectRequest(group) => u.group.Some? || !Alphanumeric(group)
    case DisconnectRequest => u.group.None?
    case ScanRequest => u.group.Some?
    case ChatRequest(_) => u.group.None?
  }

  lemma CredibleIsValid(data: Identity)
    requires |data.mac| == 6
    ensures Credible(data) <==> ValidLogin(data)
  {
    assert data.mac == Repeated(0xFF, 6) <==> forall i :: 0 <= i < 6 ==> data.mac[i] == 0xFF;
    assert data.mac == Repeated(0, 6) <==> forall i :: 0 <= i < 6 ==> data.mac[i] == 0;
  }

  lemma AlphanumericIsValid(name: Bytes)
    ensures Alphanumeric(name) <==> ValidGroupName(name)
  {
    TextIsBeginning(name);
    var t := CString(name);
    assert forall i :: 0 <= i < |t| ==> t[i] == name[i];
  }

  /** A turn on a request logs the user out exactly if the request offends; the others stay as
      they are. */
  lemma TurnEnds(db: Db, links: Crosslinks, fd: Fd, r: RecvResult, now: nat, request: Request, more: Bytes)
    requires Consistent(db) && Arrived(db, fd, r, now, request, more)
    ensures fd in db.hist && Linked(db, fd)
    ensures var db' := Turn(db, links, fd, r, now);
      (fd !in db'.users <==> Offends(db.users[fd], request)) && OthersSame(db, db', fd)
  {
    TurnActs(db, links, fd, r, now, request, more);
    var db1 := Taken(db, fd, r, now, request);
    ActEnds(db1, links, fd, request);
    assert db1.users - {fd} == db.users - {fd};
  }

  lemma ActEnds(db: Db, links: Crosslinks, fd: Fd, request: Request)
    requires Consistent(db) && Linked(db, fd) && Encodable(request) && (request.LoginRequest? <==> db.users[fd].id.None?)
    ensures var db' := Act(db, links, fd, request);
      (fd !in db'.users <==> Offends(db.users[fd], request)) && OthersSame(db, db', fd)
  {
    ActReacts(db, links, fd, request);
    OffendsDies(db.users[fd], request);
  }

  lemma OffendsDies(u: User, request: Request)
    requires Encodable(request) && (request.LoginRequest? <==> u.id.None?) && (u.group.Some? ==> u.id.Some?)
    ensures Offends(u, request) <==> React(StateOf(u), request) == Dead
  {
    match request
    case LoginRequest(data) => CredibleIsValid(data);
    case ConnectRequest(group) => AlphanumericIsValid(group);
    case _ =>
  }

  /** So does a first byte that no packet of the user's state has, a close, an error, and silence for
      fifteen seconds. */
  lemma TurnDrops(db: Db, links: Crosslinks, fd: Fd, r: RecvResult, now: nat)
    requires Consistent(db) && fd in db.users
    requires r.Closed? || r.Failed? || now >= db.users[fd].lastRecv + 15 || Misfit(db.users[fd], db.users[fd].rx + Incoming(r))
    ensures fd in db.hist && Linked(db, fd)
    ensures var db' := Turn(db, links, fd, r, now); fd !in db'.users && OthersSame(db, db', fd)
  {
    Found(db, fd);
    if r.Closed? || r.Failed? || now >= db.users[fd].lastRecv + 15 {
      LogoutConcerns(db, fd);
    } else {
      ReceivedKeeps(db, fd, Incoming(r), now);
      var db1 := Received(db, fd, Incoming(r), now);
      assert db1.users - {fd} == db.users - {fd};
      MisfitDropped(db1, links, fd);
    }
  }

  ghost predicate Misfit(u: User, rx: Bytes) {
    rx != [] && rx[0] !in (if u.id.Some? then {0, 2, 3, 4, 7} else {1})
  }

  lemma MisfitDropped(db: Db, links: Crosslinks, fd: Fd)
    requires Consistent(db) && fd in db.users && Misfit(db.users[fd], db.users[fd].rx)
    ensures fd in db.hist && Linked(db, fd)
    ensures var db' := HandleFront(db, links, fd); fd !in db'.users && OthersSame(db, db', fd)
  {
    OtherBytes(db.users[fd].id.Some?, db.users[fd].rx);
    LogoutConcerns(db, fd);
  }
}
