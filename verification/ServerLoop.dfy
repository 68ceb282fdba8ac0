/** The server loop of main.c: the receive buffer of each connection as an array, and the walk
    that gives every connection a turn while turns take users off the list. */
module ServerLoop {
  import opened Sequences
  import opened ServerSpec
  import opened ServerInvariant
  import opened ServerFraming
  import opened LinkedLists
  import opened ServerDatabase

  /** The receive buffer of a connection, `rx` and `rxpos` of its user node. */
  class RxBuffer {
    const rx: array<nat>
    var rxpos: nat

    constructor ()
      ensures Valid() && Contents() == [] && fresh(rx)
    {
      rx, rxpos := new nat[RX_SIZE](_ => 0), 0;
    }

    ghost predicate Valid()
      reads this
    {
      rx.Length == RX_SIZE && rxpos <= RX_SIZE
    }

    function Contents(): Bytes
      requires Valid()
      reads this, rx
    {
      rx[..rxpos]
    }

    /** What `recv` writes behind the bytes that are there. */
    method Receive(bytes: Bytes)
      requires Valid() && |bytes| <= RX_SIZE - rxpos
      modifies this`rxpos, rx
      ensures Valid() && Contents() == old(Contents()) + bytes
    {
      for i := 0 to |bytes|
        invariant rxpos == old(rxpos)
        invariant rx[..rxpos + i] == old(rx[..rxpos]) + bytes[..i]
      {
        rx[rxpos + i] := bytes[i];
      }
      rxpos := rxpos + |bytes|;
    }

    /** `clear_user_rxbuf`; a size of -1, or beyond the contents, clears everything. */
    method Clear(size: int)
      requires Valid() && -1 <= size
      modifies this`rxpos, rx
      ensures Valid()
      ensures Contents() == if size == -1 || size > old(rxpos) then [] else old(Contents())[size..]
    {
      var clear := if size == -1 || size > rxpos then rxpos else size;
      for i := 0 to RX_SIZE - clear
        invariant rxpos == old(rxpos)
        invariant forall j :: 0 <= j < i ==> rx[j] == old(rx[..])[clear + j]
        invariant forall j :: i <= j < RX_SIZE ==> rx[j] == old(rx[..])[j]
      {
        rx[i] := rx[i + clear];
      }
      rxpos := rxpos - clear;
    }
  }

  // --- A walk over all connections ---

  function StepAll(db: Db, links: Crosslinks, events: seq<Event>): Db
    decreases |events|
  {
    if events == [] then db else StepAll(Step(db, links, events[0]), links, events[1..])
  }

  /** One turn for each connection of a list. */
  function Turns(list: seq<Fd>, results: map<Fd, RecvResult>, now: nat): (s: seq<Event>)
    ensures |s| == |list|
  {
    seq(|list|, i requires 0 <= i < |list| => Turned(list[i], if list[i] in results then results[list[i]] else Failed, now))
  }

  /** Such a walk goes on a run. */
  lemma {:induction false} StepAllRuns(links: Crosslinks, events: seq<Event>, more: seq<Event>)
    ensures StepAll(Run(links, events), links, more) == Run(links, events + more)
    decreases |more|
  {
    if more == [] {
      assert events + [] == events;
    } else {
      var e, rest := more[0], more[1..];
      RunNext(links, events, e);
      StepAllRuns(links, events + [e], rest);
      Regroup(events, [e], rest);
      FirstAndRest(more);
    }
  }

  lemma FirstAndRest<T>(s: seq<T>)
    requires s != []
    ensures [s[0]] + s[1..] == s
  {
  }

  lemma RunNext(links: Crosslinks, events: seq<Event>, e: Event)
    ensures Run(links, events + [e]) == Step(Run(links, events), links, e)
  {
    assert (events + [e])[..|events|] == events;
  }

  lemma TurnsNext(db: Db, links: Crosslinks, list: seq<Fd>, i: nat, results: map<Fd, RecvResult>, now: nat)
    requires i < |list| && Linked(db, list[i]) && list[i] in db.hist
    requires list[i] in results && Possible(db.users[list[i]], results[list[i]])
    ensures StepAll(db, links, Turns(list[i..], results, now))
      == StepAll(Turn(db, links, list[i], results[list[i]], now), links, Turns(list[i + 1..], results, now))
  {
    assert Turns(list[i..], results, now)[1..] == Turns(list[i + 1..], results, now);
  }

  /** Every other user is as it was, on a list in the same order. */
  ghost predicate Spared(db: Db, db': Db, fd: Fd) {
    && db'.users - {fd} == db.users - {fd}
    && db'.userList == (if fd in db'.users then db.userList else Remove(db.userList, fd))
  }

  lemma PacketLeavesOthers(db: Db, links: Crosslinks, fd: Fd, request: Request, size: nat)
    requires DbInv(db) && fd in db.users && size <= |db.users[fd].rx| && (request.LoginRequest? <==> db.users[fd].id.None?)
    ensures fd in db.hist && Linked(Consumed(db, fd, size), fd)
    ensures var db' := Act(Consumed(db, fd, size), links, fd, request);
      Spared(db, db', fd) && (fd in db'.users ==> db'.users[fd].rx == db.users[fd].rx[size..])
  {
    ConsumedKeeps(db, fd, size);
    var db1 := Consumed(db, fd, size);
    assert db1.users - {fd} == db.users - {fd};
    ActReacts(db1, links, fd, request);
  }

  lemma HandleFrontLeavesOthers(db: Db, links: Crosslinks, fd: Fd)
    requires DbInv(db) && fd in db.users
    ensures Linked(db, fd) && fd in db.hist
    ensures Spared(db, HandleFront(db, links, fd), fd)
  {
    Found(db, fd);
    var u := db.users[fd];
    if u.rx != [] {
      match FrontPacket(u.id.Some?, u.rx)
      case Incomplete =>
      case BadOpcode => LogoutConcerns(db, fd);
      case Complete(request, size) => PacketLeavesOthers(db, links, fd, request, size);
    }
  }

  /** A turn leaves the other users as they are, and on the list where they are. */
  lemma TurnLeavesOthers(db: Db, links: Crosslinks, fd: Fd, r: RecvResult, now: nat)
    requires DbInv(db) && fd in db.users
    ensures Linked(db, fd) && fd in db.hist
    ensures Spared(db, Turn(db, links, fd, r, now), fd)
  {
    Found(db, fd);
    if r == Closed || r == Failed || now - db.users[fd].lastRecv >= SERVER_USER_TIMEOUT {
      LogoutConcerns(db, fd);
    } else {
      var bytes := if r.Data? then r.bytes else [];
      var db1 := Received(db, fd, bytes, now);
      ReceivedKeeps(db, fd, bytes, now);
      assert db1.users - {fd} == db.users - {fd};
      HandleFrontLeavesOthers(db1, links, fd);
    }
  }

  lemma SameOthers(users: map<Fd, User>, users': map<Fd, User>, fd: Fd)
    requires users' - {fd} == users - {fd}
    ensures forall f :: f in users && f != fd ==> f in users' && users'[f] == users[f]
  {
    forall f | f in users && f != fd ensures f in users' && users'[f] == users[f] {
      assert f in users - {fd} && (users - {fd})[f] == users[f];
      assert (users' - {fd})[f] == users'[f];
    }
  }

  /** What stands behind fd on the list still stands there at its end. */
  ghost predicate EndsWith<T>(s: seq<T>, t: seq<T>) {
    |t| <= |s| && s[|s| - |t|..] == t
  }

  lemma {:induction false} RemoveEnd<T>(s: seq<T>, t: seq<T>)
    requires Distinct(s) && t != [] && EndsWith(s, t)
    ensures EndsWith(Remove(s, t[0]), t[1..]) && EndsWith(s, t[1..])
  {
    if |s| > |t| {
      assert s[0] != s[|s| - |t|];
      assert s[1..][|s[1..]| - |t|..] == s[|s| - |t|..];
      RemoveEnd(s[1..], t);
      EndBehind(s[0], Remove(s[1..], t[0]), t[1..]);
    }
  }

  lemma EndBehind<T>(x: T, s: seq<T>, t: seq<T>)
    requires EndsWith(s, t)
    ensures EndsWith([x] + s, t)
  {
  }

  lemma RestIsOthers<T>(s: seq<T>, list: seq<T>, i: nat)
    requires Distinct(s) && i < |list| && EndsWith(s, list[i..])
    ensures forall x :: x in list[i + 1..] ==> x in list[i..] && x != list[i]
  {
    var at := |s| - |list[i..]|;
    forall x | x in list[i + 1..] ensures x in list[i..] && x != list[i] {
      var j := Standing(list[i + 1..], x);
      assert list[i..][j + 1] == x == s[at + j + 1] && s[at] == list[i..][0];
    }
  }

  /** Every connection of a list can be read as the results say. */
  ghost predicate Ready(users: map<Fd, User>, list: seq<Fd>, results: map<Fd, RecvResult>) {
    forall f :: f in list ==> f in results && f in users && Possible(users[f], results[f])
  }

  lemma RestReady(users: map<Fd, User>, users': map<Fd, User>, s: seq<Fd>, list: seq<Fd>, i: nat, results: map<Fd, RecvResult>)
    requires i < |list| && Ready(users, list[i..], results) && Distinct(s) && EndsWith(s, list[i..])
    requires users' - {list[i]} == users - {list[i]}
    ensures Ready(users', list[i + 1..], results)
  {
    RestIsOthers(s, list, i);
    SameOthers(users, users', list[i]);
  }

  /** What the walk keeps: behind the user whose turn it was, the list is as before. */
  lemma AfterTurn(db: Db, links: Crosslinks, list: seq<Fd>, i: nat, results: map<Fd, RecvResult>, now: nat)
    requires Consistent(db) && i < |list| && EndsWith(db.userList, list[i..]) && Ready(db.users, list[i..], results)
    ensures list[i] in results && Linked(db, list[i]) && list[i] in db.hist && Possible(db.users[list[i]], results[list[i]])
    ensures var db' := Turn(db, links, list[i], results[list[i]], now);
      && EndsWith(db'.userList, list[i + 1..]) && Ready(db'.users, list[i + 1..], results)
      && StepAll(db, links, Turns(list[i..], results, now)) == StepAll(db', links, Turns(list[i + 1..], results, now))
  {
    var fd := list[i];
    assert list[i..][0] == fd && list[i..][1..] == list[i + 1..] && fd in list[i..];
    TurnLeavesOthers(db, links, fd, results[fd], now);
    RemoveEnd(db.userList, list[i..]);
    RestReady(db.users, Turn(db, links, fd, results[fd], now).users, db.userList, list, i, results);
    TurnsNext(db, links, list, i, results, now);
  }

  // --- Receive buffers ---

  /** The buffers in the nodes of all users. */
  class RxBuffers {
    var nodes: map<Fd, RxBuffer>
    /** What each user sent and was not acted on. */
    ghost var held: map<Fd, Bytes>
    ghost var Repr: set<object>

    constructor ()
      ensures Valid() && fresh(Repr) && held == map[]
    {
      nodes, held, Repr := map[], map[], {this};
    }

    ghost predicate Valid()
      reads this, Repr
    {
      && this in Repr && nodes.Keys == held.Keys
      && (forall fd :: fd in nodes ==>
            nodes[fd] in Repr && nodes[fd].rx in Repr && nodes[fd].Valid() && nodes[fd].Contents() == held[fd])
      && (forall f, g :: f in nodes && g in nodes && f != g ==> nodes[f] != nodes[g] && nodes[f].rx != nodes[g].rx)
    }

    method Open(fd: Fd)
      requires Valid()
      modifies this
      ensures Valid() && fresh(Repr - old(Repr)) && held == old(held)[fd := []]
    {
      var buffer := new RxBuffer();
      nodes, held := nodes[fd := buffer], held[fd := []];
      Repr := Repr + {buffer, buffer.rx};
    }

    method Close(fd: Fd)
      requires Valid()
      modifies this`nodes, this`held
      ensures Valid() && held == old(held) - {fd}
    {
      nodes, held := nodes - {fd}, held - {fd};
    }

    method Receive(fd: Fd, bytes: Bytes)
      requires Valid() && fd in held && |bytes| <= RX_SIZE - |held[fd]|
      modifies this`held, nodes[fd], nodes[fd].rx
      ensures Valid() && held == old(held)[fd := old(held)[fd] + bytes]
    {
      nodes[fd].Receive(bytes);
      held := held[fd := held[fd] + bytes];
    }

    method Clear(fd: Fd, size: nat)
      requires Valid() && fd in held && size <= |held[fd]|
      modifies this`held, nodes[fd], nodes[fd].rx
      ensures Valid() && held == old(held)[fd := old(held)[fd][size..]]
    {
      nodes[fd].Clear(size);
      held := held[fd := held[fd][size..]];
    }
  }

  ghost predicate RxOf(users: map<Fd, User>, held: map<Fd, Bytes>) {
    held.Keys == users.Keys && forall fd :: fd in users ==> users[fd].rx == held[fd]
  }

  ghost predicate RxServed(users: map<Fd, User>, held: map<Fd, Bytes>, fd: Fd) {
    RxOf(users, if fd in users then held else held - {fd})
  }

  lemma RxAfter(users: map<Fd, User>, users': map<Fd, User>, fd: Fd, held: map<Fd, Bytes>, rx: Bytes)
    requires RxOf(users, held) && users' - {fd} == users - {fd} && (fd in users' ==> users'[fd].rx == rx)
    ensures RxServed(users', held[fd := rx], fd)
  {
    SameOthers(users, users', fd);
    SameOthers(users', users, fd);
  }

  /** The same for all users but one. */
  ghost predicate RxOfOthers(users: map<Fd, User>, held: map<Fd, Bytes>, fd: Fd) {
    held.Keys == users.Keys && forall f :: f in users && f != fd ==> users[f].rx == held[f]
  }

  lemma LogoutRx(db: Db, fd: Fd, held: map<Fd, Bytes>)
    requires Consistent(db) && fd in db.users && RxOf(db.users, held)
    ensures Linked(db, fd) && RxServed(Logout(db, fd).users, held, fd)
  {
    LogoutGone(db, fd);
    RxAfter(db.users, Logout(db, fd).users, fd, held, held[fd]);
    assert held[fd := held[fd]] == held;
  }

  lemma ReceivedRx(db: Db, fd: Fd, bytes: Bytes, now: nat, held: map<Fd, Bytes>)
    requires Consistent(db) && fd in db.users && RxOfOthers(db.users, held, fd) && held[fd] == db.users[fd].rx + bytes
    ensures fd in db.hist && RxOf(Received(db, fd, bytes, now).users, held)
  {
    assert DbInv(db);
  }

  lemma Connected(db: Db, fd: Fd)
    requires Consistent(db) && fd in db.users
    ensures Linked(db, fd) && fd in db.hist
  {
    Found(db, fd);
  }

  lemma StillLinked(db: Db, fd: Fd, bytes: Bytes, now: nat)
    requires Linked(db, fd) && fd in db.hist
    ensures Linked(Received(db, fd, bytes, now), fd)
  {
  }

  /** A packet at the front of a buffer is in it as a whole, and is a login or not as it must be. */
  lemma FrontFits(db: Db, links: Crosslinks, fd: Fd)
    requires Consistent(db) && fd in db.users && db.users[fd].rx != []
    ensures fd in db.hist && Linked(db, fd)
    ensures var u := db.users[fd];
      match FrontPacket(u.id.Some?, u.rx)
      case Complete(request, size) =>
        size <= |u.rx| && (request.LoginRequest? <==> u.id.None?) && Linked(Consumed(db, fd, size), fd)
      case _ => true
  {
    Found(db, fd);
    var u := db.users[fd];
    match FrontPacket(u.id.Some?, u.rx)
    case Complete(request, size) => PacketLeavesOthers(db, links, fd, request, size);
    case _ =>
  }

  /** Once a packet is taken out of the buffer, acting on it leaves the buffers as they are. */
  lemma PacketRx(db: Db, links: Crosslinks, fd: Fd, request: Request, size: nat, held: map<Fd, Bytes>)
    requires Consistent(db) && fd in db.users && size <= |db.users[fd].rx| && (request.LoginRequest? <==> db.users[fd].id.None?)
    requires RxOfOthers(db.users, held, fd) && held[fd] == db.users[fd].rx[size..]
    requires fd in db.hist && Linked(Consumed(db, fd, size), fd)
    ensures RxServed(Act(Consumed(db, fd, size), links, fd, request).users, held, fd)
  {
    PacketLeavesOthers(db, links, fd, request, size);
    RxSpared(db.users, Act(Consumed(db, fd, size), links, fd, request).users, held, fd);
  }

  lemma RxSpared(users: map<Fd, User>, users': map<Fd, User>, held: map<Fd, Bytes>, fd: Fd)
    requires fd in users && RxOfOthers(users, held, fd) && users' - {fd} == users - {fd}
    requires fd in users' ==> users'[fd].rx == held[fd]
    ensures RxServed(users', held, fd)
  {
    SameOthers(users, users', fd);
    SameOthers(users', users, fd);
  }

  // --- The loop ---

  class Server {
    const db: Database
    const buffers: RxBuffers

    constructor ()
      ensures Valid() && db.View() == EMPTY && fresh(db) && fresh(buffers.Repr)
    {
      db := new Database();
      buffers := new RxBuffers();
    }

    /** Every user has a buffer of its own that holds what it sent and was not acted on. */
    ghost predicate Valid()
      reads this, db, buffers, buffers.Repr
    {
      db.Valid() && Buffered()
    }

    ghost predicate Buffered()
      reads this, db`users, buffers, buffers.Repr
    {
      db !in buffers.Repr && buffers.Valid() && RxOf(db.users, buffers.held)
    }

    /** A new connection, with an empty buffer. */
    method Accept(fd: Fd, ip: nat, port: nat, now: nat) returns (accepted: bool)
      requires Valid() && fd !in db.hist
      modifies db, buffers
      ensures Valid() && fresh(buffers.Repr - old(buffers.Repr))
      ensures LoginStream(old(db.View()), fd, ip, port, now) == if accepted then Some(db.View()) else None
      ensures !accepted ==> db.View() == old(db.View())
    {
      accepted := db.LoginUserStream(fd, ip, port, now);
      if accepted {
        RxAfter(old(db.users), db.users, fd, buffers.held, []);
        buffers.Open(fd);
      }
    }

    /** Buffered, but for the buffer of a user that may be gone. */
    ghost predicate Freeable(fd: Fd)
      reads this, db`users, buffers, buffers.Repr
    {
      db !in buffers.Repr && buffers.Valid() && RxServed(db.users, buffers.held, fd)
    }

    /** Freeing the node of a user frees its buffer. */
    method Free(fd: Fd)
      requires Freeable(fd)
      modifies buffers`nodes, buffers`held
      ensures Buffered() && db.View() == old(db.View())
    {
      if fd !in db.users {
        buffers.Close(fd);
      }
    }

    method Logout(fd: Fd)
      requires Valid() && fd in db.users
      modifies db, buffers`nodes, buffers`held
      ensures Valid()
      ensures Linked(old(db.View()), fd) && db.View() == ServerSpec.Logout(old(db.View()), fd)
    {
      LogoutRx(db.View(), fd, buffers.held);
      db.LogoutUser(fd);
      Free(fd);
    }

    method Receive(fd: Fd, bytes: Bytes, now: nat)
      requires Valid() && fd in db.users && |bytes| <= RX_SIZE - |db.users[fd].rx|
      modifies db, buffers`held, buffers.nodes[fd], buffers.nodes[fd].rx
      ensures Valid() && fd in db.users
      ensures fd in old(db.hist) && db.View() == Received(old(db.View()), fd, bytes, now)
    {
      Fill(fd, bytes);
      Record(fd, bytes, now);
    }

    /** Buffered again once the bytes at the end of the buffer of fd have been recorded. */
    ghost predicate Filled(fd: Fd, bytes: Bytes)
      reads this, db`users, buffers, buffers.Repr
    {
      && db !in buffers.Repr && buffers.Valid() && fd in db.users
      && RxOfOthers(db.users, buffers.held, fd) && buffers.held[fd] == db.users[fd].rx + bytes
    }

    method Fill(fd: Fd, bytes: Bytes)
      requires Buffered() && fd in db.users && |bytes| <= RX_SIZE - |db.users[fd].rx|
      modifies buffers`held, buffers.nodes[fd], buffers.nodes[fd].rx
      ensures Filled(fd, bytes)
    {
      buffers.Receive(fd, bytes);
    }

    method Record(fd: Fd, bytes: Bytes, now: nat)
      requires db.Valid() && Filled(fd, bytes)
      modifies db
      ensures Valid() && fd in db.users
      ensures fd in old(db.hist) && db.View() == Received(old(db.View()), fd, bytes, now)
    {
      ReceivedRx(db.View(), fd, bytes, now, buffers.held);
      db.Receive(fd, bytes, now);
    }

    /** A complete packet is taken out of the buffer before it is acted on. */
    method ServePacket(links: Crosslinks, fd: Fd, request: Request, size: nat)
      requires Valid() && fd in db.users && size <= |db.users[fd].rx|
      requires request.LoginRequest? <==> db.users[fd].id.None?
      requires fd in db.hist && Linked(Consumed(db.View(), fd, size), fd)
      modifies db, buffers`nodes, buffers`held, buffers.nodes[fd], buffers.nodes[fd].rx
      ensures Valid()
      ensures db.View() == Act(Consumed(old(db.View()), fd, size), links, fd, request)
    {
      TakeOut(fd, size);
      PassAndFree(links, fd, request, size);
    }

    /** Buffered again once the packet at the front of the buffer of fd has been acted on. */
    ghost predicate Taken(fd: Fd, size: nat)
      reads this, db`users, buffers, buffers.Repr
    {
      && db !in buffers.Repr && buffers.Valid() && fd in db.users && size <= |db.users[fd].rx|
      && RxOfOthers(db.users, buffers.held, fd) && buffers.held[fd] == db.users[fd].rx[size..]
    }

    method PassAndFree(links: Crosslinks, fd: Fd, request: Request, size: nat)
      requires db.Valid() && Taken(fd, size)
      requires request.LoginRequest? <==> db.users[fd].id.None?
      requires fd in db.hist && Linked(Consumed(db.View(), fd, size), fd)
      modifies db, buffers`nodes, buffers`held
      ensures Valid()
      ensures db.View() == Act(Consumed(old(db.View()), fd, size), links, fd, request)
    {
      Pass(links, fd, request, size);
      Free(fd);
    }

    method TakeOut(fd: Fd, size: nat)
      requires Buffered() && fd in db.users && size <= |db.users[fd].rx|
      modifies buffers`held, buffers.nodes[fd], buffers.nodes[fd].rx
      ensures Taken(fd, size)
    {
      buffers.Clear(fd, size);
    }

    method Pass(links: Crosslinks, fd: Fd, request: Request, size: nat)
      requires db.Valid() && Taken(fd, size)
      requires request.LoginRequest? <==> db.users[fd].id.None?
      requires fd in db.hist && Linked(Consumed(db.View(), fd, size), fd)
      modifies db
      ensures db.Valid() && Freeable(fd)
      ensures db.View() == Act(Consumed(old(db.View()), fd, size), links, fd, request)
    {
      PacketRx(db.View(), links, fd, request, size, buffers.held);
      db.ServePacket(links, fd, request, size);
    }

    /** The packet at the front of the buffer, if there is a complete one. */
    method ServeFront(links: Crosslinks, fd: Fd)
      requires Valid() && fd in db.users
      modifies db, buffers`nodes, buffers`held, buffers.nodes[fd], buffers.nodes[fd].rx
      ensures Valid()
      ensures Linked(old(db.View()), fd) && fd in old(db.hist)
      ensures db.View() == HandleFront(old(db.View()), links, fd)
    {
      Connected(db.View(), fd);
      var buffer := buffers.nodes[fd];
      if buffer.rxpos > 0 {
        FrontFits(db.View(), links, fd);
        var front := FrontPacket(db.users[fd].id.Some?, buffer.Contents());
        if front.BadOpcode? {
          Logout(fd);
        } else if front.Complete? {
          ServePacket(links, fd, front.request, front.size);
        }
      }
    }

    /** The turn of one connection. */
    method Serve(links: Crosslinks, fd: Fd, r: RecvResult, now: nat)
      requires Valid() && fd in db.users && Possible(db.users[fd], r)
      modifies db, buffers`nodes, buffers`held, buffers.nodes[fd], buffers.nodes[fd].rx
      ensures Valid()
      ensures Linked(old(db.View()), fd) && fd in old(db.hist)
      ensures db.View() == Turn(old(db.View()), links, fd, r, now)
    {
      Connected(db.View(), fd);
      if r == Closed || r == Failed || now - db.users[fd].lastRecv >= SERVER_USER_TIMEOUT {
        Logout(fd);
      } else {
        var bytes := if r.Data? then r.bytes else [];
        StillLinked(db.View(), fd, bytes, now);
        Heard(links, fd, bytes, now);
      }
    }

    method Heard(links: Crosslinks, fd: Fd, bytes: Bytes, now: nat)
      requires Valid() && fd in db.users && |bytes| <= RX_SIZE - |db.users[fd].rx|
      requires fd in db.hist && Linked(Received(db.View(), fd, bytes, now), fd)
      modifies db, buffers`nodes, buffers`held, buffers.nodes[fd], buffers.nodes[fd].rx
      ensures Valid() && db.View() == HandleFront(Received(old(db.View()), fd, bytes, now), links, fd)
    {
      Receive(fd, bytes, now);
      ServeFront(links, fd);
    }

    /** The walk over all connections. The next user is saved before a turn; no turn takes
        anyone out but the user whose turn it is, so the saved one is still on the list. */
    method ServeAll(links: Crosslinks, results: map<Fd, RecvResult>, now: nat)
      requires Valid() && Ready(db.users, Order(db.userList), results)
      modifies db, buffers`nodes, buffers`held, buffers.Repr - {buffers}
      ensures Valid()
      ensures db.View() == StepAll(old(db.View()), links, Turns(old(Order(db.userList)), results, now))
    {
      ghost var before, list, i := db.View(), Order(db.userList), 0;
      FromStart(db.userList);
      var user := db.userList.first;
      while user.Some?
        invariant i <= |list| && Valid()
        invariant user == Place(list, i) && EndsWith(Order(db.userList), list[i..]) && Ready(db.users, list[i..], results)
        invariant StepAll(db.View(), links, Turns(list[i..], results, now)) == StepAll(before, links, Turns(list, results, now))
        decreases |list| - i
      {
        user := ServeNext(links, list, i, user.value, results, now);
        i := i + 1;
      }
    }

    method ServeNext(links: Crosslinks, ghost list: seq<Fd>, ghost i: nat, fd: Fd, results: map<Fd, RecvResult>, now: nat)
      returns (next: Option<Fd>)
      requires Valid() && i < |list| && fd == list[i] && fd in db.users
      requires EndsWith(Order(db.userList), list[i..]) && Ready(db.users, list[i..], results)
      modifies db, buffers`nodes, buffers`held, buffers.nodes[fd], buffers.nodes[fd].rx
      ensures Valid()
      ensures next == Place(list, i + 1) && EndsWith(Order(db.userList), list[i + 1..]) && Ready(db.users, list[i + 1..], results)
      ensures StepAll(db.View(), links, Turns(list[i + 1..], results, now)) == StepAll(old(db.View()), links, Turns(list[i..], results, now))
    {
      next := SaveNext(list, i, fd);
      AfterTurn(db.View(), links, list, i, results, now);
      Serve(links, fd, results[fd], now);
    }

    method SaveNext(ghost list: seq<Fd>, ghost i: nat, fd: Fd) returns (next: Option<Fd>)
      requires WellLinked(db.userList) && i < |list| && fd == list[i] && EndsWith(Order(db.userList), list[i..])
      ensures next == Place(list, i + 1)
    {
      ghost var at := |Order(db.userList)| - |list[i..]|;
      NextInside(db.userList, at);
      assert Order(db.userList)[at..] == list[i..];
      next := db.userList.links[fd].next;
    }
  }
}
