/** Member-list agreement: a host and its accepted clients report the same members in the
    same order, as long as packets arrive in order and without loss, the host accepts in join
    order, and members only leave by death notices of the host. */
module MatchingMembers {
  import opened MatchingSpec
  import opened MatchingInvariant
  import opened Sequences

  /** One host and any number of clients. */
  datatype Room = Room(host: Context, clients: map<Mac, Context>)

  datatype RoomStep =
    | HelloTo(m: Mac, src: Mac, now: nat)   // some host says hello to client m
    | Ask(m: Mac, now: nat)                 // client m selects the host
    | Admit(m: Mac, now: nat)               // the host selects m
    | Deaths(now: nat)                      // the host handles its timeouts
    | PingClient(m: Mac, src: Mac, now: nat)    // a ping of some node reaches client m
    | PingHost(src: Mac, now: nat)              // a ping of some node reaches the host
    | ListClient(m: Mac, room: nat, now: nat)   // client m lists its members
    | ListHost(room: nat, now: nat)             // the host lists its members
    | RefreshClient(m: Mac, now: nat)           // client m finds all its peers on the group server
    | RefreshHost(now: nat, missing: set<Mac>)  // the host asks the group server, which may miss some

  /** The packets of the host, handed over one after the other. */
  function DeliverAll(clients: map<Mac, Context>, ps: seq<Packet>, now: nat): map<Mac, Context> {
    if ps == [] then clients
    else
      var p := ps[0];
      DeliverAll(
        if p.dst in clients then clients[p.dst := OnPacket(clients[p.dst], p.src, p.body, now).0] else clients,
        ps[1..], now)
  }

  /** Only offers: the client has not asked anyone yet. */
  predicate Idle(c: Context) {
    forall p :: p in c.peers ==> p.state == Offer
  }

  /** m is the oldest request the host has not accepted yet. */
  predicate NextInLine(peers: seq<Peer>, m: Mac) {
    var k := FindPeer(peers, m);
    && k < |peers| && peers[k].state == IncomingRequest
    && forall i :: k < i < |peers| ==> peers[i].state == ChildPeer
  }

  function ApplyAsk(r: Room, m: Mac, now: nat): Room
    requires m in r.clients
  {
    var (asking, result) := SelectTarget(r.clients[m], r.host.mac);
    var (sent, ps) := Drain(asking);
    if result != Success || |ps| != 1 then r
    else
      var (host, answer) := OnJoin(r.host, m, now);
      Room(host, DeliverAll(r.clients[m := sent], answer, now))
  }

  function ApplyAdmit(r: Room, m: Mac, now: nat): Room {
    var (host, result) := SelectTarget(r.host, m);
    if result != Success then r
    else
      var (sent, ps) := Drain(host);
      Room(sent, DeliverAll(r.clients, ps, now))
  }

  function ApplyRoom(r: Room, s: RoomStep): Room {
    match s
    case HelloTo(m, src, now) =>
      if m in r.clients then r.(clients := r.clients[m := OnHello(r.clients[m], src, now)]) else r
    case Ask(m, now) => if m in r.clients && Idle(r.clients[m]) then ApplyAsk(r, m, now) else r
    case Admit(m, now) => if NextInLine(r.host.peers, m) then ApplyAdmit(r, m, now) else r
    case Deaths(now) =>
      var (host, ps) := HandleTimeout(r.host, now);
      Room(host, DeliverAll(r.clients, ps, now))
    case PingClient(m, src, now) =>
      if m in r.clients then r.(clients := r.clients[m := OnPing(r.clients[m], src, now)]) else r
    case PingHost(src, now) => r.(host := OnPing(r.host, src, now))
    case ListClient(m, room, now) =>
      if m in r.clients then r.(clients := r.clients[m := AfterListing(r.clients[m], room, now)]) else r
    case ListHost(room, now) => r.(host := AfterListing(r.host, room, now))
    case RefreshClient(m, now) =>
      if m in r.clients then r.(clients := r.clients[m := AdhocctlWalk(r.clients[m], 0, now, {})]) else r
    case RefreshHost(now, missing) => r.(host := AdhocctlWalk(r.host, 0, now, missing))
  }

  function RunRoom(start: Room, steps: seq<RoomStep>): Room {
    if steps == [] then start
    else ApplyRoom(RunRoom(start, steps[..|steps| - 1]), steps[|steps| - 1])
  }

  // ----- the invariant -----

  ghost function Kids(host: Context): seq<Mac> {
    ListedMacs(Host, host.peers)
  }

  /** An accepted client: its list is the children of the host, itself among them, and the host
      as parent, in the order of the host. */
  ghost predicate Attached(c: Context, host: Mac, kids: seq<Mac>) {
    && ListedMacs(Client, c.peers) == kids
    && UniqueMacs(c.peers)
    && FindState(c.peers, ParentPeer) == FindPeer(c.peers, host) < |c.peers|
    && (forall p :: p in c.peers ==>
          || (p.state == ParentPeer && p.mac == host)
          || (p.state == ChildPeer && p.mac != c.mac && p.mac in kids)
          || (p.state == Self && p.mac == c.mac && p.mac in kids))
  }

  /** A client whose request to the host is still open. */
  ghost predicate Waiting(c: Context, host: Mac) {
    && FindState(c.peers, OutgoingRequest) == FindPeer(c.peers, host) < |c.peers|
    && (forall p :: p in c.peers ==> p.state == Offer || p.state == OutgoingRequest)
  }

  ghost predicate Ready(c: Context, m: Mac, mode: Mode) {
    c.mac == m && c.mode == mode && c.running && c.stack == []
  }

  ghost predicate ClientFits(r: Room, p: Peer) {
    && p.mac in r.clients
    && (p.state == ChildPeer ==> Attached(r.clients[p.mac], r.host.mac, Kids(r.host)))
    && (p.state == IncomingRequest ==> Waiting(r.clients[p.mac], r.host.mac))
  }

  /** Children joined before everyone who still waits. */
  ghost predicate Ranked(peers: seq<Peer>) {
    && (forall p :: p in peers ==> p.state == ChildPeer || p.state == IncomingRequest)
    && (forall i, j :: 0 <= i < j < |peers| && peers[i].state == ChildPeer ==> peers[j].state == ChildPeer)
  }

  ghost predicate Agreed(r: Room) {
    && Ready(r.host, r.host.mac, Host) && r.host.mac !in r.clients
    && UniqueMacs(r.host.peers) && Ranked(r.host.peers)
    && (forall m :: m in r.clients ==> Ready(r.clients[m], m, Client))
    && (forall p :: p in r.host.peers ==> ClientFits(r, p))
  }

  // ----- listed MACs -----

  lemma {:induction false} ListedConcat(mode: Mode, a: seq<Peer>, b: seq<Peer>)
    ensures ListedMacs(mode, a + b) == ListedMacs(mode, a) + ListedMacs(mode, b)
  {
    if a == [] {
      assert a + b == b;
    } else {
      var rest := a[1..];
      assert (a + b)[0] == a[0] && (a + b)[1..] == rest + b;
      ListedConcat(mode, rest, b);
      Regroup(if Listed(mode, a[0]) then [a[0].mac] else [], ListedMacs(mode, rest), ListedMacs(mode, b));
    }
  }

  lemma {:induction false} ReverseConcat<T>(a: seq<T>, b: seq<T>)
    ensures Reverse(a + b) == Reverse(b) + Reverse(a)
  {
    if a == [] {
      assert a + b == b;
    } else {
      assert (a + b)[1..] == a[1..] + b;
      ReverseConcat(a[1..], b);
    }
  }

  lemma {:induction false} ListedReverse(mode: Mode, peers: seq<Peer>)
    ensures ListedMacs(mode, Reverse(peers)) == Reverse(ListedMacs(mode, peers))
  {
    if peers != [] {
      var head := if Listed(mode, peers[0]) then [peers[0].mac] else [];
      ListedReverse(mode, peers[1..]);
      ListedConcat(mode, Reverse(peers[1..]), [peers[0]]);
      ReverseConcat(head, ListedMacs(mode, peers[1..]));
      assert ListedMacs(mode, [peers[0]]) == head == Reverse(head);
    }
  }

  lemma {:induction false} ListedMembers(mode: Mode, peers: seq<Peer>, m: Mac)
    ensures m in ListedMacs(mode, peers) <==> exists p :: p in peers && Listed(mode, p) && p.mac == m
  {
    if peers != [] {
      ListedMembers(mode, peers[1..], m);
      assert peers == [peers[0]] + peers[1..];
    }
  }

  lemma {:induction false} ListedNone(mode: Mode, peers: seq<Peer>)
    requires forall p :: p in peers ==> !Listed(mode, p)
    ensures ListedMacs(mode, peers) == []
  {
    if peers != [] { ListedNone(mode, peers[1..]); }
  }

  /** The invariant says what the two sides report. */
  lemma AgreedMembers(r: Room, p: Peer)
    requires Agreed(r) && p in r.host.peers && p.state == ChildPeer
    ensures p.mac in r.clients && Members(r.clients[p.mac]) == Members(r.host)
  {
    assert ClientFits(r, p);
    var c := r.clients[p.mac];
    ListedReverse(Client, c.peers);
    ListedReverse(Host, r.host.peers);
  }

  // ----- hello and join -----

  lemma ReplaceClient(r: Room, m: Mac, c: Context)
    requires Agreed(r) && m in r.clients && Ready(c, m, Client)
    requires forall p :: p in r.host.peers && p.mac == m ==>
      && (p.state == ChildPeer ==> Attached(c, r.host.mac, Kids(r.host)))
      && (p.state == IncomingRequest ==> Waiting(c, r.host.mac))
    ensures Agreed(r.(clients := r.clients[m := c]))
  {
    var r' := r.(clients := r.clients[m := c]);
    forall p | p in r.host.peers ensures ClientFits(r', p) {
      assert ClientFits(r, p);
    }
  }

  lemma HelloKeepsAgreement(r: Room, m: Mac, src: Mac, now: nat)
    requires Agreed(r) && m in r.clients
    ensures Agreed(r.(clients := r.clients[m := OnHello(r.clients[m], src, now)]))
  {
    var c := r.clients[m];
    var c' := OnHello(c, src, now);
    forall p | p in r.host.peers && p.mac == m
      ensures p.state == ChildPeer ==> Attached(c', r.host.mac, Kids(r.host))
      ensures p.state == IncomingRequest ==> Waiting(c', r.host.mac)
    {
      assert ClientFits(r, p);
    }
    ReplaceClient(r, m, c');
  }

  /** A client the host knows has a peer it belongs to or asked to join. */
  lemma KnownIsNotIdle(r: Room, p: Peer)
    requires Agreed(r) && p in r.host.peers
    ensures p.mac in r.clients && !Idle(r.clients[p.mac])
  {
    assert ClientFits(r, p);
    var c := r.clients[p.mac];
    assert c.peers[FindPeer(c.peers, r.host.mac)] in c.peers;
  }

  lemma IdleIsUnknown(r: Room, m: Mac)
    requires Agreed(r) && m in r.clients && Idle(r.clients[m])
    ensures FindPeer(r.host.peers, m) == |r.host.peers|
  {
    forall p | p in r.host.peers ensures p.mac != m {
      KnownIsNotIdle(r, p);
    }
  }

  /** An idle client that asks sends one join packet and waits. */
  lemma AskSendsJoin(c: Context, host: Mac)
    requires Idle(c) && c.mode == Client && c.running && c.stack == []
    requires SelectTarget(c, host).1 == Success
    ensures var (sent, ps) := Drain(SelectTarget(c, host).0);
      && ps == [Packet(c.mac, host, Join)]
      && Waiting(sent, host) && Ready(sent, c.mac, Client)
  {
    var k := FindPeer(c.peers, host);
    var asking := SelectTarget(c, host).0;
    assert asking.stack == [JoinMessage(host)];
    assert forall i :: 0 <= i < |c.peers| ==> c.peers[i] in c.peers;
    FindAfterSet(c.peers, k, OutgoingRequest);
    OneMessage(asking, JoinMessage(host));
  }

  lemma OneMessage(c: Context, m: Message)
    ensures SendMessages(c, [m]) == SendMessage(c, m)
  {
    var (c1, ps) := SendMessage(c, m);
    assert [m][1..] == [] && SendMessages(c1, []) == (c1, []) && ps + [] == ps;
  }

  lemma {:induction false} FindAfterSet(peers: seq<Peer>, k: nat, state: PeerState)
    requires k < |peers| && FindPeer(peers, peers[k].mac) == k
    requires forall i :: 0 <= i < |peers| ==> peers[i].state != state
    ensures FindState(SetState(peers, k, state), state) == k
    ensures FindPeer(SetState(peers, k, state), peers[k].mac) == k
  {
    if k > 0 {
      assert SetState(peers, k, state)[1..] == SetState(peers[1..], k - 1, state);
      FindAfterSet(peers[1..], k - 1, state);
    }
  }

  lemma AskKeepsAgreement(r: Room, m: Mac, now: nat)
    requires Agreed(r) && m in r.clients && Idle(r.clients[m])
    ensures Agreed(ApplyAsk(r, m, now))
  {
    var c := r.clients[m];
    if SelectTarget(c, r.host.mac).1 == Success {
      AskSendsJoin(c, r.host.mac);
      var sent := Drain(SelectTarget(c, r.host.mac).0).0;
      IdleIsUnknown(r, m);
      var r1 := r.(clients := r.clients[m := sent]);
      ReplaceClient(r, m, sent);
      if CountChildren(r.host.peers) < r.host.maxpeers - 1 {
        JoinRecorded(r1, m, now);
      } else {
        ReplaceClient(r1, m, OnCancel(sent, r.host.mac, now + REMOVAL_DELAY));
        OneDelivery(r1.clients, Packet(r.host.mac, m, Cancel), now);
      }
    }
  }

  lemma OneDelivery(clients: map<Mac, Context>, p: Packet, now: nat)
    requires p.dst in clients
    ensures DeliverAll(clients, [p], now) == clients[p.dst := OnPacket(clients[p.dst], p.src, p.body, now).0]
  {
    var after := clients[p.dst := OnPacket(clients[p.dst], p.src, p.body, now).0];
    assert [p][1..] == [];
    assert DeliverAll(after, [], now) == after;
  }

  lemma JoinRecorded(r: Room, m: Mac, now: nat)
    requires Agreed(r) && m in r.clients && Waiting(r.clients[m], r.host.mac)
    requires FindPeer(r.host.peers, m) == |r.host.peers|
    requires CountChildren(r.host.peers) < r.host.maxpeers - 1
    ensures OnJoin(r.host, m, now).1 == []
    ensures Agreed(r.(host := OnJoin(r.host, m, now).0))
  {
    var host := OnJoin(r.host, m, now).0;
    var newcomer := NewPeer(m, IncomingRequest, now);
    assert host.peers == [newcomer] + r.host.peers;
    assert host.peers[1..] == r.host.peers && Kids(host) == Kids(r.host);
    var r' := r.(host := host);
    forall p | p in host.peers ensures ClientFits(r', p) {
      assert p == newcomer || ClientFits(r, p);
    }
  }

  // ----- admission -----

  lemma {:induction false} SiblingsOf(a: seq<Peer>, p: Peer, b: seq<Peer>)
    requires forall q :: q in a ==> q.state != ChildPeer
    ensures Siblings(a + [p] + b, |a|) == ListedMacs(Host, b)
  {
    var s := a + [p] + b;
    if a == [] {
      assert s[1..] == b;
      SiblingsBeyond(b, -1);
    } else {
      assert s[1..] == a[1..] + [p] + b;
      SiblingsOf(a[1..], p, b);
      assert a[0] in a;
    }
  }

  lemma {:induction false} SiblingsBeyond(peers: seq<Peer>, k: int)
    requires k < 0
    ensures Siblings(peers, k) == ListedMacs(Host, peers)
  {
    if peers != [] { SiblingsBeyond(peers[1..], k - 1); }
  }

  lemma {:induction false} FirstPeerAt(a: seq<Peer>, p: Peer, b: seq<Peer>)
    requires forall q :: q in a ==> q.mac != p.mac
    ensures FindPeer(a + [p] + b, p.mac) == |a|
  {
    var s := a + [p] + b;
    if a != [] {
      assert s[1..] == a[1..] + [p] + b;
      FirstPeerAt(a[1..], p, b);
      assert a[0] in a;
    }
  }

  /** What the host becomes and sends when it admits the peer at position k. */
  lemma AdmitSends(host: Context, k: nat, m: Mac)
    requires Ready(host, host.mac, Host) && UniqueMacs(host.peers) && Ranked(host.peers)
    requires NextInLine(host.peers, m) && k == FindPeer(host.peers, m)
    requires SelectTarget(host, m).1 == Success
    ensures var (sent, ps) := Drain(SelectTarget(host, m).0);
      && SameRole(host, sent) && Ready(sent, host.mac, Host)
      && sent.peers == SetState(host.peers, k, ChildPeer)
      && Kids(sent) == [m] + Kids(host)
      && ps == ToAll(host.mac, Kids(host), Birth(m)) + [Packet(host.mac, m, Accept(Kids(host)))]
  {
    var peers := host.peers;
    var a, p, b := peers[..k], peers[k].(state := ChildPeer), peers[k + 1..];
    AroundNext(peers, k);
    AdmitKids(a, peers[k], p, b);
    FirstPeerAt(a, p, b);
    var c := SelectTarget(host, m).0;
    assert c.stack == [BirthMessage(m), AcceptMessage(m)];
    DrainAdmission(c, a, p, b, m);
  }

  /** Nobody in front of one who asks is a child, and its MAC is not there. */
  lemma AroundNext(peers: seq<Peer>, k: nat)
    requires Ranked(peers) && k < |peers| && peers[k].state != ChildPeer && FindPeer(peers, peers[k].mac) == k
    ensures var a, p, b := peers[..k], peers[k].(state := ChildPeer), peers[k + 1..];
      && peers == a + [peers[k]] + b && SetState(peers, k, ChildPeer) == a + [p] + b
      && forall q :: q in a ==> q.state != ChildPeer && q.mac != p.mac
  {
    SplitAround(peers, k, peers[k].(state := ChildPeer));
    var a := peers[..k];
    forall q | q in a ensures q.state != ChildPeer && q.mac != peers[k].mac {
      var i :| 0 <= i < k && a[i] == q;
      assert peers[i] == q;
    }
  }

  lemma SplitAround<T>(s: seq<T>, k: nat, x: T)
    requires k < |s|
    ensures s == s[..k] + [s[k]] + s[k + 1..] && s[k := x] == s[..k] + [x] + s[k + 1..]
  {
  }

  /** The birth goes to the other children, then the accept to the new one. */
  lemma DrainAdmission(c: Context, a: seq<Peer>, p: Peer, b: seq<Peer>, m: Mac)
    requires c.mode == Host && c.peers == a + [p] + b && p.mac == m && p.state == ChildPeer
    requires c.stack == [BirthMessage(m), AcceptMessage(m)]
    requires (forall q :: q in a ==> q.state != ChildPeer) && FindPeer(c.peers, m) == |a|
    ensures var (sent, ps) := Drain(c);
      && SameRole(c, sent) && sent.running == c.running && sent.stack == [] && sent.peers == c.peers
      && ps == ToAll(c.mac, ListedMacs(Host, b), Birth(m)) + [Packet(c.mac, m, Accept(ListedMacs(Host, b)))]
  {
    SiblingsOf(a, p, b);
    TwoMessages(c, BirthMessage(m), AcceptMessage(m));
  }

  lemma AdmitKids(a: seq<Peer>, old': Peer, p: Peer, b: seq<Peer>)
    requires (forall q :: q in a ==> q.state != ChildPeer) && old'.state != ChildPeer && p.state == ChildPeer
    ensures ListedMacs(Host, a + [old'] + b) == ListedMacs(Host, b)
    ensures ListedMacs(Host, a + [p] + b) == [p.mac] + ListedMacs(Host, b)
  {
    ListedAround(a, old', b);
    ListedAround(a, p, b);
  }

  lemma ListedAround(a: seq<Peer>, p: Peer, b: seq<Peer>)
    requires forall q :: q in a ==> q.state != ChildPeer
    ensures ListedMacs(Host, a + [p] + b) == (if p.state == ChildPeer then [p.mac] else []) + ListedMacs(Host, b)
  {
    var s := [p] + b;
    ListedNone(Host, a);
    ListedConcat(Host, a, s);
    assert a + [p] + b == a + s && s[0] == p && s[1..] == b;
    assert [] + ListedMacs(Host, s) == ListedMacs(Host, s);
  }

  lemma TwoMessages(c: Context, m: Message, m': Message)
    ensures var (c1, ps) := SendMessage(c, m);
      var (c2, ps') := SendMessage(c1, m');
      SendMessages(c, [m, m']) == (c2, ps + ps')
  {
    assert [m, m'][1..] == [m'];
    OneMessage(SendMessage(c, m).0, m');
  }

  // ----- the newcomer -----

  lemma {:induction false} CleanOnly(peers: seq<Peer>, k: nat, p: Peer)
    requires k < |peers| && Needed(p)
    requires forall q :: q in peers ==> !Needed(q)
    ensures Clean(peers[k := p]) == [p]
  {
    assert peers[0] in peers;
    if k == 0 {
      assert peers[0 := p][1..] == peers[1..];
      CleanNone(peers[1..]);
    } else {
      assert peers[k := p][1..] == peers[1..][k - 1 := p];
      CleanOnly(peers[1..], k - 1, p);
    }
  }

  lemma {:induction false} CleanNone(peers: seq<Peer>)
    requires forall q :: q in peers ==> !Needed(q)
    ensures Clean(peers) == []
  {
    if peers != [] {
      assert peers[0] in peers;
      CleanNone(peers[1..]);
    }
  }

  function NewSiblings(macs: seq<Mac>, now: nat): (s: seq<Peer>)
    ensures |s| == |macs|
    ensures forall i :: 0 <= i < |s| ==> s[i] == NewPeer(macs[i], ChildPeer, now)
  {
    seq(|macs|, i requires 0 <= i < |macs| => NewPeer(macs[i], ChildPeer, now))
  }

  ghost predicate DistinctMacs(s: seq<Mac>) {
    forall i, j :: 0 <= i < j < |s| ==> s[i] != s[j]
  }

  ghost predicate Unknown(peers: seq<Peer>, macs: seq<Mac>) {
    forall i, j :: 0 <= i < |macs| && 0 <= j < |peers| ==> peers[j].mac != macs[i]
  }

  /** Unknown siblings end up in front of the list, in the order of the packet. */
  lemma {:induction false} SiblingsInOrder(peers: seq<Peer>, macs: seq<Mac>, now: nat)
    requires DistinctMacs(macs) && Unknown(peers, macs)
    ensures AddSiblings(peers, macs, now) == NewSiblings(macs, now) + peers
    decreases |macs|
  {
    if macs == [] {
      assert NewSiblings(macs, now) == [];
    } else {
      var front, newest := macs[..|macs| - 1], NewPeer(macs[|macs| - 1], ChildPeer, now);
      assert AddSibling(peers, newest.mac, now) == [newest] + peers;
      assert Unknown([newest] + peers, front);
      SiblingsInOrder([newest] + peers, front, now);
      OneMoreSibling(macs, peers, now);
    }
  }

  lemma OneMoreSibling(macs: seq<Mac>, peers: seq<Peer>, now: nat)
    requires macs != []
    ensures NewSiblings(macs[..|macs| - 1], now) + ([NewPeer(macs[|macs| - 1], ChildPeer, now)] + peers)
      == NewSiblings(macs, now) + peers
  {
    var front, newest := NewSiblings(macs[..|macs| - 1], now), NewPeer(macs[|macs| - 1], ChildPeer, now);
    assert NewSiblings(macs, now) == front + [newest];
    assert front + ([newest] + peers) == front + [newest] + peers;
  }

  lemma {:induction false} ListedNewSiblings(macs: seq<Mac>, now: nat)
    ensures ListedMacs(Client, NewSiblings(macs, now)) == macs
  {
    if macs != [] {
      ListedNewSiblings(macs[1..], now);
      assert NewSiblings(macs, now)[1..] == NewSiblings(macs[1..], now);
    }
  }

  ghost function NewcomerPeers(me: Mac, parent: Peer, kids: seq<Mac>, now: nat): seq<Peer> {
    [NewPeer(me, Self, now)] + (NewSiblings(kids, now) + [parent])
  }

  lemma NewcomerList(c: Context, host: Mac, kids: seq<Mac>, now: nat)
    requires c.mode == Client && Waiting(c, host)
    requires c.mac != host && c.mac !in kids && host !in kids && DistinctMacs(kids)
    ensures var parent := c.peers[FindState(c.peers, OutgoingRequest)].(state := ParentPeer);
      OnAccept(c, host, kids, now) == Spawn(Spawn(c.(peers := NewcomerPeers(c.mac, parent, kids, now)),
        EstablishedEvent, host), AcceptEvent, host)
  {
    var k := FindState(c.peers, OutgoingRequest);
    var parent := c.peers[k].(state := ParentPeer);
    assert Unattached(c) by {
      assert forall i :: 0 <= i < |c.peers| ==> c.peers[i] in c.peers;
    }
    CleanOnly(c.peers, k, parent);
    SiblingsInOrder([parent], kids, now);
    var known := NewSiblings(kids, now) + [parent];
    assert FindPeer(known, c.mac) == |known| by {
      assert forall i :: 0 <= i < |known| ==> known[i].mac != c.mac;
    }
  }

  /** The context of an admitted client: the parent, the earlier children, and itself in front. */
  lemma NewcomerAttached(c: Context, host: Mac, kids: seq<Mac>, now: nat)
    requires Ready(c, c.mac, Client) && Waiting(c, host)
    requires c.mac != host && c.mac !in kids && host !in kids && DistinctMacs(kids)
    ensures var c' := OnAccept(c, host, kids, now);
      Ready(c', c.mac, Client) && Attached(c', host, [c.mac] + kids)
  {
    var parent := c.peers[FindState(c.peers, OutgoingRequest)].(state := ParentPeer);
    NewcomerList(c, host, kids, now);
    NewcomerListed(c.mac, parent, kids, now);
    NewcomerFinds(c.mac, host, parent, kids, now);
    NewcomerStates(c.mac, host, parent, kids, now);
  }

  lemma NewcomerStates(me: Mac, host: Mac, parent: Peer, kids: seq<Mac>, now: nat)
    requires parent.state == ParentPeer && parent.mac == host && me !in kids
    ensures forall p :: p in NewcomerPeers(me, parent, kids, now) ==>
      || (p.state == ParentPeer && p.mac == host)
      || (p.state == ChildPeer && p.mac != me && p.mac in [me] + kids)
      || (p.state == Self && p.mac == me && p.mac in [me] + kids)
  {
    forall p | p in NewSiblings(kids, now) ensures p.state == ChildPeer && p.mac in kids { }
  }

  lemma NewcomerListed(me: Mac, parent: Peer, kids: seq<Mac>, now: nat)
    requires parent.state == ParentPeer
    ensures ListedMacs(Client, NewcomerPeers(me, parent, kids, now)) == [me] + kids
  {
    var known := NewSiblings(kids, now) + [parent];
    ListedNewSiblings(kids, now);
    ListedConcat(Client, NewSiblings(kids, now), [parent]);
    assert ([NewPeer(me, Self, now)] + known)[1..] == known;
    assert ListedMacs(Client, [parent]) == [];
  }

  lemma NewcomerFinds(me: Mac, host: Mac, parent: Peer, kids: seq<Mac>, now: nat)
    requires parent.state == ParentPeer && parent.mac == host
    requires me != host && me !in kids && host !in kids && DistinctMacs(kids)
    ensures var peers := NewcomerPeers(me, parent, kids, now);
      FindState(peers, ParentPeer) == FindPeer(peers, host) == |kids| + 1 && UniqueMacs(peers)
  {
    var a := [NewPeer(me, Self, now)] + NewSiblings(kids, now);
    var peers := NewcomerPeers(me, parent, kids, now);
    assert peers == a + [parent] + [];
    assert forall q :: q in a ==> q.mac != host && q.state != ParentPeer;
    FirstPeerAt(a, parent, []);
    FirstStateAt(a, parent, []);
  }

  lemma {:induction false} FirstStateAt(a: seq<Peer>, p: Peer, b: seq<Peer>)
    requires forall q :: q in a ==> q.state != p.state
    ensures FindState(a + [p] + b, p.state) == |a|
  {
    var s := a + [p] + b;
    if a != [] {
      assert s[1..] == a[1..] + [p] + b;
      FirstStateAt(a[1..], p, b);
      assert a[0] in a;
    }
  }

  // ----- delivering births -----

  /** Births reach exactly the children they are addressed to. */
  lemma {:induction false} BirthsDelivered(clients: map<Mac, Context>, host: Mac, kids: seq<Mac>, newborn: Mac, now: nat)
    requires DistinctMacs(kids) && forall m :: m in kids ==> m in clients
    ensures var after := DeliverAll(clients, ToAll(host, kids, Birth(newborn)), now);
      && after.Keys == clients.Keys
      && (forall m :: m in clients ==>
            after[m] == if m in kids then OnBirth(clients[m], host, newborn, now) else clients[m])
  {
    var ps := ToAll(host, kids, Birth(newborn));
    if kids != [] {
      var m0 := kids[0];
      var next := clients[m0 := OnBirth(clients[m0], host, newborn, now)];
      assert ps[1..] == ToAll(host, kids[1..], Birth(newborn));
      assert m0 in kids && forall m :: m in kids <==> m == m0 || m in kids[1..];
      assert m0 !in kids[1..];
      BirthsDelivered(next, host, kids[1..], newborn, now);
    }
  }

  lemma {:induction false} DeliverConcat(clients: map<Mac, Context>, a: seq<Packet>, b: seq<Packet>, now: nat)
    ensures DeliverAll(clients, a + b, now) == DeliverAll(DeliverAll(clients, a, now), b, now)
    decreases |a|
  {
    if a == [] {
      assert a + b == b;
    } else {
      var p := a[0];
      assert (a + b)[1..] == a[1..] + b;
      DeliverConcat(
        if p.dst in clients then clients[p.dst := OnPacket(clients[p.dst], p.src, p.body, now).0] else clients,
        a[1..], b, now);
    }
  }

  /** A child that hears of a birth stays attached. */
  lemma BirthAttached(c: Context, host: Mac, kids: seq<Mac>, newborn: Mac, now: nat)
    requires Ready(c, c.mac, Client) && Attached(c, host, kids)
    requires newborn != c.mac && newborn != host && newborn !in kids
    ensures var c' := OnBirth(c, host, newborn, now);
      Ready(c', c.mac, Client) && Attached(c', host, [newborn] + kids)
  {
    var c' := OnBirth(c, host, newborn, now);
    assert FromParent(c, host);
    assert c'.peers[1..] == c.peers;
    forall i | 0 <= i < |c.peers| ensures c.peers[i].mac != newborn {
      assert c.peers[i] in c.peers;
    }
  }

  // ----- admission as a whole -----

  lemma {:induction false} KidsDistinct(mode: Mode, peers: seq<Peer>)
    requires UniqueMacs(peers)
    ensures DistinctMacs(ListedMacs(mode, peers))
  {
    if peers != [] {
      KidsDistinct(mode, peers[1..]);
      var rest := ListedMacs(mode, peers[1..]);
      forall j | 0 <= j < |rest| ensures rest[j] != peers[0].mac {
        ListedMembers(mode, peers[1..], rest[j]);
      }
      assert ListedMacs(mode, peers) == (if Listed(mode, peers[0]) then [peers[0].mac] else []) + rest;
    }
  }

  lemma KidsAreClients(r: Room, m: Mac)
    requires Agreed(r) && m in Kids(r.host)
    ensures m in r.clients && m != r.host.mac && Attached(r.clients[m], r.host.mac, Kids(r.host))
    ensures exists p :: p in r.host.peers && p.state == ChildPeer && p.mac == m
  {
    ListedMembers(Host, r.host.peers, m);
    var p :| p in r.host.peers && Listed(Host, p) && p.mac == m;
    assert ClientFits(r, p);
  }

  /** A peer of the host that is not a child is not among the kids. */
  lemma NotAKid(peers: seq<Peer>, p: Peer)
    requires UniqueMacs(peers) && p in peers && p.state != ChildPeer
    ensures p.mac !in ListedMacs(Host, peers)
  {
    ListedMembers(Host, peers, p.mac);
  }

  ghost predicate AdmitOutcome(r: Room, m: Mac, after: map<Mac, Context>, now: nat) {
    && m in r.clients && after.Keys == r.clients.Keys
    && (forall n :: n in r.clients ==> after[n] == AfterAdmit(r, m, n, now))
  }

  ghost function AfterAdmit(r: Room, m: Mac, n: Mac, now: nat): Context
    requires n in r.clients
  {
    if n == m then OnAccept(r.clients[n], r.host.mac, Kids(r.host), now)
    else if n in Kids(r.host) then OnBirth(r.clients[n], r.host.mac, m, now)
    else r.clients[n]
  }

  lemma AdmitDelivers(r: Room, m: Mac, now: nat)
    requires Agreed(r) && m in r.clients && m !in Kids(r.host)
    ensures var ps := ToAll(r.host.mac, Kids(r.host), Birth(m)) + [Packet(r.host.mac, m, Accept(Kids(r.host)))];
      AdmitOutcome(r, m, DeliverAll(r.clients, ps, now), now)
  {
    var kids := Kids(r.host);
    var births, last := ToAll(r.host.mac, kids, Birth(m)), Packet(r.host.mac, m, Accept(kids));
    KidsDistinct(Host, r.host.peers);
    forall n | n in kids ensures n in r.clients {
      KidsAreClients(r, n);
    }
    BirthsDelivered(r.clients, r.host.mac, kids, m, now);
    DeliverConcat(r.clients, births, [last], now);
    OneDelivery(DeliverAll(r.clients, births, now), last, now);
  }

  lemma AdmitKeepsAgreement(r: Room, m: Mac, now: nat)
    requires Agreed(r) && NextInLine(r.host.peers, m)
    ensures Agreed(ApplyAdmit(r, m, now))
  {
    if SelectTarget(r.host, m).1 == Success {
      var k := FindPeer(r.host.peers, m);
      var newcomer := r.host.peers[k];
      assert newcomer in r.host.peers && ClientFits(r, newcomer);
      NotAKid(r.host.peers, newcomer);
      AdmitSends(r.host, k, m);
      AdmitDelivers(r, m, now);
      var r' := ApplyAdmit(r, m, now);
      AdmitRanked(r.host.peers, k);
      forall n | n in r'.clients ensures Ready(r'.clients[n], n, Client) {
        AdmitReady(r, m, r'.clients, n, now);
      }
      forall p | p in r'.host.peers ensures ClientFits(r', p) {
        AdmitFits(r, m, r', p, now);
      }
    }
  }

  lemma AdmitRanked(peers: seq<Peer>, k: nat)
    requires UniqueMacs(peers) && Ranked(peers) && k < |peers|
    requires forall i :: k < i < |peers| ==> peers[i].state == ChildPeer
    ensures UniqueMacs(SetState(peers, k, ChildPeer)) && Ranked(SetState(peers, k, ChildPeer))
  {
    var peers' := SetState(peers, k, ChildPeer);
    assert forall i :: 0 <= i < |peers| ==> peers[i] in peers;
    assert forall i :: 0 <= i < |peers'| && i != k ==> peers'[i] == peers[i];
  }

  lemma AdmitReady(r: Room, m: Mac, after: map<Mac, Context>, n: Mac, now: nat)
    requires Agreed(r) && AdmitOutcome(r, m, after, now) && n in after
    requires Waiting(r.clients[m], r.host.mac) && m !in Kids(r.host)
    ensures Ready(after[n], n, Client)
  {
    if n == m {
      KidsDistinct(Host, r.host.peers);
      HostNoKid(r);
      NewcomerAttached(r.clients[m], r.host.mac, Kids(r.host), now);
    }
  }

  lemma HostNoKid(r: Room)
    requires Agreed(r)
    ensures r.host.mac !in Kids(r.host)
  {
    if r.host.mac in Kids(r.host) { KidsAreClients(r, r.host.mac); }
  }

  lemma AdmittedFits(r: Room, m: Mac, r': Room, now: nat)
    requires Agreed(r) && AdmitOutcome(r, m, r'.clients, now) && SameRole(r.host, r'.host)
    requires m in r.clients && m !in Kids(r.host) && r.host.mac !in Kids(r.host)
    requires Waiting(r.clients[m], r.host.mac) && Kids(r'.host) == [m] + Kids(r.host)
    ensures m in r'.clients && Attached(r'.clients[m], r'.host.mac, Kids(r'.host))
  {
    KidsDistinct(Host, r.host.peers);
    NewcomerAttached(r.clients[m], r.host.mac, Kids(r.host), now);
  }

  lemma SiblingFits(r: Room, m: Mac, r': Room, n: Mac, now: nat)
    requires AdmitOutcome(r, m, r'.clients, now) && SameRole(r.host, r'.host)
    requires n in r.clients && n != m && n in Kids(r.host) && Ready(r.clients[n], n, Client)
    requires Attached(r.clients[n], r.host.mac, Kids(r.host))
    requires m !in Kids(r.host) && m != r.host.mac && Kids(r'.host) == [m] + Kids(r.host)
    ensures n in r'.clients && Attached(r'.clients[n], r'.host.mac, Kids(r'.host))
  {
    BirthAttached(r.clients[n], r.host.mac, Kids(r.host), m, now);
  }

  lemma AdmitFits(r: Room, m: Mac, r': Room, p: Peer, now: nat)
    requires Agreed(r) && AdmitOutcome(r, m, r'.clients, now) && SameRole(r.host, r'.host)
    requires FindPeer(r.host.peers, m) < |r.host.peers| && m !in Kids(r.host)
    requires r'.host.peers == SetState(r.host.peers, FindPeer(r.host.peers, m), ChildPeer)
    requires Waiting(r.clients[m], r.host.mac) && Kids(r'.host) == [m] + Kids(r.host)
    requires p in r'.host.peers
    ensures ClientFits(r', p)
  {
    var peers, k := r.host.peers, FindPeer(r.host.peers, m);
    var i :| 0 <= i < |peers| && r'.host.peers[i] == p;
    assert peers[i] in peers && ClientFits(r, peers[i]);
    HostNoKid(r);
    if i == k {
      AdmittedFits(r, m, r', now);
    } else if p.state == ChildPeer {
      ListedMembers(Host, peers, p.mac);
      SiblingFits(r, m, r', p.mac, now);
    } else {
      NotAKid(peers, p);
    }
  }

  // ----- death notices -----

  function Remove(s: seq<Mac>, m: Mac): seq<Mac> {
    if s == [] then [] else if s[0] == m then s[1..] else [s[0]] + Remove(s[1..], m)
  }

  lemma {:induction false} RemoveAbsent(s: seq<Mac>, m: Mac)
    requires m !in s
    ensures Remove(s, m) == s
  {
    if s != [] {
      assert s[0] != m;
      RemoveAbsent(s[1..], m);
    }
  }

  lemma {:induction false} RemoveMembers(s: seq<Mac>, m: Mac, n: Mac)
    requires n != m
    ensures n in Remove(s, m) <==> n in s
  {
    if s != [] && s[0] != m { RemoveMembers(s[1..], m, n); }
  }

  /** Deleting the first peer of a MAC removes that MAC from the listed ones. */
  lemma {:induction false} ListedDelete(mode: Mode, peers: seq<Peer>, k: nat)
    requires UniqueMacs(peers) && k < |peers|
    ensures ListedMacs(mode, Delete(peers, k)) == Remove(ListedMacs(mode, peers), peers[k].mac)
  {
    if k == 0 {
      assert Delete(peers, 0) == peers[1..];
      NotListed(mode, peers[1..], peers[0].mac);
      RemoveAbsent(ListedMacs(mode, peers[1..]), peers[0].mac);
      if !Listed(mode, peers[0]) {
        assert ListedMacs(mode, peers) == ListedMacs(mode, peers[1..]);
      }
    } else {
      assert Delete(peers, k)[1..] == Delete(peers[1..], k - 1);
      ListedDelete(mode, peers[1..], k - 1);
      var head := if Listed(mode, peers[0]) then [peers[0].mac] else [];
      var rest, rest' := ListedMacs(mode, peers[1..]), ListedMacs(mode, Delete(peers[1..], k - 1));
      assert ListedMacs(mode, peers) == head + rest && ListedMacs(mode, Delete(peers, k)) == head + rest';
      assert head != [] ==> (head + rest)[1..] == rest;
      assert head == [] ==> head + rest == rest && head + rest' == rest';
    }
  }

  lemma NotListed(mode: Mode, peers: seq<Peer>, m: Mac)
    requires forall p :: p in peers ==> p.mac != m
    ensures m !in ListedMacs(mode, peers)
  {
    ListedMembers(mode, peers, m);
  }

  /** A child that hears of a death stays attached to what is left. */
  lemma DeathAttached(c: Context, host: Mac, kids: seq<Mac>, dead: Mac)
    requires Ready(c, c.mac, Client) && Attached(c, host, kids) && dead != c.mac && dead != host
    ensures var c' := OnDeath(c, host, dead);
      Ready(c', c.mac, Client) && Attached(c', host, Remove(kids, dead))
  {
    assert FromParent(c, host);
    var d := FindPeer(c.peers, dead);
    if d < |c.peers| {
      assert c.peers[d] in c.peers;
      DeadChildDeleted(c, host, kids, d);
    } else {
      ListedMembers(Client, c.peers, dead);
      RemoveAbsent(kids, dead);
    }
  }

  lemma DeadChildDeleted(c: Context, host: Mac, kids: seq<Mac>, d: nat)
    requires Attached(c, host, kids) && d < |c.peers| && c.peers[d].state == ChildPeer
    requires c.peers[d].mac != c.mac && c.peers[d].mac != host
    ensures Attached(c.(peers := Delete(c.peers, d)), host, Remove(kids, c.peers[d].mac))
  {
    var rest, dead := Delete(c.peers, d), c.peers[d].mac;
    ListedDelete(Client, c.peers, d);
    DeleteFinds(c.peers, d, host);
    DeletedMember(c.peers, d);
    forall p | p in rest && p.mac in kids ensures p.mac in Remove(kids, dead) {
      RemoveMembers(kids, dead, p.mac);
    }
  }

  lemma DeletedMember(peers: seq<Peer>, d: nat)
    requires UniqueMacs(peers) && d < |peers|
    ensures UniqueMacs(Delete(peers, d)) && forall p :: p in Delete(peers, d) ==> p in peers && p.mac != peers[d].mac
  {
    var rest := Delete(peers, d);
    assert forall i :: 0 <= i < |rest| ==> rest[i] == peers[if i < d then i else i + 1];
  }

  lemma {:induction false} FindsFirst(peers: seq<Peer>, host: Mac, k: nat)
    requires k < |peers| && peers[k].mac == host && peers[k].state == ParentPeer
    requires forall i :: 0 <= i < k ==> peers[i].mac != host && peers[i].state != ParentPeer
    ensures FindPeer(peers, host) == k && FindState(peers, ParentPeer) == k
  {
    if k > 0 { FindsFirst(peers[1..], host, k - 1); }
  }

  lemma DeleteFinds(peers: seq<Peer>, d: nat, host: Mac)
    requires UniqueMacs(peers) && d < |peers| && peers[d].mac != host
    requires FindState(peers, ParentPeer) == FindPeer(peers, host) < |peers|
    ensures var rest := Delete(peers, d);
      FindState(rest, ParentPeer) == FindPeer(rest, host) < |rest| && UniqueMacs(rest)
  {
    var k, rest := FindPeer(peers, host), Delete(peers, d);
    assert forall i :: 0 <= i < |rest| ==> rest[i] == peers[if i < d then i else i + 1];
    var j := if k < d then k else k - 1;
    DeletedMember(peers, d);
    FindsFirst(rest, host, j);
  }

  ghost function AfterNotice(c: Context, host: Mac, peers: seq<Peer>, k: int, dead: Mac, now: nat): Context {
    if 0 <= k < |peers| && c.mac == peers[k].mac then OnBye(c, host, now + REMOVAL_DELAY)
    else if c.mac in ListedMacs(Host, peers) then OnDeath(c, host, dead)
    else c
  }

  /** The notice for one peer. */
  function Notice(host: Mac, p: Peer, k: int, dead: Mac): seq<Packet> {
    if k == 0 then [Packet(host, p.mac, Bye)]
    else if p.state == ChildPeer then [Packet(host, p.mac, Death(dead))]
    else []
  }

  ghost function AfterOne(c: Context, host: Mac, p: Peer, k: int, dead: Mac, now: nat): (c': Context)
    ensures SameRole(c, c')
  {
    if c.mac != p.mac then c
    else if k == 0 then OnBye(c, host, now + REMOVAL_DELAY)
    else if p.state == ChildPeer then OnDeath(c, host, dead)
    else c
  }

  lemma NoticeDelivered(clients: map<Mac, Context>, host: Mac, p: Peer, k: int, dead: Mac, now: nat)
    requires p.mac in clients && clients[p.mac].mac == p.mac
    ensures DeliverAll(clients, Notice(host, p, k, dead), now)
      == clients[p.mac := AfterOne(clients[p.mac], host, p, k, dead, now)]
  {
    var notice := Notice(host, p, k, dead);
    if notice != [] {
      OneDelivery(clients, notice[0], now);
    } else {
      assert clients == clients[p.mac := clients[p.mac]];
    }
  }

  lemma NoticeSplit(c: Context, host: Mac, peers: seq<Peer>, k: int, dead: Mac, now: nat)
    requires UniqueMacs(peers) && peers != []
    ensures AfterNotice(c, host, peers, k, dead, now)
      == AfterNotice(AfterOne(c, host, peers[0], k, dead, now), host, peers[1..], k - 1, dead, now)
  {
    assert forall q :: q in peers[1..] ==> q.mac != peers[0].mac;
    NotListed(Host, peers[1..], peers[0].mac);
    ListedConcat(Host, [peers[0]], peers[1..]);
    assert [peers[0]] + peers[1..] == peers;
  }

  lemma FirstNotice(clients: map<Mac, Context>, host: Mac, peers: seq<Peer>, k: int, dead: Mac, now: nat)
    requires peers != [] && peers[0].mac in clients && clients[peers[0].mac].mac == peers[0].mac
    ensures DeliverAll(clients, DeathNotices(host, peers, k, dead), now)
      == DeliverAll(clients[peers[0].mac := AfterOne(clients[peers[0].mac], host, peers[0], k, dead, now)],
                    DeathNotices(host, peers[1..], k - 1, dead), now)
  {
    NoticeDelivered(clients, host, peers[0], k, dead, now);
    DeliverConcat(clients, Notice(host, peers[0], k, dead), DeathNotices(host, peers[1..], k - 1, dead), now);
  }

  /** The notices of a death reach the dead child and every other child, once each. */
  lemma {:induction false} DeathsDelivered(clients: map<Mac, Context>, host: Mac, peers: seq<Peer>, k: int, dead: Mac, now: nat)
    requires UniqueMacs(peers) && forall m :: m in clients ==> clients[m].mac == m
    requires forall p :: p in peers ==> p.mac in clients
    ensures var after := DeliverAll(clients, DeathNotices(host, peers, k, dead), now);
      && after.Keys == clients.Keys
      && (forall m :: m in clients ==> after[m] == AfterNotice(clients[m], host, peers, k, dead, now))
    decreases |peers|
  {
    if peers != [] {
      var p := peers[0];
      assert p in peers;
      var clients1 := clients[p.mac := AfterOne(clients[p.mac], host, p, k, dead, now)];
      FirstNotice(clients, host, peers, k, dead, now);
      assert forall q :: q in peers[1..] ==> q in peers;
      DeathsDelivered(clients1, host, peers[1..], k - 1, dead, now);
      forall m | m in clients
        ensures AfterNotice(clients1[m], host, peers[1..], k - 1, dead, now) == AfterNotice(clients[m], host, peers, k, dead, now)
      {
        RestOfNotices(clients, m, host, peers, k, dead, now);
      }
    }
  }

  lemma RestOfNotices(clients: map<Mac, Context>, m: Mac, host: Mac, peers: seq<Peer>, k: int, dead: Mac, now: nat)
    requires UniqueMacs(peers) && peers != [] && peers[0].mac in clients && m in clients && clients[m].mac == m
    ensures var p := peers[0];
      var c := clients[p.mac := AfterOne(clients[p.mac], host, p, k, dead, now)][m];
      AfterNotice(c, host, peers[1..], k - 1, dead, now) == AfterNotice(clients[m], host, peers, k, dead, now)
  {
    NoticeSplit(clients[m], host, peers, k, dead, now);
  }

  lemma DeathKeepsAgreement(r: Room, dead: Mac, now: nat)
    requires Agreed(r)
    ensures var (host, ps) := SendDeath(r.host, dead);
      Agreed(Room(host, DeliverAll(r.clients, ps, now)))
  {
    var peers, k := r.host.peers, FindPeer(r.host.peers, dead);
    if k < |peers| {
      forall p | p in peers ensures p.mac in r.clients {
        assert ClientFits(r, p);
      }
      DeathsDelivered(r.clients, r.host.mac, peers, k, dead, now);
      ListedDelete(Host, peers, k);
      DeleteRanked(peers, k);
      var (host, ps) := SendDeath(r.host, dead);
      var r' := Room(host, DeliverAll(r.clients, ps, now));
      assert host.peers == Delete(peers, k);
      assert forall m :: m in r.clients ==> r'.clients[m] == AfterNotice(r.clients[m], r.host.mac, peers, k, dead, now);
      forall p | p in host.peers ensures ClientFits(r', p) {
        DeathFits(r, r', k, p, now);
      }
      forall m | m in r'.clients ensures Ready(r'.clients[m], m, Client) {
        NoticeReady(r.clients[m], r.host.mac, peers, k, dead, now);
      }
    }
  }

  lemma NoticeReady(c: Context, host: Mac, peers: seq<Peer>, k: int, dead: Mac, now: nat)
    requires Ready(c, c.mac, Client)
    ensures Ready(AfterNotice(c, host, peers, k, dead, now), c.mac, Client)
  {
  }

  lemma DeleteRanked(peers: seq<Peer>, k: nat)
    requires UniqueMacs(peers) && Ranked(peers) && k < |peers|
    ensures UniqueMacs(Delete(peers, k)) && Ranked(Delete(peers, k))
    ensures forall p :: p in Delete(peers, k) ==> p in peers && p.mac != peers[k].mac
  {
    var rest := Delete(peers, k);
    assert forall i :: 0 <= i < |rest| ==> rest[i] == peers[if i < k then i else i + 1];
    assert forall i :: 0 <= i < |peers| ==> peers[i] in peers;
  }

  lemma DeathFits(r: Room, r': Room, k: nat, p: Peer, now: nat)
    requires Agreed(r) && k < |r.host.peers| && r'.host.mac == r.host.mac
    requires p in r.host.peers && p.mac != r.host.peers[k].mac
    requires Kids(r'.host) == Remove(Kids(r.host), r.host.peers[k].mac)
    requires r'.clients.Keys == r.clients.Keys
    requires p.mac in r.clients ==>
      r'.clients[p.mac] == AfterNotice(r.clients[p.mac], r.host.mac, r.host.peers, k, r.host.peers[k].mac, now)
    ensures ClientFits(r', p)
  {
    assert ClientFits(r, p);
    assert r.host.peers[k] in r.host.peers && ClientFits(r, r.host.peers[k]);
    if p.state == ChildPeer {
      ListedMembers(Host, r.host.peers, p.mac);
      DeathAttached(r.clients[p.mac], r.host.mac, Kids(r.host), r.host.peers[k].mac);
    } else {
      NotAKid(r.host.peers, p);
    }
  }

  lemma SpawnKeepsAgreement(r: Room, kind: EventKind, mac: Mac)
    requires Agreed(r)
    ensures Agreed(r.(host := Spawn(r.host, kind, mac)))
  {
    var r' := r.(host := Spawn(r.host, kind, mac));
    forall p | p in r'.host.peers ensures ClientFits(r', p) {
      assert ClientFits(r, p);
    }
  }

  lemma TurnKeepsAgreement(r: Room, k: nat, now: nat)
    requires Agreed(r) && k < |r.host.peers|
    ensures var (host, ps, _) := PeerTurn(r.host, k, now);
      Agreed(Room(host, DeliverAll(r.clients, ps, now)))
  {
    var c := r.host;
    var p := c.peers[k];
    var r1 := if TimeoutEventDue(c.mode, p.state) then r.(host := Spawn(c, TimeoutEvent, p.mac)) else r;
    SpawnKeepsAgreement(r, TimeoutEvent, p.mac);
    assert p.mac != c.mac by {
      assert p in c.peers && ClientFits(r, p);
    }
    DeathKeepsAgreement(r1, p.mac, now);
  }

  lemma {:induction false} TimeoutKeepsAgreement(r: Room, k: nat, now: nat)
    requires Agreed(r)
    ensures var (host, ps) := TimeoutWalk(r.host, k, now);
      Agreed(Room(host, DeliverAll(r.clients, ps, now)))
    decreases |r.host.peers| - k
  {
    if k < |r.host.peers| {
      TurnKeepsAgreement(r, k, now);
      var (host, ps, gone) := PeerTurn(r.host, k, now);
      var next := if gone then k else k + 1;
      TimeoutKeepsAgreement(Room(host, DeliverAll(r.clients, ps, now)), next, now);
      DeliverConcat(r.clients, ps, TimeoutWalk(host, next, now).1, now);
    }
  }

  // ----- steps that only move timers -----

  ghost predicate Retimed(peers: seq<Peer>, peers': seq<Peer>) {
    && |peers'| == |peers|
    && forall i :: 0 <= i < |peers| ==> peers'[i].mac == peers[i].mac && peers'[i].state == peers[i].state
  }

  lemma {:induction false} RetimedFinds(peers: seq<Peer>, peers': seq<Peer>, mac: Mac, state: PeerState)
    requires Retimed(peers, peers')
    ensures FindPeer(peers', mac) == FindPeer(peers, mac) && FindState(peers', state) == FindState(peers, state)
  {
    if peers != [] { RetimedFinds(peers[1..], peers'[1..], mac, state); }
  }

  lemma {:induction false} RetimedListed(mode: Mode, peers: seq<Peer>, peers': seq<Peer>)
    requires Retimed(peers, peers')
    ensures ListedMacs(mode, peers') == ListedMacs(mode, peers)
  {
    if peers != [] { RetimedListed(mode, peers[1..], peers'[1..]); }
  }

  /** A peer after the change stands for the one at its place before. */
  lemma RetimedPeer(peers: seq<Peer>, peers': seq<Peer>, p: Peer)
    requires Retimed(peers, peers') && p in peers'
    ensures exists q :: q in peers && q.mac == p.mac && q.state == p.state
  {
    var i :| 0 <= i < |peers'| && peers'[i] == p;
    assert peers[i] in peers;
  }

  lemma RetimedAttached(c: Context, peers': seq<Peer>, host: Mac, kids: seq<Mac>)
    requires Attached(c, host, kids) && Retimed(c.peers, peers')
    ensures Attached(c.(peers := peers'), host, kids)
  {
    RetimedFinds(c.peers, peers', host, ParentPeer);
    RetimedListed(Client, c.peers, peers');
    forall p | p in peers'
      ensures exists q :: q in c.peers && q.mac == p.mac && q.state == p.state
    {
      RetimedPeer(c.peers, peers', p);
    }
  }

  lemma RetimedWaiting(c: Context, peers': seq<Peer>, host: Mac)
    requires Waiting(c, host) && Retimed(c.peers, peers')
    ensures Waiting(c.(peers := peers'), host)
  {
    RetimedFinds(c.peers, peers', host, OutgoingRequest);
    forall p | p in peers'
      ensures exists q :: q in c.peers && q.mac == p.mac && q.state == p.state
    {
      RetimedPeer(c.peers, peers', p);
    }
  }

  lemma RetimedClientKeeps(r: Room, m: Mac, peers': seq<Peer>)
    requires Agreed(r) && m in r.clients && Retimed(r.clients[m].peers, peers')
    ensures Agreed(r.(clients := r.clients[m := r.clients[m].(peers := peers')]))
  {
    var c := r.clients[m];
    forall p | p in r.host.peers && p.mac == m
      ensures p.state == ChildPeer ==> Attached(c.(peers := peers'), r.host.mac, Kids(r.host))
      ensures p.state == IncomingRequest ==> Waiting(c.(peers := peers'), r.host.mac)
    {
      assert ClientFits(r, p);
      if p.state == ChildPeer { RetimedAttached(c, peers', r.host.mac, Kids(r.host)); }
      if p.state == IncomingRequest { RetimedWaiting(c, peers', r.host.mac); }
    }
    ReplaceClient(r, m, c.(peers := peers'));
  }

  lemma RetimedHostKeeps(r: Room, peers': seq<Peer>)
    requires Agreed(r) && Retimed(r.host.peers, peers')
    ensures Agreed(r.(host := r.host.(peers := peers')))
  {
    var r' := r.(host := r.host.(peers := peers'));
    RetimedListed(Host, r.host.peers, peers');
    forall p | p in peers'
      ensures (p.state == ChildPeer || p.state == IncomingRequest) && ClientFits(r', p)
    {
      RetimedPeer(r.host.peers, peers', p);
      var q :| q in r.host.peers && q.mac == p.mac && q.state == p.state;
      assert ClientFits(r, q);
    }
  }

  lemma EventsKeep(r: Room, events: seq<Event>)
    requires Agreed(r)
    ensures Agreed(r.(host := r.host.(events := events)))
  {
    var r' := r.(host := r.host.(events := events));
    forall p | p in r'.host.peers ensures ClientFits(r', p) {
      assert ClientFits(r, p);
    }
  }

  lemma PingRetimes(c: Context, src: Mac, now: nat)
    ensures OnPing(c, src, now) == c.(peers := OnPing(c, src, now).peers)
    ensures Retimed(c.peers, OnPing(c, src, now).peers)
  {
  }

  lemma ListingRetimes(c: Context, room: nat, now: nat)
    ensures Retimed(c.peers, PeersAfter(c, room, now))
  {
  }

  /** At a host, and wherever nobody is missing, the walk over the peers drops none of them. */
  lemma {:induction false} RefreshRetimes(c: Context, k: nat, now: nat, missing: set<Mac>)
    requires c.mode == Host || missing == {}
    ensures var c' := AdhocctlWalk(c, k, now, missing);
      c' == c.(peers := c'.peers, events := c'.events) && Retimed(c.peers, c'.peers)
    decreases |c.peers| - k
  {
    if k < |c.peers| {
      VisitRetimes(c, k, now, missing);
      RefreshRetimes(AdhocctlVisit(c, k, now, missing).0, k + 1, now, missing);
    }
  }

  lemma {:induction false} QuietRefresh(c: Context, k: nat, now: nat)
    ensures AdhocctlWalk(c, k, now, {}).events == c.events
    decreases |c.peers| - k
  {
    if k < |c.peers| {
      VisitRetimes(c, k, now, {});
      QuietRefresh(AdhocctlVisit(c, k, now, {}).0, k + 1, now);
    }
  }

  lemma VisitRetimes(c: Context, k: nat, now: nat, missing: set<Mac>)
    requires (c.mode == Host || missing == {}) && k < |c.peers|
    ensures var (c', next) := AdhocctlVisit(c, k, now, missing);
      c' == c.(peers := c'.peers, events := c'.events) && Retimed(c.peers, c'.peers) && next == k + 1
  {
  }

  // ----- main result -----

  lemma StepKeepsAgreement(r: Room, s: RoomStep)
    requires Agreed(r)
    ensures Agreed(ApplyRoom(r, s))
  {
    match s {
      case HelloTo(m, src, now) => if m in r.clients { HelloKeepsAgreement(r, m, src, now); }
      case Ask(m, now) => if m in r.clients && Idle(r.clients[m]) { AskKeepsAgreement(r, m, now); }
      case Admit(m, now) => if NextInLine(r.host.peers, m) { AdmitKeepsAgreement(r, m, now); }
      case Deaths(now) => TimeoutKeepsAgreement(r, 0, now);
      case _ => TimersKeepAgreement(r, s);
    }
  }

  lemma TimersKeepAgreement(r: Room, s: RoomStep)
    requires Agreed(r) && !s.HelloTo? && !s.Ask? && !s.Admit? && !s.Deaths?
    ensures Agreed(ApplyRoom(r, s))
  {
    match s {
      case PingClient(m, src, now) =>
        if m in r.clients {
          PingRetimes(r.clients[m], src, now);
          RetimedClientKeeps(r, m, OnPing(r.clients[m], src, now).peers);
        }
      case PingHost(src, now) =>
        PingRetimes(r.host, src, now);
        RetimedHostKeeps(r, OnPing(r.host, src, now).peers);
      case ListClient(m, room, now) =>
        if m in r.clients {
          ListingRetimes(r.clients[m], room, now);
          RetimedClientKeeps(r, m, PeersAfter(r.clients[m], room, now));
        }
      case ListHost(room, now) =>
        ListingRetimes(r.host, room, now);
        RetimedHostKeeps(r, PeersAfter(r.host, room, now));
      case RefreshClient(m, now) =>
        if m in r.clients {
          RefreshRetimes(r.clients[m], 0, now, {});
          QuietRefresh(r.clients[m], 0, now);
          RetimedClientKeeps(r, m, AdhocctlWalk(r.clients[m], 0, now, {}).peers);
        }
      case RefreshHost(now, missing) =>
        RefreshRetimes(r.host, 0, now, missing);
        var host := AdhocctlWalk(r.host, 0, now, missing);
        EventsKeep(r, host.events);
        RetimedHostKeeps(r.(host := r.host.(events := host.events)), host.peers);
    }
  }

  ghost predicate FreshRoom(r: Room) {
    && Ready(r.host, r.host.mac, Host) && r.host.peers == [] && r.host.mac !in r.clients
    && forall m :: m in r.clients ==> Ready(r.clients[m], m, Client) && r.clients[m].peers == []
  }

  lemma {:induction false} RunAgreed(start: Room, steps: seq<RoomStep>)
    requires FreshRoom(start)
    ensures Agreed(RunRoom(start, steps))
  {
    if steps != [] {
      var r := RunRoom(start, steps[..|steps| - 1]);
      RunAgreed(start, steps[..|steps| - 1]);
      StepKeepsAgreement(r, steps[|steps| - 1]);
    }
  }

  /** After every step, the host and each client it holds as child return the same MACs in the
      same order. */
  lemma MembersAgree(start: Room, steps: seq<RoomStep>, p: Peer)
    requires FreshRoom(start)
    requires p in RunRoom(start, steps).host.peers && p.state == ChildPeer
    ensures var r := RunRoom(start, steps);
      p.mac in r.clients && Members(r.clients[p.mac]) == Members(r.host)
  {
    RunAgreed(start, steps);
    AgreedMembers(RunRoom(start, steps), p);
  }
}
