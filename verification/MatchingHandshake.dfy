/** Handshakes complete: two nodes that select each other, and exchange the packets this makes them
    send, end up as partners, or as host and child, and list the same members. */
module MatchingHandshake {
  import opened MatchingSpec
  import opened MatchingInvariant
  import opened MatchingEffects
  import opened MatchingMembers
  import opened MatchingWorld

  /** A started context that has sent everything. */
  ghost predicate Settled(c: Context, mode: Mode) {
    c.mode == mode && c.running && c.stack == []
  }

  ghost predicate Nobody(c: Context, state: PeerState) {
    forall i :: 0 <= i < |c.peers| ==> c.peers[i].state != state
  }

  lemma StateKnown(c: Context, state: PeerState)
    ensures HasState(c.peers, state) <==> !Nobody(c, state)
  {
  }

  // --- Two partners ---

  /** An offer that is selected makes the node ask, once, and that node alone. */
  lemma PairAsks(b: Context, a: Mac, k: nat)
    requires Settled(b, Pair) && Nobody(b, PairPeer) && Nobody(b, OutgoingRequest)
    requires Knows(b, k, a) && b.peers[k].state == Offer
    ensures var (b1, r) := SelectTarget(b, a);
      && r == Success
      && Drain(b1) == (b.(peers := b.peers[k := b.peers[k].(state := OutgoingRequest, joining := true)]),
                       [Packet(b.mac, a, Join)])
  {
    Found(b, k, a);
    StateKnown(b, PairPeer);
    StateKnown(b, OutgoingRequest);
    var b1 := SelectTarget(b, a).0;
    FindUnmoved(b.peers, b1.peers, a);
    assert b1.stack == [JoinMessage(a)];
    OneMessage(b1, JoinMessage(a));
  }

  /** A join request to a node without a partner is recorded, reported and not answered. */
  lemma PairRecords(a: Context, b: Mac, now: nat) returns (k: nat)
    requires a.mode == Pair && Nobody(a, PairPeer)
    ensures var (a', ps) := OnPacket(a, b, Join, now);
      && ps == [] && Knows(a', k, b) && a'.events == [Event(RequestEvent, b)] + a.events
      && a'.peers[k] == Peer(b, IncomingRequest, now, now, true)
      && a' == a.(peers := a'.peers, events := a'.events)
      && ((k == 0 && a'.peers[1..] == a.peers) || (Knows(a, k, b) && a'.peers == a.peers[k := a'.peers[k]]))
  {
    StateKnown(a, PairPeer);
    k := FindPeer(a.peers, b);
    if k == |a.peers| {
      k := 0;
    }
  }

  /** A request that is selected makes the asker the partner and tells it so. */
  lemma PairAccepts(a: Context, b: Mac, k: nat)
    requires Settled(a, Pair) && Nobody(a, PairPeer) && Nobody(a, OutgoingRequest)
    requires Knows(a, k, b) && a.peers[k].state == IncomingRequest
    ensures var (a1, r) := SelectTarget(a, b);
      && r == Success
      && Drain(a1) == (a.(peers := a.peers[k := a.peers[k].(state := PairPeer, joining := true)],
                          events := [Event(EstablishedEvent, b)] + a.events),
                       [Packet(a.mac, b, Accept([]))])
  {
    Found(a, k, b);
    StateKnown(a, PairPeer);
    StateKnown(a, OutgoingRequest);
    var a1 := SelectTarget(a, b).0;
    FindUnmoved(a.peers, a1.peers, b);
    assert a1.stack == [AcceptMessage(b)];
    OneMessage(a1, AcceptMessage(b));
  }

  lemma {:induction false} FindUnmoved(peers: seq<Peer>, peers': seq<Peer>, mac: Mac)
    requires |peers| == |peers'| && forall i :: 0 <= i < |peers| ==> peers[i].mac == peers'[i].mac
    ensures FindPeer(peers, mac) == FindPeer(peers', mac)
  {
    if peers != [] { FindUnmoved(peers[1..], peers'[1..], mac); }
  }

  /** The answer makes the asked node the partner; whoever is neither partner nor child is forgotten. */
  lemma PairEstablished(b: Context, a: Mac, k: nat, now: nat)
    requires b.mode == Pair && Nobody(b, PairPeer) && Knows(b, k, a)
    requires b.peers[k].state == OutgoingRequest && FirstOfState(b, k)
    ensures var (b', ps) := OnPacket(b, a, Accept([]), now);
      && ps == [] && b'.events == [Event(AcceptEvent, a), Event(EstablishedEvent, a)] + b.events
      && b' == b.(peers := b'.peers, events := b'.events)
      && (exists p :: p in b'.peers && p.mac == a && p.state == PairPeer)
      && (forall p :: p in b'.peers && p.state == PairPeer ==> p.mac == a)
      && (forall p :: p in b'.peers ==> Needed(p))
  {
    Found(b, k, a);
    FoundState(b, k, OutgoingRequest);
    StateKnown(b, PairPeer);
    var partner := b.peers[k].(state := PairPeer, joining := true);
    var peers := b.peers[k := partner];
    CleanCount(peers, {});
    CleanHolds(peers, k);
    forall p | p in Clean(peers) && p.state == PairPeer ensures p.mac == a {
      var i :| 0 <= i < |peers| && peers[i] == p;
      assert i == k;
    }
  }

  lemma {:induction false} CleanHolds(peers: seq<Peer>, k: nat)
    requires k < |peers| && Needed(peers[k])
    ensures peers[k] in Clean(peers)
  {
    if k > 0 { CleanHolds(peers[1..], k - 1); }
  }

  /** A pair node lists itself and its partner. */
  lemma PairMembers(c: Context, a: Mac)
    requires c.mode == Pair && exists p :: p in c.peers && p.mac == a && p.state == PairPeer
    requires forall p :: p in c.peers && p.state == PairPeer ==> p.mac == a
    ensures Members(c) == [c.mac, a]
  {
    StateKnown(c, PairPeer);
    var p :| p in c.peers && p.mac == a && p.state == PairPeer;
    var i :| 0 <= i < |c.peers| && c.peers[i] == p;
    assert c.peers[FindState(c.peers, PairPeer)] in c.peers;
  }

  /** From an offer to partners: b selects the offer of a, a hears the request and selects b, b hears
      the answer. Each step succeeds and sends what the next one needs, and nothing else; both then
      list exactly the two of them. */
  lemma PairHandshake(a: Context, b: Context, k: nat, now: nat, later: nat)
    requires Settled(a, Pair) && Nobody(a, PairPeer) && Nobody(a, OutgoingRequest)
    requires Settled(b, Pair) && Nobody(b, PairPeer) && Nobody(b, OutgoingRequest)
    requires Knows(b, k, a.mac) && b.peers[k].state == Offer
    ensures var (b1, asked) := SelectTarget(b, a.mac);
      var (b2, join) := Drain(b1);
      var (a1, answer) := OnPacket(a, b.mac, Join, now);
      var (a2, accepted) := SelectTarget(a1, b.mac);
      var (a3, accept) := Drain(a2);
      var (b3, more) := OnPacket(b2, a.mac, Accept([]), later);
      && asked == accepted == Success
      && join == [Packet(b.mac, a.mac, Join)] && answer == []
      && accept == [Packet(a.mac, b.mac, Accept([]))] && more == []
      && Members(a3) == [a.mac, b.mac] && Members(b3) == [b.mac, a.mac]
  {
    PairAsks(b, a.mac, k);
    var b2 := Drain(SelectTarget(b, a.mac).0).0;
    var j := PairRecords(a, b.mac, now);
    var a1 := OnPacket(a, b.mac, Join, now).0;
    PairRecorded(a, a1, j);
    PairAccepts(a1, b.mac, j);
    PairPartner(a1, Drain(SelectTarget(a1, b.mac).0).0, b.mac, j);
    PairEstablished(b2, a.mac, k, later);
    PairMembers(OnPacket(b2, a.mac, Accept([]), later).0, a.mac);
  }

  lemma PairRecorded(a: Context, a1: Context, j: nat)
    requires Nobody(a, PairPeer) && Nobody(a, OutgoingRequest) && j < |a1.peers| && a1.peers[j].state == IncomingRequest
    requires (j == 0 && a1.peers[1..] == a.peers) || (j < |a.peers| && a1.peers == a.peers[j := a1.peers[j]])
    ensures Nobody(a1, PairPeer) && Nobody(a1, OutgoingRequest)
  {
    if a1.peers[1..] == a.peers && j == 0 {
      assert forall i :: 0 < i < |a1.peers| ==> a1.peers[i] == a.peers[i - 1];
    }
  }

  lemma PairPartner(a: Context, a': Context, b: Mac, k: nat)
    requires a.mode == Pair && Nobody(a, PairPeer) && Knows(a, k, b)
    requires a'.mode == Pair && a'.mac == a.mac && a'.peers == a.peers[k := a.peers[k].(state := PairPeer, joining := true)]
    ensures Members(a') == [a.mac, b]
  {
    assert a'.peers[k] in a'.peers;
    forall p | p in a'.peers && p.state == PairPeer ensures p.mac == b {
      var i :| 0 <= i < |a'.peers| && a'.peers[i] == p;
      assert i == k;
    }
    PairMembers(a', b);
  }

  /** From partners to strangers: a cancels b and forgets it at once; b hears of it, and forgets a
      with the first timeout that comes the removal delay and b's timeout later. */
  lemma PairParting(a: Context, b: Context, j: nat, k: nat, now: nat, later: nat)
    requires Settled(a, Pair) && UniqueMacs(a.peers) && Knows(a, j, b.mac) && a.peers[j].state == PairPeer
    requires Settled(b, Pair) && UniqueMacs(b.peers) && Knows(b, k, a.mac) && b.peers[k].state == PairPeer
    requires forall i :: 0 <= i < |a.peers| && i != j ==> a.peers[i].state != PairPeer
    requires forall i :: 0 <= i < |b.peers| && i != k ==> b.peers[i].state != PairPeer
    requires a.mac != b.mac && b.keepalive != 0 && b.timeout > 0 && later >= now + 120000 + b.timeout
    ensures var (a1, r) := CancelTarget(a, b.mac);
      var (a2, ps) := Drain(a1);
      var (b1, answer) := OnPacket(b, a.mac, Cancel, now);
      var b2 := HandleTimeout(b1, later).0;
      && r == Success && ps == [Packet(a.mac, b.mac, Cancel)] && answer == []
      && b1.events == [Event(LeaveEvent, a.mac)] + b.events
      && Members(a2) == [a.mac] && Members(b2) == [b.mac]
  {
    Canceller(a, b.mac, j);
    CancelReported(b, a.mac, k, now + 120000);
    var b1 := OnPacket(b, a.mac, Cancel, now).0;
    PartnerLeaves(b1, k, later);
  }

  lemma Canceller(a: Context, b: Mac, j: nat)
    requires Settled(a, Pair) && UniqueMacs(a.peers) && Knows(a, j, b) && a.peers[j].state == PairPeer
    requires forall i :: 0 <= i < |a.peers| && i != j ==> a.peers[i].state != PairPeer
    ensures var (a1, r) := CancelTarget(a, b);
      var (a2, ps) := Drain(a1);
      r == Success && ps == [Packet(a.mac, b, Cancel)] && Members(a2) == [a.mac]
  {
    CancelSends(a, b, j);
    var a2 := Drain(CancelTarget(a, b).0).0;
    assert forall i :: 0 <= i < |a2.peers| ==> a2.peers[i] == a.peers[if i < j then i else i + 1];
    Alone(a2);
  }

  lemma PartnerLeaves(b: Context, k: nat, later: nat)
    requires b.mode == Pair && UniqueMacs(b.peers) && k < |b.peers| && Leaves(b, b.peers[k], later) && b.keepalive != 0
    requires forall i :: 0 <= i < |b.peers| && i != k ==> b.peers[i].state != PairPeer
    ensures Members(HandleTimeout(b, later).0) == [b.mac]
  {
    TimeoutEffect(b, later);
    var b' := HandleTimeout(b, later).0;
    forall i | 0 <= i < |b'.peers| ensures b'.peers[i].state != PairPeer {
      assert b'.peers[i] in Staying(b, b.peers, later);
    }
    Alone(b');
  }

  lemma Alone(c: Context)
    requires c.mode == Pair && Nobody(c, PairPeer)
    ensures Members(c) == [c.mac]
  {
    StateKnown(c, PairPeer);
  }

  // --- A host and its child ---

  ghost function ChildMacs(peers: seq<Peer>): seq<Mac> {
    if peers == [] then []
    else (if peers[0].state == ChildPeer then [peers[0].mac] else []) + ChildMacs(peers[1..])
  }

  lemma {:induction false} ChildrenCounted(peers: seq<Peer>)
    ensures |ChildMacs(peers)| == CountChildren(peers) && ChildMacs(peers) == ListedMacs(Host, peers)
    ensures forall m :: m in ChildMacs(peers) <==> exists p :: p in peers && p.state == ChildPeer && p.mac == m
  {
    if peers != [] {
      assert peers == [peers[0]] + peers[1..];
      ChildrenCounted(peers[1..]);
    }
  }

  lemma {:induction false} OtherChildren(peers: seq<Peer>, peers': seq<Peer>, k: int)
    requires |peers| == |peers'|
    requires forall i :: 0 <= i < |peers| && i != k ==> peers[i] == peers'[i]
    requires 0 <= k < |peers| ==> peers[k].state != ChildPeer
    ensures Siblings(peers', k) == ChildMacs(peers)
  {
    if peers != [] { OtherChildren(peers[1..], peers'[1..], k - 1); }
  }

  /** A request at a host with room is recorded in front, reported and not answered. */
  lemma HostRecords(h: Context, m: Mac, now: nat)
    requires h.mode == Host && |ChildMacs(h.peers)| < h.maxpeers - 1
    requires forall i :: 0 <= i < |h.peers| ==> h.peers[i].mac != m
    ensures OnPacket(h, m, Join, now) ==
      (h.(peers := [Peer(m, IncomingRequest, now, now, false)] + h.peers, events := [Event(RequestEvent, m)] + h.events), [])
  {
    ChildrenCounted(h.peers);
  }

  /** A request at a host without room is refused. */
  lemma HostRefuses(h: Context, m: Mac, now: nat)
    requires h.mode == Host && |ChildMacs(h.peers)| >= h.maxpeers - 1
    requires forall i :: 0 <= i < |h.peers| ==> h.peers[i].mac != m
    ensures OnPacket(h, m, Join, now) == (h, [Packet(h.mac, m, Cancel)])
  {
    ChildrenCounted(h.peers);
  }

  /** A request that is selected makes the asker a child. Its birth goes to each earlier child, and
      then the acceptance with all of them to the asker. */
  lemma HostAccepts(h: Context, m: Mac, k: nat)
    requires Settled(h, Host) && Knows(h, k, m) && h.peers[k].state == IncomingRequest
    requires |ChildMacs(h.peers)| < h.maxpeers - 1
    ensures var (h1, r), kids := SelectTarget(h, m), ChildMacs(h.peers);
      && r == Success
      && Drain(h1) == (h.(peers := h.peers[k := h.peers[k].(state := ChildPeer)],
                          events := [Event(EstablishedEvent, m)] + h.events),
                       Sent(h.mac, kids, Birth(m)) + [Packet(h.mac, m, Accept(kids))])
  {
    Found(h, k, m);
    ChildrenCounted(h.peers);
    var h1 := SelectTarget(h, m).0;
    FindUnmoved(h.peers, h1.peers, m);
    OtherChildren(h.peers, h1.peers, k);
    assert h1.stack == [BirthMessage(m), AcceptMessage(m)];
    TwoMessages(h1, BirthMessage(m), AcceptMessage(m));
    assert ToAll(h.mac, ChildMacs(h.peers), Birth(m)) == Sent(h.mac, ChildMacs(h.peers), Birth(m));
  }

  /** A full host selects nobody. */
  lemma FullHostSelectsNobody(h: Context, m: Mac, k: nat)
    requires Settled(h, Host) && Knows(h, k, m) && h.peers[k].state != ChildPeer
    requires |ChildMacs(h.peers)| == h.maxpeers - 1
    ensures SelectTarget(h, m) == (h, ExceedMaxnum)
  {
    Found(h, k, m);
    ChildrenCounted(h.peers);
  }

  /** What the acceptance makes of a client that asked: it lists the host, the children the host
      named, from the last to the first, and itself. */
  lemma ClientEstablished(c: Context, host: Mac, kids: seq<Mac>, now: nat)
    requires Ready(c, c.mac, Client) && Waiting(c, host)
    requires c.mac != host && c.mac !in kids && host !in kids && DistinctMacs(kids)
    ensures var (c', ps) := OnPacket(c, host, Accept(kids), now);
      && ps == [] && c'.events == [Event(AcceptEvent, host), Event(EstablishedEvent, host)] + c.events
      && Members(c') == [host] + Reverse([c.mac] + kids)
  {
    ClientHears(c, host, kids, now);
    NewcomerMembers(c, host, kids, now);
  }

  lemma ClientHears(c: Context, host: Mac, kids: seq<Mac>, now: nat)
    requires c.mode == Client && Waiting(c, host)
    requires c.mac != host && c.mac !in kids && host !in kids && DistinctMacs(kids)
    ensures OnAccept(c, host, kids, now).events == [Event(AcceptEvent, host), Event(EstablishedEvent, host)] + c.events
  {
    NewcomerList(c, host, kids, now);
  }

  lemma NewcomerMembers(c: Context, host: Mac, kids: seq<Mac>, now: nat)
    requires Ready(c, c.mac, Client) && Waiting(c, host)
    requires c.mac != host && c.mac !in kids && host !in kids && DistinctMacs(kids)
    ensures Members(OnAccept(c, host, kids, now)) == [host] + Reverse([c.mac] + kids)
  {
    NewcomerAttached(c, host, kids, now);
    AttachedMembers(OnAccept(c, host, kids, now), host, [c.mac] + kids);
  }

  lemma AttachedMembers(c: Context, host: Mac, kids: seq<Mac>)
    requires c.mode == Client && Attached(c, host, kids)
    ensures Members(c) == [host] + Reverse(kids)
  {
    ListedReverse(Client, c.peers);
  }

  /** From an offer to a child: the client selects the offer, the host hears the request and selects
      the client, the client hears the acceptance. Both then list the host, the earlier children as
      they came, and the client. */
  lemma HostHandshake(c: Context, h: Context, now: nat, later: nat)
    requires Settled(c, Client) && Idle(c) && c.mac != h.mac && exists p :: p in c.peers && p.mac == h.mac
    requires Settled(h, Host) && UniqueMacs(h.peers) && |ChildMacs(h.peers)| < h.maxpeers - 1
    requires forall p :: p in h.peers ==> p.mac != c.mac && p.mac != h.mac
    ensures var kids := ChildMacs(h.peers);
      var (c1, asked) := SelectTarget(c, h.mac);
      var (c2, join) := Drain(c1);
      var (h1, answer) := OnPacket(h, c.mac, Join, now);
      var (h2, accepted) := SelectTarget(h1, c.mac);
      var (h3, told) := Drain(h2);
      var (c3, more) := OnPacket(c2, h.mac, Accept(kids), later);
      && asked == accepted == Success
      && join == [Packet(c.mac, h.mac, Join)] && answer == []
      && told == Sent(h.mac, kids, Birth(c.mac)) + [Packet(h.mac, c.mac, Accept(kids))] && more == []
      && Members(c3) == Members(h3) == [h.mac] + Reverse([c.mac] + kids)
  {
    var kids := ChildMacs(h.peers);
    ClientAsks(c, h.mac);
    var c2 := Drain(SelectTarget(c, h.mac).0).0;
    HostRecords(h, c.mac, now);
    var h1 := OnPacket(h, c.mac, Join, now).0;
    assert h1.peers[1..] == h.peers && ChildMacs(h1.peers) == kids;
    HostAccepts(h1, c.mac, 0);
    var h3 := Drain(SelectTarget(h1, c.mac).0).0;
    KidsApart(h, c.mac);
    ClientEstablished(c2, h.mac, kids, later);
    NewChildListed(h, h1.peers[0].(state := ChildPeer), h3);
  }

  lemma KidsApart(h: Context, m: Mac)
    requires UniqueMacs(h.peers) && forall p :: p in h.peers ==> p.mac != m && p.mac != h.mac
    ensures var kids := ChildMacs(h.peers); DistinctMacs(kids) && m !in kids && h.mac !in kids
  {
    ChildrenCounted(h.peers);
    KidsDistinct(Host, h.peers);
  }

  lemma NewChildListed(h: Context, p: Peer, h': Context)
    requires h.mode == h'.mode == Host && h'.mac == h.mac && h'.peers == [p] + h.peers && p.state == ChildPeer
    ensures Members(h') == [h.mac] + Reverse([p.mac] + ChildMacs(h.peers))
  {
    assert h'.peers[1..] == h.peers;
    ChildrenCounted(h'.peers);
    ListedReverse(Host, h'.peers);
  }

  /** An offer that is selected makes the client ask, once, and that host alone. */
  lemma ClientAsks(c: Context, host: Mac)
    requires Settled(c, Client) && Idle(c) && exists p :: p in c.peers && p.mac == host
    ensures var (c1, r) := SelectTarget(c, host);
      var (c2, ps) := Drain(c1);
      r == Success && ps == [Packet(c.mac, host, Join)] && Waiting(c2, host) && Ready(c2, c.mac, Client)
  {
    var p :| p in c.peers && p.mac == host;
    var i :| 0 <= i < |c.peers| && c.peers[i] == p;
    var k := FindPeer(c.peers, host);
    assert c.peers[k] in c.peers;
    assert Nobody(c, ParentPeer) && Nobody(c, OutgoingRequest);
    StateKnown(c, ParentPeer);
    StateKnown(c, OutgoingRequest);
    AskSendsJoin(c, host);
  }

  /** A host or pair node says hello exactly as long as it would record a stranger's request and not
      refuse it. */
  lemma HelloMeansRoom(c: Context, stranger: Mac, now: nat)
    requires c.mode != Client && FindPeer(c.peers, stranger) == |c.peers|
    ensures var (c', ps) := OnPacket(c, stranger, Join, now);
      if SaysHello(c) then ps == [] && c'.events == [Event(RequestEvent, stranger)] + c.events
      else ps == [Packet(c.mac, stranger, Cancel)] && c' == c
  {
  }

  /** A host takes no second request of a peer it knows. */
  lemma HostKnowsAlready(h: Context, m: Mac, k: nat, now: nat)
    requires h.mode == Host && Knows(h, k, m) && |ChildMacs(h.peers)| < h.maxpeers - 1
    ensures OnPacket(h, m, Join, now) == (h, [])
  {
    Found(h, k, m);
    ChildrenCounted(h.peers);
  }

  // --- Selections that fail ---

  /** The answers to a selection, and when each is given; one that does not succeed changes nothing. */
  lemma SelectAnswers(c: Context, target: Mac)
    ensures var (c', r) := SelectTarget(c, target);
      && (r != Success ==> c' == c)
      && (r == NotRunning <==> !c.running)
      && (r == UnknownTarget <==> c.running && forall i :: 0 <= i < |c.peers| ==> c.peers[i].mac != target)
      && forall k :: c.running && Knows(c, k, target) ==> r == Answer(c, c.peers[k].state)
  {
    var k := FindPeer(c.peers, target);
    if k < |c.peers| {
      assert Knows(c, k, target);
      forall j | Knows(c, j, target) ensures j == k {
        Found(c, j, target);
      }
      ChildrenCounted(c.peers);
      StateKnown(c, ParentPeer);
      StateKnown(c, PairPeer);
      StateKnown(c, OutgoingRequest);
    }
  }

  ghost function Answer(c: Context, state: PeerState): ApiResult {
    if c.mode == Host then
      if state == ChildPeer then AlreadyEstablished
      else if |ChildMacs(c.peers)| == c.maxpeers - 1 then ExceedMaxnum
      else if state == IncomingRequest then Success
      else TargetNotReady
    else
      if !Nobody(c, if c.mode == Client then ParentPeer else PairPeer) then AlreadyEstablished
      else if !Nobody(c, OutgoingRequest) then RequestInProgress
      else if state == Offer || (c.mode == Pair && state == IncomingRequest) then Success
      else TargetNotReady
  }
}
