/** What a cancel, a bye and a timeout do to a context, told from what the peer was before. */
module MatchingEffects {
  import opened MatchingSpec
  import opened MatchingInvariant
  import opened Sequences

  /** Peer k is the one `_findPeer` returns for this MAC. */
  ghost predicate Knows(c: Context, k: int, mac: Mac) {
    && 0 <= k < |c.peers| && c.peers[k].mac == mac
    && forall i :: 0 <= i < k ==> c.peers[i].mac != mac
  }

  /** No earlier peer is in the same state. */
  ghost predicate FirstOfState(c: Context, k: int)
    requires 0 <= k < |c.peers|
  {
    forall i :: 0 <= i < k ==> c.peers[i].state != c.peers[k].state
  }

  lemma Found(c: Context, k: nat, mac: Mac)
    requires Knows(c, k, mac)
    ensures FindPeer(c.peers, mac) == k
  {
  }

  lemma FoundState(c: Context, k: nat, state: PeerState)
    requires k < |c.peers|
    ensures FindState(c.peers, state) == k <==> c.peers[k].state == state && FirstOfState(c, k)
  {
  }

  // --- Cancel ---

  /** What a cancel of a peer in this state is reported as. A parent's cancel is reported for
      everyone in the room instead. */
  ghost function CancelReport(mode: Mode, state: PeerState): seq<EventKind> {
    match state
    case OutgoingRequest => if mode == Host then [] else [DenyEvent]
    case IncomingRequest => if mode == Client then [] else [CancelEvent]
    case ChildPeer => if mode == Host then [LeaveEvent] else []
    case PairPeer => if mode == Pair then [LeaveEvent] else []
    case _ => []
  }

  /** States a context holds one peer in, the first. */
  ghost predicate Single(state: PeerState) {
    state in {OutgoingRequest, ParentPeer, PairPeer}
  }

  /** A cancel that concerns its sender alone stops its joining; if it is worth a report, it is
      reported once and the sender's timer is set to the given time. */
  lemma CancelReported(c: Context, src: Mac, k: nat, stamp: nat)
    requires Knows(c, k, src) && !(c.mode == Client && c.peers[k].state == ParentPeer && FirstOfState(c, k))
    ensures var c', p := OnCancel(c, src, stamp), c.peers[k];
      var report := if Single(p.state) && !FirstOfState(c, k) then [] else CancelReport(c.mode, p.state);
      c' == if report == [] then c.(peers := c.peers[k := p.(joining := false)])
            else c.(peers := c.peers[k := p.(joining := false, lastping := stamp)],
                    events := [Event(report[0], src)] + c.events)
  {
    Found(c, k, src);
    var p := c.peers[k];
    assert c.peers[k := p.(joining := false)][k := p.(joining := false, lastping := stamp)]
      == c.peers[k := p.(joining := false, lastping := stamp)];
    FoundState(c, k, OutgoingRequest);
    FoundState(c, k, ParentPeer);
    FoundState(c, k, PairPeer);
  }

  lemma CancelOfUnknown(c: Context, src: Mac, stamp: nat)
    requires forall i :: 0 <= i < |c.peers| ==> c.peers[i].mac != src
    ensures OnCancel(c, src, stamp) == c
  {
  }

  /** The entries of other MACs, in order. */
  ghost function Others(peers: seq<Peer>, self: Mac): (r: seq<Peer>)
    ensures forall p :: p in r <==> p in peers && p.mac != self
  {
    if peers == [] then []
    else
      var last := peers[|peers| - 1];
      assert peers == peers[..|peers| - 1] + [last];
      Others(peers[..|peers| - 1], self) + (if last.mac == self then [] else [last])
  }

  ghost function AllStamped(peers: seq<Peer>, stamp: nat): (r: seq<Peer>)
    ensures |r| == |peers| && forall i :: 0 <= i < |r| ==> r[i] == peers[i].(lastping := stamp)
  {
    seq(|peers|, i requires 0 <= i < |peers| => peers[i].(lastping := stamp))
  }

  /** Everyone in the room, in list order. */
  ghost function RoomMacs(peers: seq<Peer>): seq<Mac> {
    if peers == [] then []
    else
      var last := peers[|peers| - 1];
      RoomMacs(peers[..|peers| - 1]) + (if last.state == ChildPeer || last.state == ParentPeer then [last.mac] else [])
  }

  /** Events of this kind for these MACs, the last one newest. */
  ghost function Reports(kind: EventKind, macs: seq<Mac>): (r: seq<Event>)
    ensures |r| == |macs| && forall i :: 0 <= i < |r| ==> r[i] == Event(kind, macs[|macs| - 1 - i])
  {
    seq(|macs|, i requires 0 <= i < |macs| => Event(kind, macs[|macs| - 1 - i]))
  }

  /** A client that its parent cancels: its own entries go, all others stay in order with their
      timers set, and everyone in the room is reported to have left, once each. */
  lemma KickedByParent(c: Context, src: Mac, k: nat, stamp: nat)
    requires c.mode == Client && Knows(c, k, src) && c.peers[k].state == ParentPeer && FirstOfState(c, k)
    ensures var c' := OnCancel(c, src, stamp);
      var calm := c.peers[k := c.peers[k].(joining := false)];
      && c'.peers == AllStamped(Others(calm, c.mac), stamp)
      && c'.events == Reports(LeaveEvent, RoomMacs(c.peers)) + c.events
      && c' == c.(peers := c'.peers, events := c'.events)
  {
    var calm := c.peers[k := c.peers[k].(joining := false)];
    IsKicked(c, src, k, stamp);
    DroppedSelf(calm, c.mac, stamp);
    LeavesReported(c.events, calm);
    SameRoom(c.peers, calm);
  }

  lemma IsKicked(c: Context, src: Mac, k: nat, stamp: nat)
    requires c.mode == Client && Knows(c, k, src) && c.peers[k].state == ParentPeer && FirstOfState(c, k)
    ensures OnCancel(c, src, stamp) == Kicked(c.(peers := c.peers[k := c.peers[k].(joining := false)]), stamp)
  {
    Found(c, k, src);
    FoundState(c, k, OutgoingRequest);
    FoundState(c, k, ParentPeer);
  }

  lemma {:induction false} DropSelfConcat(a: seq<Peer>, b: seq<Peer>, self: Mac, stamp: nat)
    ensures DropSelf(a + b, self, stamp) == DropSelf(a, self, stamp) + DropSelf(b, self, stamp)
  {
    if a == [] {
      assert a + b == b;
    } else {
      assert (a + b)[1..] == a[1..] + b;
      DropSelfConcat(a[1..], b, self, stamp);
    }
  }

  lemma {:induction false} DroppedSelf(peers: seq<Peer>, self: Mac, stamp: nat)
    ensures DropSelf(peers, self, stamp) == AllStamped(Others(peers, self), stamp)
  {
    if peers != [] {
      var rest, last := peers[..|peers| - 1], peers[|peers| - 1];
      assert peers == rest + [last];
      DroppedSelf(rest, self, stamp);
      DropSelfConcat(rest, [last], self, stamp);
      assert [last][1..] == [] && DropSelf([last], self, stamp) == (if last.mac == self then [] else [last.(lastping := stamp)]);
    }
  }

  lemma {:induction false} LeavesConcat(events: seq<Event>, a: seq<Peer>, b: seq<Peer>)
    ensures LeaveEvents(events, a + b) == LeaveEvents(LeaveEvents(events, a), b)
    decreases |a|
  {
    if a == [] {
      assert a + b == b;
    } else {
      assert (a + b)[1..] == a[1..] + b && (a + b)[0] == a[0];
      var more := if a[0].state == ChildPeer || a[0].state == ParentPeer then [Event(LeaveEvent, a[0].mac)] + events else events;
      LeavesConcat(more, a[1..], b);
    }
  }

  lemma {:induction false} LeavesReported(events: seq<Event>, peers: seq<Peer>)
    ensures LeaveEvents(events, peers) == Reports(LeaveEvent, RoomMacs(peers)) + events
  {
    if peers != [] {
      var rest, last := peers[..|peers| - 1], peers[|peers| - 1];
      assert peers == rest + [last];
      LeavesReported(events, rest);
      LeavesConcat(events, rest, [last]);
      assert [last][1..] == [];
      var macs := RoomMacs(rest);
      assert Reports(LeaveEvent, macs + [last.mac]) == [Event(LeaveEvent, last.mac)] + Reports(LeaveEvent, macs);
    }
  }

  lemma {:induction false} SameRoom(a: seq<Peer>, b: seq<Peer>)
    requires |a| == |b| && forall i :: 0 <= i < |a| ==> a[i].mac == b[i].mac && a[i].state == b[i].state
    ensures RoomMacs(a) == RoomMacs(b)
  {
    if a != [] { SameRoom(a[..|a| - 1], b[..|b| - 1]); }
  }

  /** Whom a node may cancel: its parent or host it asked, its child or one who asks, its partner or
      one who asks; a pair node cannot take back its own request. */
  ghost predicate MayCancel(mode: Mode, state: PeerState) {
    match state
    case ParentPeer => mode == Client
    case ChildPeer => mode == Host
    case PairPeer => mode == Pair
    case OutgoingRequest => mode == Client
    case IncomingRequest => mode != Client
    case _ => false
  }

  /** A cancel that is allowed sends one packet and forgets the peer, and a client everyone. Nobody
      else hears of it: the death of a child is handled after its cancel, when the child is gone. */
  lemma CancelSends(c: Context, target: Mac, k: nat)
    requires c.running && c.stack == [] && Knows(c, k, target)
    requires forall i :: k < i < |c.peers| ==> c.peers[i].mac != target
    ensures var (c1, r) := CancelTarget(c, target);
      if MayCancel(c.mode, c.peers[k].state) then
        r == Success
        && Drain(c1) == (c.(peers := if c.mode == Client then [] else c.peers[..k] + c.peers[k + 1..]),
                         [Packet(c.mac, target, Cancel)])
      else (c1, r) == (c, UnknownTarget)
  {
    Found(c, k, target);
    var state := c.peers[k].state;
    assert Cancellable(c.mode, state) <==> MayCancel(c.mode, state);
    if MayCancel(c.mode, state) {
      CancelDrained(CancelTarget(c, target).0, c, target, k);
    }
  }

  lemma CancelDrained(c1: Context, c: Context, target: Mac, k: nat)
    requires Knows(c, k, target) && forall i :: k < i < |c.peers| ==> c.peers[i].mac != target
    requires c1 == c.(peers := c.peers[k := c.peers[k].(state := CancelInProgress)], stack := c1.stack)
    requires c.stack == [] && (c1.stack == [CancelMessage(target)] || c1.stack == [CancelMessage(target), DeathMessage(target)])
    ensures Drain(c1) == (c.(peers := if c.mode == Client then [] else c.peers[..k] + c.peers[k + 1..]),
                          [Packet(c.mac, target, Cancel)])
  {
    Found(c1, k, target);
    var c2 := SendCancel(c1, target).0;
    TakenOut(c.peers, c1.peers, k, target);
    NoDeathSent(c2, target);
    assert c1.stack[1..] == if |c1.stack| == 1 then [] else [DeathMessage(target)];
    assert [Packet(c.mac, target, Cancel)] + [] == [Packet(c.mac, target, Cancel)];
  }

  lemma TakenOut(peers: seq<Peer>, peers': seq<Peer>, k: nat, mac: Mac)
    requires k < |peers| == |peers'| && peers' == peers[k := peers'[k]]
    requires forall i :: 0 <= i < |peers| && i != k ==> peers[i].mac != mac
    ensures var left := peers[..k] + peers[k + 1..];
      Delete(peers', k) == left && forall i :: 0 <= i < |left| ==> left[i].mac != mac
  {
  }

  lemma NoDeathSent(c: Context, mac: Mac)
    requires forall i :: 0 <= i < |c.peers| ==> c.peers[i].mac != mac
    ensures SendMessages(c, [DeathMessage(mac)]) == (c, []) && SendMessages(c, []) == (c, [])
  {
    assert [DeathMessage(mac)][1..] == [] && [DeathMessage(mac)][0] == DeathMessage(mac);
    assert SendMessage(c, DeathMessage(mac)) == (c, []);
    var none: seq<Packet> := [];
    assert none + none == none && SendMessages(c, []) == (c, none);
  }

  // --- Acceptance ---

  /** The entries an acceptance leaves: the node's own, and those of parent, children and partner. */
  ghost function Remaining(peers: seq<Peer>): (r: seq<Peer>)
    ensures forall p :: p in r <==> p in peers && p.state in {Self, ParentPeer, ChildPeer, PairPeer}
  {
    if peers == [] then []
    else
      var last := peers[|peers| - 1];
      assert peers == peers[..|peers| - 1] + [last];
      Remaining(peers[..|peers| - 1]) + (if last.state in {Self, ParentPeer, ChildPeer, PairPeer} then [last] else [])
  }

  lemma {:induction false} CleanConcat(a: seq<Peer>, b: seq<Peer>)
    ensures Clean(a + b) == Clean(a) + Clean(b)
  {
    if a == [] {
      assert a + b == b;
    } else {
      var rest := a[1..];
      assert (a + b)[0] == a[0] && (a + b)[1..] == rest + b;
      CleanConcat(rest, b);
      Regroup(if Needed(a[0]) then [a[0]] else [], Clean(rest), Clean(b));
    }
  }

  lemma {:induction false} CleanIsRemaining(peers: seq<Peer>)
    ensures Clean(peers) == Remaining(peers)
  {
    if peers != [] {
      var rest, last := peers[..|peers| - 1], peers[|peers| - 1];
      assert peers == rest + [last];
      CleanIsRemaining(rest);
      CleanConcat(rest, [last]);
      assert [last][1..] == [] && Clean([last]) == (if Needed(last) then [last] else []);
    }
  }

  /** The acceptance of the partner that was asked: whoever is not established is forgotten, the rest
      keeps its order, and both events are raised. */
  lemma PartnerAccepted(c: Context, src: Mac, k: nat, siblings: seq<Mac>, now: nat)
    requires c.mode == Pair && Knows(c, k, src) && c.peers[k].state == OutgoingRequest && FirstOfState(c, k)
    requires forall i :: 0 <= i < |c.peers| ==> c.peers[i].state != PairPeer
    ensures OnPacket(c, src, Accept(siblings), now) ==
      (c.(peers := Remaining(c.peers[k := c.peers[k].(state := PairPeer, joining := true)]),
          events := [Event(AcceptEvent, src), Event(EstablishedEvent, src)] + c.events), [])
  {
    Found(c, k, src);
    FoundState(c, k, OutgoingRequest);
    assert c.peers[k := AcceptedPeer(c.mode, c.peers[k])] == c.peers[k := c.peers[k].(state := PairPeer, joining := true)];
    CleanIsRemaining(c.peers[k := c.peers[k].(state := PairPeer, joining := true)]);
    TwoEvents(c, src);
  }

  /** An entry of a named sibling is a child from now on, any other is as it was. */
  ghost predicate KeptAs(p: Peer, p': Peer, macs: seq<Mac>) {
    p'.mac == p.mac && (p.mac !in macs ==> p' == p) && (p.state == ChildPeer ==> p'.state == ChildPeer)
  }

  /** New children with these MACs in front of the entries that were there. */
  ghost predicate Grown(peers: seq<Peer>, all: seq<Peer>, macs: seq<Mac>) {
    && |all| >= |peers|
    && (forall i :: 0 <= i < |all| - |peers| ==> all[i].mac in macs && all[i].state == ChildPeer)
    && (forall i :: |all| - |peers| <= i < |all| ==> KeptAs(peers[i - (|all| - |peers|)], all[i], macs))
  }

  ghost predicate HasChild(peers: seq<Peer>, m: Mac) {
    exists i :: 0 <= i < |peers| && peers[i].mac == m && peers[i].state == ChildPeer
  }

  lemma GrownOn(peers: seq<Peer>, more: seq<Peer>, all: seq<Peer>, m: Mac, front: seq<Mac>)
    requires Grown(peers, more, [m]) && Grown(more, all, front)
    ensures Grown(peers, all, front + [m])
  {
    var fresh', older := |all| - |more|, |more| - |peers|;
    forall i | 0 <= i < |all| - |peers| ensures all[i].mac in front + [m] && all[i].state == ChildPeer {
      assert i >= fresh' ==> KeptAs(more[i - fresh'], all[i], front);
    }
    forall i | |all| - |peers| <= i < |all| ensures KeptAs(peers[i - (|all| - |peers|)], all[i], front + [m]) {
      assert KeptAs(more[i - fresh'], all[i], front);
      assert KeptAs(peers[i - fresh' - older], more[i - fresh'], [m]);
    }
  }

  lemma ChildStays(more: seq<Peer>, all: seq<Peer>, front: seq<Mac>, m: Mac)
    requires Grown(more, all, front) && HasChild(more, m)
    ensures HasChild(all, m)
  {
    var i :| 0 <= i < |more| && more[i].mac == m && more[i].state == ChildPeer;
    var j := i + |all| - |more|;
    assert KeptAs(more[j - (|all| - |more|)], all[j], front);
  }

  lemma OneSibling(peers: seq<Peer>, m: Mac, now: nat)
    ensures Grown(peers, AddSibling(peers, m, now), [m]) && HasChild(AddSibling(peers, m, now), m)
  {
    var more, k := AddSibling(peers, m, now), FindPeer(peers, m);
    if k < |peers| {
      assert more[k].mac == m && more[k].state == ChildPeer;
    } else {
      assert more[0].mac == m && more[0].state == ChildPeer;
      assert forall i :: 1 <= i < |more| ==> more[i] == peers[i - 1];
    }
  }

  lemma {:induction false} SiblingsAdded(peers: seq<Peer>, siblings: seq<Mac>, now: nat)
    ensures Grown(peers, AddSiblings(peers, siblings, now), siblings)
    ensures forall m :: m in siblings ==> HasChild(AddSiblings(peers, siblings, now), m)
    decreases |siblings|
  {
    if siblings != [] {
      var front, last := siblings[..|siblings| - 1], siblings[|siblings| - 1];
      assert siblings == front + [last];
      var more := AddSibling(peers, last, now);
      var all := AddSiblings(more, front, now);
      OneSibling(peers, last, now);
      SiblingsAdded(more, front, now);
      GrownOn(peers, more, all, last, front);
      ChildStays(more, all, front, last);
    }
  }

  /** The acceptance of the parent that was asked: the established entries keep their order behind the
      siblings that are new, every named sibling is a child from now on, and the node's own entry is
      put in front if there was none. */
  lemma ParentAccepted(c: Context, src: Mac, k: nat, siblings: seq<Mac>, now: nat) returns (all: seq<Peer>)
    requires c.mode == Client && Knows(c, k, src) && c.peers[k].state == OutgoingRequest && FirstOfState(c, k)
    requires forall i :: 0 <= i < |c.peers| ==> c.peers[i].state != ParentPeer
    ensures Grown(Remaining(c.peers[k := c.peers[k].(state := ParentPeer)]), all, siblings)
    ensures forall m :: m in siblings ==> HasChild(all, m)
    ensures var own := exists i :: 0 <= i < |all| && all[i].mac == c.mac;
      OnPacket(c, src, Accept(siblings), now) ==
        (c.(peers := if own then all else [Peer(c.mac, Self, now, now, false)] + all,
            events := [Event(AcceptEvent, src), Event(EstablishedEvent, src)] + c.events), [])
  {
    var before := c.peers[k := c.peers[k].(state := ParentPeer)];
    CleanIsRemaining(before);
    SiblingsAdded(Remaining(before), siblings, now);
    all := AddSiblings(Remaining(before), siblings, now);
    ParentAnswered(c, src, k, siblings, now);
  }

  lemma ParentAnswered(c: Context, src: Mac, k: nat, siblings: seq<Mac>, now: nat)
    requires c.mode == Client && Knows(c, k, src) && c.peers[k].state == OutgoingRequest && FirstOfState(c, k)
    requires forall i :: 0 <= i < |c.peers| ==> c.peers[i].state != ParentPeer
    ensures var cleaned := Clean(c.peers[k := c.peers[k].(state := ParentPeer)]);
      OnPacket(c, src, Accept(siblings), now) ==
        (c.(peers := AddSelf(AddSiblings(cleaned, siblings, now), c.mac, now),
            events := [Event(AcceptEvent, src), Event(EstablishedEvent, src)] + c.events), [])
  {
    Found(c, k, src);
    FoundState(c, k, OutgoingRequest);
    assert c.peers[k := AcceptedPeer(c.mode, c.peers[k])] == c.peers[k := c.peers[k].(state := ParentPeer)];
    TwoEvents(c, src);
  }

  lemma TwoEvents(c: Context, src: Mac)
    ensures [Event(AcceptEvent, src)] + ([Event(EstablishedEvent, src)] + c.events)
      == [Event(AcceptEvent, src), Event(EstablishedEvent, src)] + c.events
  {
  }

  // --- Births, deaths and hellos ---

  /** Only the parent's word counts, and a birth is believed without a look at the list. */
  lemma BirthRecorded(c: Context, src: Mac, newborn: Mac, now: nat)
    ensures var c' := OnPacket(c, src, Birth(newborn), now).0;
      if c.mode == Client && exists k :: Knows(c, k, src) && c.peers[k].state == ParentPeer && FirstOfState(c, k) then
        c' == c.(peers := [Peer(newborn, ChildPeer, now, now, false)] + c.peers)
      else c' == c
  {
    ParentKnown(c, src);
  }

  lemma ParentKnown(c: Context, src: Mac)
    ensures FromParent(c, src) <==>
      c.mode == Client && exists k :: Knows(c, k, src) && c.peers[k].state == ParentPeer && FirstOfState(c, k)
  {
    var k := FindPeer(c.peers, src);
    if k < |c.peers| {
      assert Knows(c, k, src);
      FoundState(c, k, ParentPeer);
    }
    forall j | Knows(c, j, src) ensures j == k {
      Found(c, j, src);
    }
  }

  /** A sibling whose death the parent tells is taken out and reported; nobody else is. */
  lemma DeathReported(c: Context, src: Mac, dead: Mac, d: nat, now: nat)
    requires Knows(c, d, dead)
    ensures var c' := OnPacket(c, src, Death(dead), now).0;
      if c.mode == Client && c.peers[d].state == ChildPeer
         && exists k :: Knows(c, k, src) && c.peers[k].state == ParentPeer && FirstOfState(c, k) then
        c' == c.(peers := c.peers[..d] + c.peers[d + 1..], events := [Event(LeaveEvent, dead)] + c.events)
      else c' == c
  {
    ParentKnown(c, src);
    Found(c, d, dead);
  }

  /** A ping is a sign of life of a peer that is known, and tells nothing else. */
  lemma PingHeard(c: Context, src: Mac, now: nat)
    ensures var (c', ps) := OnPacket(c, src, Ping, now);
      && ps == []
      && (forall k :: Knows(c, k, src) ==> c' == c.(peers := c.peers[k := c.peers[k].(lastping := now, lastSeen := now)]))
      && ((forall k :: 0 <= k < |c.peers| ==> c.peers[k].mac != src) ==> c' == c)
  {
    forall k | Knows(c, k, src) ensures FindPeer(c.peers, src) == k {
      Found(c, k, src);
    }
  }

  /** A hello is reported each time to a node without a parent or partner, and an unknown sender
      becomes an offer. */
  lemma HelloReported(c: Context, src: Mac, now: nat)
    ensures var c' := OnPacket(c, src, Hello, now).0;
      if c.mode == Host || exists i :: 0 <= i < |c.peers| && c.peers[i].state == (if c.mode == Client then ParentPeer else PairPeer) then
        c' == c
      else
        c'.events == [Event(HelloEvent, src)] + c.events
        && c' == c.(peers := c'.peers, events := c'.events)
        && c'.peers == (if exists i :: 0 <= i < |c.peers| && c.peers[i].mac == src then c.peers
                        else [Peer(src, Offer, now, now, false)] + c.peers)
  {
  }

  // --- Bye ---

  /** A bye is reported once and sets the sender's timer if the sender is a child, or anyone but a
      stranger in pair mode; a parent's bye also takes out the own entries and sets all timers. */
  lemma ByeReported(c: Context, src: Mac, k: nat, stamp: nat)
    requires Knows(c, k, src)
    ensures var c', p := OnBye(c, src, stamp), c.peers[k];
      c' ==
        if src == c.mac then c
        else if c.mode == Client && p.state == ParentPeer then
          c.(peers := AllStamped(Others(c.peers, c.mac), stamp), events := [Event(ByeEvent, src)] + c.events)
        else if (c.mode != Pair && p.state == ChildPeer)
             || (c.mode == Pair && p.state in {PairPeer, Offer, IncomingRequest, OutgoingRequest, CancelInProgress}) then
          c.(peers := c.peers[k := p.(lastping := stamp)], events := [Event(ByeEvent, src)] + c.events)
        else c
  {
    Found(c, k, src);
    DroppedSelf(c.peers, c.mac, stamp);
  }

  // --- Timeouts ---

  /** Not heard of for the timeout, or marked as given up; a peer that is joining is spared. */
  ghost predicate Expired(c: Context, p: Peer, now: nat) {
    !p.joining && (p.lastping == 0 || (p.lastping < now && p.lastping + c.timeout <= now))
  }

  /** The context's own entry never goes. */
  ghost predicate Leaves(c: Context, p: Peer, now: nat) {
    Expired(c, p, now) && p.mac != c.mac
  }

  /** The peers that stay, in order. */
  ghost function Staying(c: Context, peers: seq<Peer>, now: nat): (r: seq<Peer>)
    ensures forall p :: p in r <==> p in peers && !Leaves(c, p, now)
  {
    if peers == [] then []
    else (if Leaves(c, peers[0], now) then [] else [peers[0]]) + Staying(c, peers[1..], now)
  }

  ghost function Leaving(c: Context, peers: seq<Peer>, now: nat): (r: seq<Mac>)
    ensures forall m :: m in r <==> exists p :: p in peers && Leaves(c, p, now) && p.mac == m
  {
    if peers == [] then []
    else
      assert peers == [peers[0]] + peers[1..];
      (if Leaves(c, peers[0], now) then [peers[0].mac] else []) + Leaving(c, peers[1..], now)
  }

  /** The peers whose timeout is reported: a host's children, a pair's peers, a client's offers. */
  ghost predicate Reported(c: Context, p: Peer, now: nat) {
    Expired(c, p, now) &&
    match c.mode
    case Host => p.state == ChildPeer
    case Client => p.state == Offer
    case Pair => !p.state.Self? && !p.state.ParentPeer? && !p.state.ChildPeer?
  }

  ghost function ReportedMacs(c: Context, peers: seq<Peer>, now: nat): seq<Mac> {
    if peers == [] then []
    else (if Reported(c, peers[0], now) then [peers[0].mac] else []) + ReportedMacs(c, peers[1..], now)
  }

  ghost function Sent(src: Mac, dsts: seq<Mac>, body: Body): (ps: seq<Packet>)
    ensures |ps| == |dsts| && forall i :: 0 <= i < |ps| ==> ps[i] == Packet(src, dsts[i], body)
  {
    seq(|dsts|, i requires 0 <= i < |dsts| => Packet(src, dsts[i], body))
  }

  lemma ReportOne(kind: EventKind, m: Mac, macs: seq<Mac>, events: seq<Event>)
    ensures Reports(kind, [m] + macs) + events == Reports(kind, macs) + ([Event(kind, m)] + events)
  {
    var all := [m] + macs;
    forall i | 0 <= i < |macs| ensures Reports(kind, all)[i] == Reports(kind, macs)[i] {
      assert all[|macs| - i] == macs[|macs| - 1 - i];
    }
  }

  lemma NoReports(kind: EventKind, events: seq<Event>)
    ensures Reports(kind, []) + events == events
  {
  }

  /** The walk of a host or pair node takes out exactly the peers that leave. */
  lemma {:induction false} WalkKeeps(c0: Context, c: Context, k: nat, now: nat)
    requires SameRole(c0, c) && c.mode != Client && UniqueMacs(c.peers) && k <= |c.peers|
    ensures TimeoutWalk(c, k, now).0.peers == c.peers[..k] + Staying(c0, c.peers[k..], now)
    decreases |c.peers| - k
  {
    if k == |c.peers| {
      assert c.peers[..k] + [] == c.peers;
    } else {
      var gone := Leaves(c0, c.peers[k], now);
      TurnPeers(c0, c, k, now);
      WalkKeeps(c0, PeerTurn(c, k, now).0, if gone then k else k + 1, now);
      Regroup(c.peers[..k], if gone then [] else [c.peers[k]], Staying(c0, c.peers[k + 1..], now));
    }
  }

  lemma TurnPeers(c0: Context, c: Context, k: nat, now: nat)
    requires SameRole(c0, c) && c.mode != Client && UniqueMacs(c.peers) && k < |c.peers|
    ensures var (c1, ps, gone), p := PeerTurn(c, k, now), c.peers[k];
      && gone == Leaves(c0, p, now) && UniqueMacs(c1.peers) && |c1.peers| >= (if gone then k else k + 1)
      && c1.peers[..if gone then k else k + 1] == c.peers[..k] + (if gone then [] else [p])
      && c1.peers[if gone then k else k + 1..] == c.peers[k + 1..]
    ensures c.peers[k..][0] == c.peers[k] && c.peers[k..][1..] == c.peers[k + 1..]
  {
    TurnEvicts(c0, c, k, now);
    CutAt(c.peers, k);
  }

  lemma {:induction false} WalkElsewhere(c: Context, k: nat, now: nat)
    ensures var c' := TimeoutWalk(c, k, now).0; c'.running == c.running && c'.stack == c.stack
    decreases |c.peers| - k
  {
    if k < |c.peers| {
      var (c1, ps, gone) := PeerTurn(c, k, now);
      WalkElsewhere(c1, if gone then k else k + 1, now);
    }
  }

  lemma {:induction false} WalkReports(c0: Context, c: Context, k: nat, now: nat)
    requires SameRole(c0, c) && c.mode != Client && UniqueMacs(c.peers) && k <= |c.peers|
    ensures TimeoutWalk(c, k, now).0.events == Reports(TimeoutEvent, ReportedMacs(c0, c.peers[k..], now)) + c.events
    decreases |c.peers| - k
  {
    if k == |c.peers| {
      NoReports(TimeoutEvent, c.events);
    } else {
      var p, z := c.peers[k], c.peers[k + 1..];
      var c1 := PeerTurn(c, k, now).0;
      TurnEvicts(c0, c, k, now);
      CutAt(c.peers, k);
      OneMore(TimeoutEvent, Reported(c0, p, now), p.mac, ReportedMacs(c0, z, now), c.events);
      WalkReports(c0, c1, if Leaves(c0, p, now) then k else k + 1, now);
    }
  }

  /** A pair node cancels each of them. */
  lemma {:induction false} WalkCancels(c0: Context, c: Context, k: nat, now: nat)
    requires SameRole(c0, c) && c.mode == Pair && UniqueMacs(c.peers) && k <= |c.peers|
    ensures TimeoutWalk(c, k, now).1 == Sent(c.mac, Leaving(c0, c.peers[k..], now), Cancel)
    decreases |c.peers| - k
  {
    if k < |c.peers| {
      var p, z := c.peers[k], c.peers[k + 1..];
      var c1 := PeerTurn(c, k, now).0;
      TurnEvicts(c0, c, k, now);
      CutAt(c.peers, k);
      WalkCancels(c0, c1, if Leaves(c0, p, now) then k else k + 1, now);
      SentMore(c.mac, p.mac, Leaving(c0, z, now), Cancel);
    }
  }

  lemma CutAt<T>(s: seq<T>, k: nat)
    requires k < |s|
    ensures s[k..][0] == s[k] && s[k..][1..] == s[k + 1..]
    ensures s[..k] + [s[k]] == s[..k + 1]
    ensures var t := s[..k] + s[k + 1..]; t[..k] == s[..k] && t[k..] == s[k + 1..]
  {
  }

  lemma SentMore(src: Mac, m: Mac, dsts: seq<Mac>, body: Body)
    ensures Sent(src, [m] + dsts, body) == [Packet(src, m, body)] + Sent(src, dsts, body)
  {
  }

  lemma OneMore(kind: EventKind, due: bool, m: Mac, macs: seq<Mac>, events: seq<Event>)
    ensures Reports(kind, (if due then [m] else []) + macs) + events
      == Reports(kind, macs) + ((if due then [Event(kind, m)] else []) + events)
  {
    if due {
      ReportOne(kind, m, macs, events);
    } else {
      assert [] + macs == macs && [] + events == events;
    }
  }

  /** The turn of peer k, and where the walk goes on. */
  lemma TurnEvicts(c0: Context, c: Context, k: nat, now: nat)
    requires SameRole(c0, c) && c.mode != Client && UniqueMacs(c.peers) && k < |c.peers|
    ensures var (c1, ps, gone), p := PeerTurn(c, k, now), c.peers[k];
      && gone == Leaves(c0, p, now)
      && c1 == c.(peers := if gone then c.peers[..k] + c.peers[k + 1..] else c.peers,
                  events := (if Reported(c0, p, now) then [Event(TimeoutEvent, p.mac)] else []) + c.events)
      && UniqueMacs(c1.peers)
      && (c.mode == Pair ==> ps == if gone then [Packet(c.mac, p.mac, Cancel)] else [])
  {
    var p := c.peers[k];
    assert FindPeer(c.peers, p.mac) == k;
    assert [] + c.events == c.events;
    assert (TimedOut(c.timeout, p, now) && !p.joining) == Expired(c0, p, now);
    assert Expired(c0, p, now) ==> TimeoutEventDue(c.mode, p.state) == Reported(c0, p, now);
    assert Delete(c.peers, k) == c.peers[..k] + c.peers[k + 1..];
  }

  /** The timeouts of a host or pair node: without a keepalive interval nothing happens; otherwise
      exactly the peers leave that were not heard of for the timeout, are not joining and are not
      the node itself. */
  lemma TimeoutEffect(c: Context, now: nat)
    requires c.mode != Client && UniqueMacs(c.peers)
    ensures var (c', ps) := HandleTimeout(c, now);
      if c.keepalive == 0 then c' == c && ps == []
      else
        && c' == c.(peers := Staying(c, c.peers, now),
                    events := Reports(TimeoutEvent, ReportedMacs(c, c.peers, now)) + c.events)
        && (c.mode == Pair ==> ps == Sent(c.mac, Leaving(c, c.peers, now), Cancel))
  {
    if c.keepalive != 0 {
      assert c.peers[0..] == c.peers && forall s: seq<Peer> :: c.peers[..0] + s == s;
      WalkKeeps(c, c, 0, now);
      WalkElsewhere(c, 0, now);
      WalkReports(c, c, 0, now);
      if c.mode == Pair { WalkCancels(c, c, 0, now); }
    }
  }

  // --- The notices of a host ---

  /** The packet for peer i when peer k is dead. */
  ghost predicate NoticeAt(src: Mac, peers: seq<Peer>, k: int, dead: Mac, p: Packet, i: int) {
    0 <= i < |peers| &&
    if i == k then p == Packet(src, peers[i].mac, Bye)
    else peers[i].state == ChildPeer && p == Packet(src, peers[i].mac, Death(dead))
  }

  lemma {:induction false} NoticeMembers(src: Mac, peers: seq<Peer>, k: int, dead: Mac, p: Packet)
    ensures p in DeathNotices(src, peers, k, dead) <==> exists i :: NoticeAt(src, peers, k, dead, p, i)
  {
    if peers != [] {
      var rest, before := peers[1..], k - 1;
      NoticeMembers(src, rest, before, dead, p);
      NoticesBehind(src, peers, rest, k, before, dead, p);
      FirstNotice(src, peers, k, dead, p);
    }
  }

  lemma FirstNotice(src: Mac, peers: seq<Peer>, k: int, dead: Mac, p: Packet)
    requires peers != []
    ensures p in DeathNotices(src, peers, k, dead) <==>
      NoticeAt(src, peers, k, dead, p, 0) || p in DeathNotices(src, peers[1..], k - 1, dead)
  {
  }

  lemma NoticesBehind(src: Mac, peers: seq<Peer>, rest: seq<Peer>, k: int, before: int, dead: Mac, p: Packet)
    requires peers != [] && rest == peers[1..] && before == k - 1
    ensures (exists i :: NoticeAt(src, peers, k, dead, p, i)) <==>
      (NoticeAt(src, peers, k, dead, p, 0) || exists i :: NoticeAt(src, rest, before, dead, p, i))
  {
    if i :| NoticeAt(src, peers, k, dead, p, i) && i > 0 {
      assert NoticeAt(src, rest, before, dead, p, i - 1);
    }
    if i :| NoticeAt(src, rest, before, dead, p, i) {
      assert NoticeAt(src, peers, k, dead, p, i + 1);
    }
  }

  /** A packet for peer i about peer j, which leaves; i is still on the list by then. */
  ghost predicate LeavingNotice(c: Context, peers: seq<Peer>, k: int, now: nat, p: Packet, i: int, j: int) {
    && 0 <= k <= j < |peers| && Leaves(c, peers[j], now)
    && NoticeAt(c.mac, peers, j, peers[j].mac, p, i) && (i < k || i >= j || !Leaves(c, peers[i], now))
  }

  lemma {:induction false} HostWalkNotices(c0: Context, c: Context, k: nat, now: nat, p: Packet)
    requires SameRole(c0, c) && c.mode == Host && UniqueMacs(c.peers) && k <= |c.peers|
    ensures p in TimeoutWalk(c, k, now).1 <==> exists i, j :: LeavingNotice(c0, c.peers, k, now, p, i, j)
    decreases |c.peers| - k
  {
    if k < |c.peers| {
      TurnPeers(c0, c, k, now);
      var (c1, ps, gone) := PeerTurn(c, k, now);
      var next := if gone then k else k + 1;
      HostWalkNotices(c0, c1, next, now, p);
      if gone {
        assert c1.peers == c.peers[..k] + c.peers[k + 1..];
        HostTurnNotices(c, k, now, p);
        NoticesAfterDeath(c0, c.peers, c1.peers, k, now, p);
      } else {
        assert c1.peers == c.peers && ps == [];
        NoticesWithoutDeath(c0, c.peers, k, k + 1, now, p);
      }
    }
  }

  lemma HostTurnNotices(c: Context, k: nat, now: nat, p: Packet)
    requires c.mode == Host && UniqueMacs(c.peers) && k < |c.peers| && PeerTurn(c, k, now).2
    ensures p in PeerTurn(c, k, now).1 <==> exists i :: NoticeAt(c.mac, c.peers, k, c.peers[k].mac, p, i)
  {
    assert FindPeer(c.peers, c.peers[k].mac) == k;
    NoticeMembers(c.mac, c.peers, k, c.peers[k].mac, p);
  }

  lemma NoticesWithoutDeath(c: Context, peers: seq<Peer>, k: nat, next: nat, now: nat, p: Packet)
    requires k < |peers| && !Leaves(c, peers[k], now) && next == k + 1
    ensures (exists i, j :: LeavingNotice(c, peers, k, now, p, i, j))
       <==> (exists i, j :: LeavingNotice(c, peers, next, now, p, i, j))
  {
    if i, j :| LeavingNotice(c, peers, k, now, p, i, j) {
      assert LeavingNotice(c, peers, next, now, p, i, j);
    }
    if i, j :| LeavingNotice(c, peers, next, now, p, i, j) {
      assert LeavingNotice(c, peers, k, now, p, i, j);
    }
  }

  lemma NoticesAfterDeath(c: Context, peers: seq<Peer>, left: seq<Peer>, k: nat, now: nat, p: Packet)
    requires k < |peers| && Leaves(c, peers[k], now) && left == peers[..k] + peers[k + 1..]
    ensures (exists i, j :: LeavingNotice(c, peers, k, now, p, i, j)) <==>
      ((exists i :: NoticeAt(c.mac, peers, k, peers[k].mac, p, i)) || (exists i, j :: LeavingNotice(c, left, k, now, p, i, j)))
  {
    if i, j :| LeavingNotice(c, peers, k, now, p, i, j) {
      assert j > k ==> LeavingNotice(c, left, k, now, p, if i < k then i else i - 1, j - 1);
    }
    if i :| NoticeAt(c.mac, peers, k, peers[k].mac, p, i) {
      assert LeavingNotice(c, peers, k, now, p, i, k);
    }
    if i, j :| LeavingNotice(c, left, k, now, p, i, j) {
      assert LeavingNotice(c, peers, k, now, p, if i < k then i else i + 1, j + 1);
    }
  }

  /** What a host sends: a bye to each peer that leaves, a notice of that death to every child that
      stays, and to each child that leaves later in the same walk. */
  lemma HostTimeoutNotices(c: Context, now: nat, p: Packet)
    requires c.mode == Host && UniqueMacs(c.peers) && c.keepalive != 0
    ensures p in HandleTimeout(c, now).1 <==>
      exists i, j ::
        && 0 <= j < |c.peers| && Leaves(c, c.peers[j], now) && 0 <= i < |c.peers|
        && if i == j then p == Packet(c.mac, c.peers[j].mac, Bye)
           else
             && c.peers[i].state == ChildPeer && (i > j || !Leaves(c, c.peers[i], now))
             && p == Packet(c.mac, c.peers[i].mac, Death(c.peers[j].mac))
  {
    HostWalkNotices(c, c, 0, now, p);
    if i, j :| LeavingNotice(c, c.peers, 0, now, p, i, j) {
    }
    forall i, j | 0 <= j < |c.peers| && Leaves(c, c.peers[j], now) && 0 <= i < |c.peers|
      && (if i == j then p == Packet(c.mac, c.peers[j].mac, Bye)
          else
            && c.peers[i].state == ChildPeer && (i > j || !Leaves(c, c.peers[i], now))
            && p == Packet(c.mac, c.peers[i].mac, Death(c.peers[j].mac)))
      ensures LeavingNotice(c, c.peers, 0, now, p, i, j)
    {
    }
  }

  // --- The timeouts of a client ---

  /** A client that gives up a peer cancels it and forgets everyone; the walk ends there. */
  lemma {:induction false} ClientWalkGivesUp(c: Context, k: nat, j: nat, now: nat)
    requires c.mode == Client && k <= j < |c.peers| && Leaves(c, c.peers[j], now)
    requires forall i :: k <= i < j ==> !Leaves(c, c.peers[i], now)
    ensures TimeoutWalk(c, k, now) ==
      (c.(peers := [], events := Reports(TimeoutEvent, ReportedMacs(c, c.peers[k..j + 1], now)) + c.events),
       [Packet(c.mac, c.peers[j].mac, Cancel)])
    decreases j - k
  {
    var p, z := c.peers[k], c.peers[k + 1..j + 1];
    assert c.peers[k..j + 1][0] == p && c.peers[k..j + 1][1..] == z;
    OneMore(TimeoutEvent, Reported(c, p, now), p.mac, ReportedMacs(c, z, now), c.events);
    ClientTurn(c, k, now);
    var (c1, ps, gone) := PeerTurn(c, k, now);
    if k < j {
      SameClock(c, c1, z, now);
      ClientWalkGivesUp(c1, k + 1, j, now);
      NothingFirst([Packet(c.mac, c.peers[j].mac, Cancel)]);
    } else {
      assert z == [] && TimeoutWalk(c1, k, now) == (c1, []);
      NoReports(TimeoutEvent, c1.events);
      NothingFirst(ps);
    }
  }

  lemma NothingFirst<T>(s: seq<T>)
    ensures [] + s == s && s + [] == s
  {
  }

  lemma ClientTurn(c: Context, k: nat, now: nat)
    requires c.mode == Client && k < |c.peers|
    ensures var (c1, ps, gone), p := PeerTurn(c, k, now), c.peers[k];
      && gone == Leaves(c, p, now) && ps == (if gone then [Packet(c.mac, p.mac, Cancel)] else [])
      && c1 == c.(peers := if gone then [] else c.peers,
                  events := (if Reported(c, p, now) then [Event(TimeoutEvent, p.mac)] else []) + c.events)
  {
    var p := c.peers[k];
    assert [] + c.events == c.events;
    assert (TimedOut(c.timeout, p, now) && !p.joining) == Expired(c, p, now);
  }

  lemma {:induction false} SameClock(c: Context, c1: Context, peers: seq<Peer>, now: nat)
    requires SameRole(c, c1)
    ensures ReportedMacs(c, peers, now) == ReportedMacs(c1, peers, now)
  {
    if peers != [] { SameClock(c, c1, peers[1..], now); }
  }

  lemma {:induction false} ClientWalkStays(c: Context, k: nat, now: nat)
    requires c.mode == Client && k <= |c.peers|
    requires forall i :: k <= i < |c.peers| ==> !Leaves(c, c.peers[i], now)
    ensures TimeoutWalk(c, k, now) ==
      (c.(events := Reports(TimeoutEvent, ReportedMacs(c, c.peers[k..], now)) + c.events), [])
    decreases |c.peers| - k
  {
    if k == |c.peers| {
      NoReports(TimeoutEvent, c.events);
    } else {
      var p, z := c.peers[k], c.peers[k + 1..];
      CutAt(c.peers, k);
      OneMore(TimeoutEvent, Reported(c, p, now), p.mac, ReportedMacs(c, z, now), c.events);
      ClientTurn(c, k, now);
      var c1 := PeerTurn(c, k, now).0;
      SameClock(c, c1, z, now);
      ClientWalkStays(c1, k + 1, now);
      assert PeerTurn(c, k, now).1 + [] == [];
    }
  }

  /** The first peer of a client that would leave is cancelled, and with it the whole list is gone. */
  lemma ClientGivesUp(c: Context, j: nat, now: nat)
    requires c.mode == Client && c.keepalive != 0 && j < |c.peers| && Leaves(c, c.peers[j], now)
    requires forall i :: 0 <= i < j ==> !Leaves(c, c.peers[i], now)
    ensures HandleTimeout(c, now) ==
      (c.(peers := [], events := Reports(TimeoutEvent, ReportedMacs(c, c.peers[..j + 1], now)) + c.events),
       [Packet(c.mac, c.peers[j].mac, Cancel)])
  {
    ClientWalkGivesUp(c, 0, j, now);
    assert c.peers[0..j + 1] == c.peers[..j + 1];
  }

  /** If there is none, or no keepalive interval, nobody goes. */
  lemma ClientStays(c: Context, now: nat)
    requires c.mode == Client
    requires c.keepalive != 0 ==> forall i :: 0 <= i < |c.peers| ==> !Leaves(c, c.peers[i], now)
    ensures HandleTimeout(c, now) ==
      (if c.keepalive == 0 then c
       else c.(events := Reports(TimeoutEvent, ReportedMacs(c, c.peers, now)) + c.events), [])
  {
    if c.keepalive != 0 {
      ClientWalkStays(c, 0, now);
      assert c.peers[0..] == c.peers;
    }
  }

  // --- Peers the group server misses ---

  /** Missing for more than three seconds, and in a state in which its bye would matter. */
  ghost predicate Missed(c: Context, p: Peer, now: nat, missing: set<Mac>) {
    p.mac in missing && now > p.lastSeen + 3000000 && p.mac != c.mac &&
    if c.mode == Host then p.state == ChildPeer
    else !p.state.Self? && !p.state.ParentPeer? && !p.state.ChildPeer?
  }

  /** A peer that is listed is alive, and one that is missed is given up at the next timeout. */
  ghost function Looked(c: Context, p: Peer, now: nat, missing: set<Mac>): Peer {
    if p.state == Self then p
    else if p.mac !in missing then p.(lastSeen := now, lastping := now)
    else if Missed(c, p, now, missing) then p.(lastping := 0)
    else p
  }

  ghost function MissedMacs(c: Context, peers: seq<Peer>, now: nat, missing: set<Mac>): seq<Mac> {
    if peers == [] then []
    else (if Missed(c, peers[0], now, missing) then [peers[0].mac] else []) + MissedMacs(c, peers[1..], now, missing)
  }

  ghost function AllLooked(c: Context, peers: seq<Peer>, k: nat, now: nat, missing: set<Mac>): (r: seq<Peer>)
    requires k <= |peers|
    ensures |r| == |peers| && forall i :: 0 <= i < |r| ==> r[i] == if i < k then peers[i] else Looked(c, peers[i], now, missing)
  {
    seq(|peers|, i requires 0 <= i < |peers| => if i < k then peers[i] else Looked(c, peers[i], now, missing))
  }

  lemma VisitLooks(c0: Context, c: Context, k: nat, now: nat, missing: set<Mac>)
    requires SameRole(c0, c) && c.mode != Client && UniqueMacs(c.peers) && k < |c.peers|
    ensures var p := c.peers[k];
      AdhocctlVisit(c, k, now, missing) ==
        (c.(peers := c.peers[k := Looked(c0, p, now, missing)],
            events := (if Missed(c0, p, now, missing) then [Event(ByeEvent, p.mac)] else []) + c.events), k + 1)
  {
    var p := c.peers[k];
    assert FindPeer(c.peers, p.mac) == k;
    assert [] + c.events == c.events && c.peers[k := p] == c.peers;
    assert p.state != Self && p.mac in missing && now > p.lastSeen + 3000000 && p.mac != c.mac ==>
      Missed(c0, p, now, missing) == ByeMatters(c.mode, p.state);
  }

  lemma {:induction false} WalkLooks(c0: Context, c: Context, k: nat, now: nat, missing: set<Mac>)
    requires SameRole(c0, c) && c.mode != Client && UniqueMacs(c.peers) && k <= |c.peers|
    ensures AdhocctlWalk(c, k, now, missing) ==
      c.(peers := AllLooked(c0, c.peers, k, now, missing),
         events := Reports(ByeEvent, MissedMacs(c0, c.peers[k..], now, missing)) + c.events)
    decreases |c.peers| - k
  {
    if k == |c.peers| {
      NoReports(ByeEvent, c.events);
      assert AllLooked(c0, c.peers, k, now, missing) == c.peers;
    } else {
      var p, z := c.peers[k], c.peers[k + 1..];
      VisitLooks(c0, c, k, now, missing);
      var c1 := AdhocctlVisit(c, k, now, missing).0;
      CutAt(c.peers, k);
      assert c1.peers[k + 1..] == z;
      assert AllLooked(c0, c1.peers, k + 1, now, missing) == AllLooked(c0, c.peers, k, now, missing);
      OneMore(ByeEvent, Missed(c0, p, now, missing), p.mac, MissedMacs(c0, z, now, missing), c.events);
      WalkLooks(c0, c1, k + 1, now, missing);
    }
  }

  /** What the answers of the group server do to a host or pair node. */
  lemma MissingEffect(c: Context, now: nat, missing: set<Mac>)
    requires c.mode != Client && UniqueMacs(c.peers)
    ensures var c' := AdhocctlWalk(c, 0, now, missing);
      && |c'.peers| == |c.peers|
      && (forall i :: 0 <= i < |c.peers| ==> c'.peers[i] == Looked(c, c.peers[i], now, missing))
      && c'.events == Reports(ByeEvent, MissedMacs(c, c.peers, now, missing)) + c.events
      && c' == c.(peers := c'.peers, events := c'.events)
  {
    WalkLooks(c, c, 0, now, missing);
    assert c.peers[0..] == c.peers;
  }

  // --- Stopping ---

  ghost predicate ByeFor(src: Mac, peers: seq<Peer>, p: Packet, i: int) {
    0 <= i < |peers| && peers[i].state in {ParentPeer, ChildPeer, PairPeer} && p == Packet(src, peers[i].mac, Bye)
  }

  lemma {:induction false} ByesSent(src: Mac, peers: seq<Peer>, p: Packet)
    ensures p in ByeNotices(src, peers) <==> exists i :: ByeFor(src, peers, p, i)
  {
    if peers != [] {
      var rest := peers[1..];
      ByesSent(src, rest, p);
      if i :| ByeFor(src, peers, p, i) && i > 0 { assert ByeFor(src, rest, p, i - 1); }
      if i :| ByeFor(src, rest, p, i) { assert ByeFor(src, peers, p, i + 1); }
      assert ByeFor(src, peers, p, 0) <==>
        peers[0].state in {ParentPeer, ChildPeer, PairPeer} && p == Packet(src, peers[0].mac, Bye);
    }
  }

  /** A stopped context knows nobody, and everyone who belonged to it was told. */
  lemma StopEffect(c: Context, p: Packet)
    ensures var (c', ps) := Stop(c);
      c' == c.(peers := [], running := false) && (p in ps <==> exists i :: ByeFor(c.mac, c.peers, p, i))
  {
    ByesSent(c.mac, c.peers, p);
  }
}
