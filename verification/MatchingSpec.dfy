/** One node of the ad-hoc matching protocol: its context, the API calls that change it, the
    packet handlers and the IO thread, each as a function from context to context.

    A MAC address stands for the five bytes `_isMacMatch` compares. Optional data is not
    modelled, so every packet of a kind is complete. */
module MatchingSpec {

  type Mac = nat

  datatype Mode = Host | Client | Pair

  /** The peer states of globals.h; Self is state 0. */
  datatype PeerState =
    | Self | Offer | ParentPeer | ChildPeer | PairPeer
    | IncomingRequest | OutgoingRequest | CancelInProgress

  datatype Peer = Peer(mac: Mac, state: PeerState, lastping: nat, lastSeen: nat, joining: bool)

  datatype Message = AcceptMessage(mac: Mac) | JoinMessage(mac: Mac) | CancelMessage(mac: Mac)
                   | BirthMessage(mac: Mac) | DeathMessage(mac: Mac)

  datatype EventKind = HelloEvent | RequestEvent | LeaveEvent | DenyEvent | CancelEvent | AcceptEvent
                     | EstablishedEvent | TimeoutEvent | ByeEvent

  datatype Event = Event(kind: EventKind, mac: Mac)

  datatype Body = Ping | Hello | Join | Accept(siblings: seq<Mac>) | Cancel
                | Birth(newborn: Mac) | Death(dead: Mac) | Bye

  datatype Packet = Packet(src: Mac, dst: Mac, body: Body)

  /** `stack` and `events` are the input and event stacks, newest message first. */
  datatype Context = Context(
    mac: Mac, mode: Mode, running: bool, maxpeers: nat, keepalive: nat, timeout: nat,
    peers: seq<Peer>, stack: seq<Message>, events: seq<Event>)

  datatype ApiResult = Success | AlreadyEstablished | ExceedMaxnum | RequestInProgress
                     | TargetNotReady | UnknownTarget | NotRunning

  const REMOVAL_DELAY: nat := 120000
  const ADHOCCTL_GRACE: nat := 3000000

  // ----- the peer list -----

  /** Index of the first peer with this MAC, or the length of the list. */
  function FindPeer(peers: seq<Peer>, mac: Mac): (k: nat)
    ensures k <= |peers|
    ensures k < |peers| ==> peers[k].mac == mac
    ensures forall i :: 0 <= i < k ==> peers[i].mac != mac
  {
    if peers == [] || peers[0].mac == mac then 0 else 1 + FindPeer(peers[1..], mac)
  }

  /** Index of the first peer in this state, or the length of the list. */
  function FindState(peers: seq<Peer>, state: PeerState): (k: nat)
    ensures k <= |peers|
    ensures k < |peers| ==> peers[k].state == state
    ensures forall i :: 0 <= i < k ==> peers[i].state != state
  {
    if peers == [] || peers[0].state == state then 0 else 1 + FindState(peers[1..], state)
  }

  predicate HasState(peers: seq<Peer>, state: PeerState) {
    FindState(peers, state) < |peers|
  }

  function Count(peers: seq<Peer>, states: set<PeerState>): nat {
    if peers == [] then 0
    else (if peers[0].state in states then 1 else 0) + Count(peers[1..], states)
  }

  function CountChildren(peers: seq<Peer>): nat {
    Count(peers, {ChildPeer})
  }

  function CountConnected(c: Context): nat {
    match c.mode
    case Host => CountChildren(c.peers) + 1
    case Client => if HasState(c.peers, ParentPeer) then CountChildren(c.peers) + 2 else 1
    case Pair => if HasState(c.peers, PairPeer) then 2 else 1
  }

  function Delete(peers: seq<Peer>, k: nat): seq<Peer>
    requires k < |peers|
  {
    peers[..k] + peers[k + 1..]
  }

  function SetState(peers: seq<Peer>, k: nat, state: PeerState): seq<Peer>
    requires k < |peers|
  {
    peers[k := peers[k].(state := state)]
  }

  /** What a running context never changes. */
  predicate SameRole(c: Context, c': Context) {
    c'.mac == c.mac && c'.mode == c.mode && c'.maxpeers == c.maxpeers
    && c'.keepalive == c.keepalive && c'.timeout == c.timeout
  }

  function NewPeer(mac: Mac, state: PeerState, now: nat): Peer {
    Peer(mac, state, now, now, false)
  }

  function Spawn(c: Context, kind: EventKind, mac: Mac): Context {
    c.(events := [Event(kind, mac)] + c.events)
  }

  function Push(c: Context, m: Message): Context {
    c.(stack := [m] + c.stack)
  }

  // ----- API calls -----

  /** `proNetAdhocMatchingSelectTarget` */
  function SelectTarget(c: Context, target: Mac): (Context, ApiResult) {
    var k := FindPeer(c.peers, target);
    if !c.running then (c, NotRunning)
    else if k == |c.peers| then (c, UnknownTarget)
    else match c.mode
      case Host => SelectAsHost(c, k, target)
      case Client => SelectAsClient(c, k, target)
      case Pair => SelectAsPair(c, k, target)
  }

  function SelectAsHost(c: Context, k: nat, target: Mac): (Context, ApiResult)
    requires k < |c.peers|
  {
    if c.peers[k].state == ChildPeer then (c, AlreadyEstablished)
    else if CountChildren(c.peers) == c.maxpeers - 1 then (c, ExceedMaxnum)
    else if c.peers[k].state == IncomingRequest then
      var c1 := c.(peers := SetState(c.peers, k, ChildPeer));
      (Push(Push(c1, AcceptMessage(target)), BirthMessage(target)), Success)
    else (c, TargetNotReady)
  }

  function SelectAsClient(c: Context, k: nat, target: Mac): (Context, ApiResult)
    requires k < |c.peers|
  {
    if HasState(c.peers, ParentPeer) then (c, AlreadyEstablished)
    else if HasState(c.peers, OutgoingRequest) then (c, RequestInProgress)
    else if c.peers[k].state == Offer then
      (Push(c.(peers := SetState(c.peers, k, OutgoingRequest)), JoinMessage(target)), Success)
    else (c, TargetNotReady)
  }

  function SelectAsPair(c: Context, k: nat, target: Mac): (Context, ApiResult)
    requires k < |c.peers|
  {
    if HasState(c.peers, PairPeer) then (c, AlreadyEstablished)
    else if HasState(c.peers, OutgoingRequest) then (c, RequestInProgress)
    else if c.peers[k].state == Offer then
      var peer := c.peers[k].(joining := true, state := OutgoingRequest);
      (Push(c.(peers := c.peers[k := peer]), JoinMessage(target)), Success)
    else if c.peers[k].state == IncomingRequest then
      var peer := c.peers[k].(joining := true, state := PairPeer);
      (Push(c.(peers := c.peers[k := peer]), AcceptMessage(target)), Success)
    else (c, TargetNotReady)
  }

  predicate Cancellable(mode: Mode, state: PeerState) {
    match mode
    case Client => state == ParentPeer || state == OutgoingRequest
    case Host => state == ChildPeer || state == IncomingRequest
    case Pair => state == PairPeer || state == IncomingRequest
  }

  /** `proNetAdhocMatchingCancelTargetWithOpt` */
  function CancelTarget(c: Context, target: Mac): (Context, ApiResult) {
    var k := FindPeer(c.peers, target);
    if !c.running then (c, NotRunning)
    else if k == |c.peers| || !Cancellable(c.mode, c.peers[k].state) then (c, UnknownTarget)
    else (CancelPeer(c, k, target), Success)
  }

  function CancelPeer(c: Context, k: nat, target: Mac): Context
    requires k < |c.peers|
  {
    var c1 :=
      if c.mode == Host && c.peers[k].state == ChildPeer && CountConnected(c) > 1
      then Push(c, DeathMessage(target)) else c;
    Push(c1.(peers := SetState(c.peers, k, CancelInProgress)), CancelMessage(target))
  }

  // ----- packets the IO thread sends -----

  /** MACs of the children other than the peer at index k, in list order. */
  function Siblings(peers: seq<Peer>, k: int): seq<Mac> {
    if peers == [] then []
    else (if k != 0 && peers[0].state == ChildPeer then [peers[0].mac] else []) + Siblings(peers[1..], k - 1)
  }

  function ToAll(src: Mac, dsts: seq<Mac>, body: Body): (ps: seq<Packet>)
    ensures |ps| == |dsts|
    ensures forall i :: 0 <= i < |ps| ==> ps[i] == Packet(src, dsts[i], body)
  {
    seq(|dsts|, i requires 0 <= i < |dsts| => Packet(src, dsts[i], body))
  }

  function SendAccept(c: Context, mac: Mac): (Context, seq<Packet>) {
    var k := FindPeer(c.peers, mac);
    if k < |c.peers| && (c.peers[k].state == ChildPeer || c.peers[k].state == PairPeer) then
      var siblings := if c.mode == Host then Siblings(c.peers, k) else [];
      (Spawn(c, EstablishedEvent, mac), [Packet(c.mac, mac, Accept(siblings))])
    else (c, [])
  }

  function SendJoin(c: Context, mac: Mac): (Context, seq<Packet>) {
    var k := FindPeer(c.peers, mac);
    if k < |c.peers| && c.peers[k].state == OutgoingRequest then (c, [Packet(c.mac, mac, Join)])
    else (c, [])
  }

  function SendCancel(c: Context, mac: Mac): (r: (Context, seq<Packet>))
    ensures SameRole(c, r.0)
  {
    var k := FindPeer(c.peers, mac);
    var c' :=
      if k == |c.peers| then c
      else if c.mode == Client then c.(peers := [])
      else c.(peers := Delete(c.peers, k));
    (c', [Packet(c.mac, mac, Cancel)])
  }

  function SendBirth(c: Context, mac: Mac): (Context, seq<Packet>) {
    var k := FindPeer(c.peers, mac);
    if k < |c.peers| then (c, ToAll(c.mac, Siblings(c.peers, k), Birth(mac)))
    else (c, [])
  }

  /** The notices of a death in list order: Bye to the dead child, Death to the other children. */
  function DeathNotices(src: Mac, peers: seq<Peer>, k: int, dead: Mac): seq<Packet> {
    if peers == [] then []
    else
      (if k == 0 then [Packet(src, peers[0].mac, Bye)]
       else if peers[0].state == ChildPeer then [Packet(src, peers[0].mac, Death(dead))]
       else [])
      + DeathNotices(src, peers[1..], k - 1, dead)
  }

  function SendDeath(c: Context, mac: Mac): (r: (Context, seq<Packet>))
    ensures SameRole(c, r.0)
  {
    var k := FindPeer(c.peers, mac);
    if k < |c.peers| then (c.(peers := Delete(c.peers, k)), DeathNotices(c.mac, c.peers, k, mac))
    else (c, [])
  }

  function SendMessage(c: Context, m: Message): (Context, seq<Packet>) {
    match m
    case AcceptMessage(mac) => SendAccept(c, mac)
    case JoinMessage(mac) => SendJoin(c, mac)
    case CancelMessage(mac) => SendCancel(c, mac)
    case BirthMessage(mac) => SendBirth(c, mac)
    case DeathMessage(mac) => SendDeath(c, mac)
  }

  function SendMessages(c: Context, stack: seq<Message>): (r: (Context, seq<Packet>))
    ensures SameRole(c, r.0)
    decreases |stack|
  {
    if stack == [] then (c, [])
    else
      var (c1, ps) := SendMessage(c, stack[0]);
      var (c2, ps') := SendMessages(c1, stack[1..]);
      (c2, ps + ps')
  }

  /** The IO thread handles its whole stack, newest message first, and clears it. */
  function Drain(c: Context): (r: (Context, seq<Packet>))
    ensures SameRole(c, r.0)
  {
    var (c', ps) := SendMessages(c, c.stack);
    (c'.(stack := []), ps)
  }

  // ----- packets the IO thread receives -----

  function OnPing(c: Context, src: Mac, now: nat): Context {
    var k := FindPeer(c.peers, src);
    if k < |c.peers| then c.(peers := c.peers[k := c.peers[k].(lastping := now, lastSeen := now)]) else c
  }

  /** A client without a parent or a pair node without a partner. */
  predicate Unattached(c: Context) {
    || (c.mode == Client && !HasState(c.peers, ParentPeer))
    || (c.mode == Pair && !HasState(c.peers, PairPeer))
  }

  function Met(c: Context, src: Mac, now: nat): Context {
    if FindPeer(c.peers, src) < |c.peers| then c else c.(peers := [NewPeer(src, Offer, now)] + c.peers)
  }

  function OnHello(c: Context, src: Mac, now: nat): (c': Context)
    ensures SameRole(c, c')
  {
    if !Unattached(c) then c else Spawn(Met(c, src, now), HelloEvent, src)
  }

  /** A join request is recorded, ignored by a host that knows the peer, or refused when there
      is no free slot. */
  function OnJoin(c: Context, src: Mac, now: nat): (r: (Context, seq<Packet>))
    ensures SameRole(c, r.0)
  {
    if c.mode == Client then (c, [])
    else if (c.mode == Host && CountChildren(c.peers) < c.maxpeers - 1)
         || (c.mode == Pair && !HasState(c.peers, PairPeer)) then (Recorded(c, src, now), [])
    else SendCancel(c, src)
  }

  function Recorded(c: Context, src: Mac, now: nat): Context {
    var k := FindPeer(c.peers, src);
    if k < |c.peers| && c.mode == Host then c
    else if k == |c.peers| then
      var peer := NewPeer(src, IncomingRequest, now).(joining := c.mode == Pair);
      Spawn(c.(peers := [peer] + c.peers), RequestEvent, src)
    else
      var peer := Peer(c.peers[k].mac, IncomingRequest, now, now, true);
      Spawn(c.(peers := c.peers[k := peer]), RequestEvent, src)
  }

  predicate Needed(p: Peer) {
    p.state == ChildPeer || p.state == PairPeer || p.state == ParentPeer || p.state == Self
  }

  /** `_postAcceptCleanPeerList` */
  function Clean(peers: seq<Peer>): seq<Peer> {
    if peers == [] then []
    else (if Needed(peers[0]) then [peers[0]] else []) + Clean(peers[1..])
  }

  function AddSibling(peers: seq<Peer>, mac: Mac, now: nat): seq<Peer> {
    var k := FindPeer(peers, mac);
    if k < |peers| then peers[k := peers[k].(state := ChildPeer, lastping := now, lastSeen := now)]
    else [NewPeer(mac, ChildPeer, now)] + peers
  }

  /** `_postAcceptAddSiblings`: the last sibling of the packet first. */
  function AddSiblings(peers: seq<Peer>, siblings: seq<Mac>, now: nat): seq<Peer>
    decreases |siblings|
  {
    if siblings == [] then peers
    else AddSiblings(AddSibling(peers, siblings[|siblings| - 1], now), siblings[..|siblings| - 1], now)
  }

  function AddSelf(peers: seq<Peer>, mac: Mac, now: nat): seq<Peer> {
    if FindPeer(peers, mac) < |peers| then peers else [NewPeer(mac, Self, now)] + peers
  }

  /** The peers once the answer of the peer at index k has come. */
  function AcceptedPeers(c: Context, k: nat, siblings: seq<Mac>, now: nat): seq<Peer>
    requires k < |c.peers|
  {
    WithFamily(c.mode, c.mac, Clean(c.peers[k := AcceptedPeer(c.mode, c.peers[k])]), siblings, now)
  }

  function AcceptedPeer(mode: Mode, p: Peer): Peer {
    p.(state := if mode == Client then ParentPeer else PairPeer, joining := mode == Pair || p.joining)
  }

  /** A client adds its siblings and itself. */
  function WithFamily(mode: Mode, self: Mac, peers: seq<Peer>, siblings: seq<Mac>, now: nat): seq<Peer> {
    if mode == Client then AddSelf(AddSiblings(peers, siblings, now), self, now) else peers
  }

  function OnAccept(c: Context, src: Mac, siblings: seq<Mac>, now: nat): (c': Context)
    ensures SameRole(c, c')
  {
    if Awaited(c, src) then Established(c, FindState(c.peers, OutgoingRequest), src, siblings, now) else c
  }

  /** The sender is the peer that was asked, and the answer is still of use. */
  predicate Awaited(c: Context, src: Mac) {
    Unattached(c) && FindPeer(c.peers, src) == FindState(c.peers, OutgoingRequest) < |c.peers|
  }

  function Established(c: Context, k: nat, src: Mac, siblings: seq<Mac>, now: nat): Context
    requires k < |c.peers|
  {
    var peers := AcceptedPeers(c, k, siblings, now);
    Spawn(Spawn(c.(peers := peers), EstablishedEvent, src), AcceptEvent, src)
  }

  /** A leave event for every established peer of a client, in list order. */
  function LeaveEvents(events: seq<Event>, peers: seq<Peer>): seq<Event>
    decreases |peers|
  {
    if peers == [] then events
    else
      LeaveEvents(if peers[0].state == ChildPeer || peers[0].state == ParentPeer
                  then [Event(LeaveEvent, peers[0].mac)] + events else events, peers[1..])
  }

  /** The walk after a kick or a bye of the parent: the self entry goes, the others are stamped. */
  function DropSelf(peers: seq<Peer>, self: Mac, stamp: nat): seq<Peer> {
    if peers == [] then []
    else (if peers[0].mac == self then [] else [peers[0].(lastping := stamp)]) + DropSelf(peers[1..], self, stamp)
  }

  function Stamp(peers: seq<Peer>, k: nat, stamp: nat): seq<Peer>
    requires k < |peers|
  {
    peers[k := peers[k].(lastping := stamp)]
  }

  /** A cancelled peer is stamped and reported. */
  function Cancelled(c: Context, k: nat, kind: EventKind, src: Mac, stamp: nat): Context
    requires k < |c.peers|
  {
    Spawn(c.(peers := Stamp(c.peers, k, stamp)), kind, src)
  }

  function NotJoining(c: Context, k: nat): Context
    requires k < |c.peers|
  {
    c.(peers := c.peers[k := c.peers[k].(joining := false)])
  }

  function CancelAtClient(c: Context, k: nat, src: Mac, stamp: nat): Context
    requires k < |c.peers|
  {
    var c1 := NotJoining(c, k);
    if FindState(c.peers, OutgoingRequest) == k then Cancelled(c1, k, DenyEvent, src, stamp)
    else if FindState(c.peers, ParentPeer) == k then Kicked(c1, stamp)
    else c1
  }

  function Kicked(c: Context, stamp: nat): Context {
    c.(peers := DropSelf(c.peers, c.mac, stamp), events := LeaveEvents(c.events, c.peers))
  }

  function CancelAtHost(c: Context, k: nat, src: Mac, stamp: nat): Context
    requires k < |c.peers|
  {
    var c1 := NotJoining(c, k);
    if c.peers[k].state == IncomingRequest then Cancelled(c1, k, CancelEvent, src, stamp)
    else if c.peers[k].state == ChildPeer then Cancelled(c1, k, LeaveEvent, src, stamp)
    else c1
  }

  function CancelAtPair(c: Context, k: nat, src: Mac, stamp: nat): Context
    requires k < |c.peers|
  {
    var c1 := NotJoining(c, k);
    if FindState(c.peers, OutgoingRequest) == k then Cancelled(c1, k, DenyEvent, src, stamp)
    else if FindState(c.peers, PairPeer) == k then Cancelled(c1, k, LeaveEvent, src, stamp)
    else if c.peers[k].state == IncomingRequest then Cancelled(c1, k, CancelEvent, src, stamp)
    else c1
  }

  function OnCancel(c: Context, src: Mac, stamp: nat): (c': Context)
    ensures SameRole(c, c')
  {
    var k := FindPeer(c.peers, src);
    if k == |c.peers| then c
    else match c.mode
      case Client => CancelAtClient(c, k, src, stamp)
      case Host => CancelAtHost(c, k, src, stamp)
      case Pair => CancelAtPair(c, k, src, stamp)
  }

  /** The sender is the parent of this client. */
  predicate FromParent(c: Context, src: Mac) {
    var k := FindPeer(c.peers, src);
    c.mode == Client && k < |c.peers| && FindState(c.peers, ParentPeer) == k
  }

  function OnBirth(c: Context, src: Mac, newborn: Mac, now: nat): Context {
    if FromParent(c, src) then c.(peers := [NewPeer(newborn, ChildPeer, now)] + c.peers) else c
  }

  function OnDeath(c: Context, src: Mac, dead: Mac): Context {
    if FromParent(c, src) then Bury(c, dead) else c
  }

  function Bury(c: Context, dead: Mac): Context {
    var d := FindPeer(c.peers, dead);
    if d < |c.peers| && c.peers[d].state == ChildPeer then Spawn(c, LeaveEvent, dead).(peers := Delete(c.peers, d))
    else c
  }

  predicate ByeMatters(mode: Mode, state: PeerState) {
    match mode
    case Host => state == ChildPeer
    case Client => state == ChildPeer
    case Pair => state in {PairPeer, Offer, IncomingRequest, OutgoingRequest, CancelInProgress}
  }

  function OnBye(c: Context, src: Mac, stamp: nat): (c': Context)
    ensures SameRole(c, c')
  {
    var k := FindPeer(c.peers, src);
    if src == c.mac || k == |c.peers| then c
    else if ByeMatters(c.mode, c.peers[k].state) then
      Spawn(c.(peers := Stamp(c.peers, k, stamp)), ByeEvent, src)
    else if c.mode == Client && c.peers[k].state == ParentPeer then
      Spawn(c, ByeEvent, src).(peers := DropSelf(c.peers, c.mac, stamp))
    else c
  }

  function OnPacket(c: Context, src: Mac, body: Body, now: nat): (r: (Context, seq<Packet>))
    ensures SameRole(c, r.0)
  {
    match body
    case Ping => (OnPing(c, src, now), [])
    case Hello => (OnHello(c, src, now), [])
    case Join => OnJoin(c, src, now)
    case Accept(siblings) => (OnAccept(c, src, siblings, now), [])
    case Cancel => (OnCancel(c, src, now + REMOVAL_DELAY), [])
    case Birth(newborn) => (OnBirth(c, src, newborn, now), [])
    case Death(dead) => (OnDeath(c, src, dead), [])
    case Bye => (OnBye(c, src, now + REMOVAL_DELAY), [])
  }

  // ----- timers -----

  predicate TimedOut(timeout: nat, p: Peer, now: nat) {
    (now > p.lastping && now - p.lastping >= timeout) || p.lastping == 0
  }

  /** The states a timeout event is raised for. In client mode the code compares the peer state
      with the number of the parent mode, which is the number of an offer. */
  predicate TimeoutEventDue(mode: Mode, state: PeerState) {
    match mode
    case Client => state == Offer
    case Host => state == ChildPeer
    case Pair => state in {PairPeer, Offer, IncomingRequest, OutgoingRequest, CancelInProgress}
  }

  function Evict(c: Context, target: Mac): (r: (Context, seq<Packet>))
    ensures SameRole(c, r.0)
  {
    if c.mode == Host then SendDeath(c, target) else SendCancel(c, target)
  }

  /** The turn of one peer, and whether a peer was taken out. */
  function PeerTurn(c: Context, k: nat, now: nat): (r: (Context, seq<Packet>, bool))
    requires k < |c.peers|
    ensures SameRole(c, r.0)
    ensures if r.2 then |r.0.peers| < |c.peers| else |r.0.peers| == |c.peers| && r.1 == []
  {
    var p := c.peers[k];
    if !TimedOut(c.timeout, p, now) || p.joining then (c, [], false)
    else
      var c1 := if TimeoutEventDue(c.mode, p.state) then Spawn(c, TimeoutEvent, p.mac) else c;
      if p.mac == c.mac then (c1, [], false)
      else
        assert FindPeer(c.peers, p.mac) <= k;
        var (c2, ps) := Evict(c1, p.mac);
        (c2, ps, true)
  }

  /** The walk of `_handleTimeout` from the peer at index k on. A removal takes out the first
      peer of that MAC, at or before k, so the saved next peer is then at index k; it may also
      empty the list, which ends the walk. */
  function TimeoutWalk(c: Context, k: nat, now: nat): (r: (Context, seq<Packet>))
    ensures SameRole(c, r.0)
    decreases |c.peers| - k
  {
    if k >= |c.peers| then (c, [])
    else
      var (c1, ps, gone) := PeerTurn(c, k, now);
      var (c2, ps') := TimeoutWalk(c1, if gone then k else k + 1, now);
      (c2, ps + ps')
  }

  function HandleTimeout(c: Context, now: nat): (r: (Context, seq<Packet>))
    ensures SameRole(c, r.0)
  {
    if c.keepalive == 0 then (c, []) else TimeoutWalk(c, 0, now)
  }

  function SelfEntries(peers: seq<Peer>, self: Mac): (n: nat)
    ensures n + |DropSelf(peers, self, 0)| == |peers|
  {
    if peers == [] then 0 else (if peers[0].mac == self then 1 else 0) + SelfEntries(peers[1..], self)
  }

  lemma {:induction false} SelfEntriesBefore(peers: seq<Peer>, self: Mac, k: nat)
    requires k <= |peers|
    ensures SelfEntries(peers[..k], self) <= SelfEntries(peers, self)
  {
    if k > 0 {
      SelfEntriesBefore(peers[1..], self, k - 1);
      assert peers[..k][1..] == peers[1..][..k - 1];
    }
  }

  /** One turn of `timeout_missing_peers_on_adhocctl`, and the index it goes on at: a peer the
      group server no longer lists is treated as if it had said bye. The walk goes on behind the
      peer, whose index is lower by the self entries dropped before it. */
  function AdhocctlVisit(c: Context, k: nat, now: nat, missing: set<Mac>): (r: (Context, nat))
    requires k < |c.peers|
    ensures SameRole(c, r.0) && |r.0.peers| - r.1 < |c.peers| - k
  {
    if c.peers[k].state == Self then (c, k + 1)
    else if c.peers[k].mac !in missing then
      (c.(peers := c.peers[k := c.peers[k].(lastSeen := now, lastping := now)]), k + 1)
    else if now - c.peers[k].lastSeen > ADHOCCTL_GRACE then ByeVisit(c, k)
    else (c, k + 1)
  }

  function ByeVisit(c: Context, k: nat): (r: (Context, nat))
    requires k < |c.peers|
    ensures SameRole(c, r.0) && |r.0.peers| - r.1 < |c.peers| - k
  {
    SelfEntriesBefore(c.peers, c.mac, k);
    var c' := OnBye(c, c.peers[k].mac, 0);
    (c', k + 1 - if |c'.peers| < |c.peers| then SelfEntries(c.peers[..k], c.mac) else 0)
  }

  function AdhocctlWalk(c: Context, k: nat, now: nat, missing: set<Mac>): (c': Context)
    ensures SameRole(c, c')
    decreases |c.peers| - k
  {
    if k >= |c.peers| then c
    else
      var (c1, next) := AdhocctlVisit(c, k, now, missing);
      AdhocctlWalk(c1, next, now, missing)
  }

  // ----- stopping -----

  function ByeNotices(src: Mac, peers: seq<Peer>): seq<Packet> {
    if peers == [] then []
    else
      (if peers[0].state == ParentPeer || peers[0].state == ChildPeer || peers[0].state == PairPeer
       then [Packet(src, peers[0].mac, Bye)] else [])
      + ByeNotices(src, peers[1..])
  }

  /** The end of the IO thread: bye to the established peers, and the list is cleared. */
  function Stop(c: Context): (r: (Context, seq<Packet>))
    ensures SameRole(c, r.0)
  {
    (c.(peers := [], running := false), ByeNotices(c.mac, c.peers))
  }

  // ----- member list -----

  function Reverse<T>(s: seq<T>): seq<T> {
    if s == [] then [] else Reverse(s[1..]) + [s[0]]
  }

  predicate Listed(mode: Mode, p: Peer) {
    p.state == ChildPeer || (mode == Client && p.state == Self)
  }

  function ListedMacs(mode: Mode, peers: seq<Peer>): seq<Mac> {
    if peers == [] then []
    else (if Listed(mode, peers[0]) then [peers[0].mac] else []) + ListedMacs(mode, peers[1..])
  }

  /** `proNetAdhocMatchingGetMembers` with room for every connected peer. */
  function Members(c: Context): seq<Mac> {
    match c.mode
    case Pair =>
      var k := FindState(c.peers, PairPeer);
      [c.mac] + (if k < |c.peers| then [c.peers[k].mac] else [])
    case Host => [c.mac] + ListedMacs(Host, Reverse(c.peers))
    case Client =>
      var k := FindState(c.peers, ParentPeer);
      if k == |c.peers| then [c.mac] else [c.peers[k].mac] + ListedMacs(Client, Reverse(c.peers))
  }

  // ----- member list in a buffer of any size -----

  /** Listing a peer counts as a sign of life, unless it is already given up. */
  function Bumped(p: Peer, now: nat): Peer {
    if p.lastping != 0 then p.(lastping := now) else p
  }

  function BumpAll(peers: seq<Peer>, now: nat): (s: seq<Peer>)
    ensures |s| == |peers| && forall i :: 0 <= i < |s| ==> s[i] == Bumped(peers[i], now)
  {
    seq(|peers|, i requires 0 <= i < |peers| => Bumped(peers[i], now))
  }

  function Took<T>(s: seq<T>, n: nat): seq<T> {
    if n < |s| then s[..n] else s
  }

  /** Everyone in the order they are listed: the host first, then the children as they joined. */
  function Listing(c: Context): seq<Mac> {
    (if c.mode == Client then [] else [c.mac]) + StateMac(c.peers, if c.mode == Pair then PairPeer else ParentPeer)
    + (if c.mode == Pair then [] else ListedMacs(c.mode, Reverse(c.peers)))
  }

  function StateMac(peers: seq<Peer>, state: PeerState): seq<Mac> {
    var k := FindState(peers, state);
    if k < |peers| then [peers[k].mac] else []
  }

  function Requested(c: Context, room: nat): nat {
    if room < CountConnected(c) then room else CountConnected(c)
  }

  /** What the buffer holds: with room for one, only a player who comes first is listed. */
  function Shown(c: Context, room: nat): seq<Mac> {
    var n := Requested(c, room);
    if n == 0 then []
    else if n == 1 then (if c.mode != Client || CountConnected(c) == 1 then [c.mac] else [])
    else Took(Listing(c), n)
  }

  function BumpState(peers: seq<Peer>, state: PeerState, now: nat): seq<Peer> {
    var k := FindState(peers, state);
    if k < |peers| then peers[k := Bumped(peers[k], now)] else peers
  }

  function AfterListing(c: Context, room: nat, now: nat): Context {
    c.(peers := PeersAfter(c, room, now))
  }

  function PeersAfter(c: Context, room: nat, now: nat): seq<Peer> {
    if Requested(c, room) <= 1 then c.peers
    else if c.mode == Pair then BumpState(c.peers, PairPeer, now)
    else BumpAll(c.peers, now)
  }
}
