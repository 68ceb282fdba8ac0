/** What every call, handler and IO step of one matching context keeps: the limits of its role
    and the consent behind every relation in its peer list. */
module MatchingInvariant {
  import opened MatchingSpec

  // ----- counting peers -----

  lemma {:induction false} CountUpdate(peers: seq<Peer>, k: nat, p: Peer, s: set<PeerState>)
    requires k < |peers|
    ensures Count(peers[k := p], s)
      == Count(peers, s) - (if peers[k].state in s then 1 else 0) + (if p.state in s then 1 else 0)
  {
    if k > 0 {
      assert peers[k := p][1..] == peers[1..][k - 1 := p];
      CountUpdate(peers[1..], k - 1, p, s);
    } else {
      assert peers[0 := p][1..] == peers[1..];
    }
  }

  lemma {:induction false} CountDelete(peers: seq<Peer>, k: nat, s: set<PeerState>)
    requires k < |peers|
    ensures Count(Delete(peers, k), s) == Count(peers, s) - (if peers[k].state in s then 1 else 0)
  {
    if k > 0 {
      assert Delete(peers, k)[1..] == Delete(peers[1..], k - 1);
      CountDelete(peers[1..], k - 1, s);
    } else {
      assert Delete(peers, 0) == peers[1..];
    }
  }

  lemma {:induction false} CountFree(peers: seq<Peer>, s: set<PeerState>)
    requires forall state :: state in s ==> !HasState(peers, state)
    ensures Count(peers, s) == 0
  {
    if peers != [] {
      assert forall state :: state in s ==> !HasState(peers[1..], state);
      CountFree(peers[1..], s);
      assert peers[0].state in s ==> FindState(peers, peers[0].state) == 0;
    }
  }

  lemma {:induction false} CleanCount(peers: seq<Peer>, s: set<PeerState>)
    ensures Count(Clean(peers), s) <= Count(peers, s)
    ensures forall p :: p in Clean(peers) ==> p in peers && Needed(p)
  {
    if peers != [] {
      CleanCount(peers[1..], s);
      assert Needed(peers[0]) ==> Clean(peers)[1..] == Clean(peers[1..]);
      assert !Needed(peers[0]) ==> Clean(peers) == Clean(peers[1..]);
    }
  }

  lemma {:induction false} DropSelfCount(peers: seq<Peer>, self: Mac, stamp: nat, s: set<PeerState>)
    ensures Count(DropSelf(peers, self, stamp), s) <= Count(peers, s)
    ensures forall p :: p in DropSelf(peers, self, stamp) ==>
      exists q :: q in peers && p == q.(lastping := stamp)
  {
    if peers != [] {
      DropSelfCount(peers[1..], self, stamp, s);
      assert peers[0].mac != self ==> DropSelf(peers, self, stamp)[1..] == DropSelf(peers[1..], self, stamp);
      assert peers[0].mac == self ==> DropSelf(peers, self, stamp) == DropSelf(peers[1..], self, stamp);
      assert forall q :: q in peers[1..] ==> q in peers;
    }
  }

  // ----- MACs -----

  ghost predicate UniqueMacs(peers: seq<Peer>) {
    forall i, j :: 0 <= i < j < |peers| ==> peers[i].mac != peers[j].mac
  }

  lemma {:induction false} CleanUnique(peers: seq<Peer>)
    requires UniqueMacs(peers)
    ensures UniqueMacs(Clean(peers))
  {
    if peers != [] {
      CleanUnique(peers[1..]);
      CleanCount(peers[1..], {});
      assert forall p :: p in peers[1..] ==> p.mac != peers[0].mac;
    }
  }

  // ----- the invariant of a context -----

  /** The states a mode uses. */
  ghost predicate Allowed(mode: Mode, state: PeerState) {
    match mode
    case Host => state in {ChildPeer, IncomingRequest, CancelInProgress}
    case Client => state in {Self, Offer, ParentPeer, ChildPeer, OutgoingRequest, CancelInProgress}
    case Pair => state in {Offer, PairPeer, IncomingRequest, OutgoingRequest, CancelInProgress}
  }

  /** The states of which a context holds a limited number of peers, and the limit. */
  ghost function Exclusive(mode: Mode): set<PeerState> {
    match mode
    case Host => {ChildPeer}
    case Client => {ParentPeer, OutgoingRequest}
    case Pair => {PairPeer, OutgoingRequest}
  }

  ghost function Limit(c: Context): int {
    if c.mode == Host then c.maxpeers - 1 else 1
  }

  ghost predicate RoleLimits(c: Context) {
    && 2 <= c.maxpeers
    && Count(c.peers, Exclusive(c.mode)) <= Limit(c)
    && (c.mode != Client ==> UniqueMacs(c.peers))
    && (forall p :: p in c.peers ==> Allowed(c.mode, p.state))
  }

  /** Successful SelectTarget calls so far, as pairs (caller, target). */
  type Selections = set<(Mac, Mac)>

  /** Who must have selected whom for a peer to be in its state. */
  ghost predicate Consented(mode: Mode, me: Mac, p: Peer, sel: Selections) {
    && (p.state == OutgoingRequest ==> (me, p.mac) in sel)
    && (p.state == IncomingRequest ==> (p.mac, me) in sel)
    && (p.state == ParentPeer || p.state == PairPeer || (mode == Host && p.state == ChildPeer) ==>
          (me, p.mac) in sel && (p.mac, me) in sel)
  }

  ghost predicate NodeInv(c: Context, sel: Selections) {
    && RoleLimits(c)
    && (forall p :: p in c.peers ==> Consented(c.mode, c.mac, p, sel))
    && (c.mode == Client ==> forall m :: m in c.stack ==> !m.AcceptMessage?)
  }

  /** A join or accept packet was sent after its sender selected the receiver. */
  ghost predicate Honest(ps: seq<Packet>, sel: Selections) {
    forall p :: p in ps && (p.body.Join? || p.body.Accept?) ==> (p.src, p.dst) in sel
  }

  // ----- changes to the peer list -----

  ghost predicate PeerFits(c: Context, p: Peer, sel: Selections) {
    Allowed(c.mode, p.state) && Consented(c.mode, c.mac, p, sel)
  }

  lemma KeepUpdate(c: Context, k: nat, p: Peer, sel: Selections)
    requires NodeInv(c, sel) && k < |c.peers| && p.mac == c.peers[k].mac && PeerFits(c, p, sel)
    requires p.state in Exclusive(c.mode) && c.peers[k].state !in Exclusive(c.mode) ==>
      Count(c.peers, Exclusive(c.mode)) < Limit(c)
    ensures NodeInv(c.(peers := c.peers[k := p]), sel)
  {
    CountUpdate(c.peers, k, p, Exclusive(c.mode));
  }

  lemma KeepPush(c: Context, p: Peer, sel: Selections)
    requires NodeInv(c, sel) && PeerFits(c, p, sel) && p.state !in Exclusive(c.mode)
    requires c.mode != Client ==> FindPeer(c.peers, p.mac) == |c.peers|
    ensures NodeInv(c.(peers := [p] + c.peers), sel)
  {
    assert ([p] + c.peers)[1..] == c.peers;
  }

  lemma KeepDelete(c: Context, k: nat, sel: Selections)
    requires NodeInv(c, sel) && k < |c.peers|
    ensures NodeInv(c.(peers := Delete(c.peers, k)), sel)
  {
    CountDelete(c.peers, k, Exclusive(c.mode));
    var rest := Delete(c.peers, k);
    assert forall i :: 0 <= i < |rest| ==> rest[i] == c.peers[if i < k then i else i + 1];
  }

  lemma KeepClear(c: Context, sel: Selections)
    requires NodeInv(c, sel)
    ensures NodeInv(c.(peers := []), sel)
  {
  }

  // ----- API calls -----

  function WithSelection(sel: Selections, me: Mac, target: Mac, r: ApiResult): Selections {
    if r == Success then sel + {(me, target)} else sel
  }

  lemma MoreSelections(c: Context, sel: Selections, sel': Selections)
    requires NodeInv(c, sel) && sel <= sel'
    ensures NodeInv(c, sel')
  {
  }

  /** Two peer states that are both absent leave room for one committed peer. */
  lemma NoCommitment(c: Context, state: PeerState)
    requires c.mode != Host && Exclusive(c.mode) == {state, OutgoingRequest}
    requires !HasState(c.peers, state) && !HasState(c.peers, OutgoingRequest)
    ensures Count(c.peers, Exclusive(c.mode)) == 0
  {
    CountFree(c.peers, Exclusive(c.mode));
  }

  lemma SelectKeeps(c: Context, target: Mac, sel: Selections)
    requires NodeInv(c, sel)
    ensures var (c', r) := SelectTarget(c, target);
      NodeInv(c', WithSelection(sel, c.mac, target, r))
  {
    var k := FindPeer(c.peers, target);
    var (c', r) := SelectTarget(c, target);
    var sel' := WithSelection(sel, c.mac, target, r);
    MoreSelections(c, sel, sel');
    if r == Success {
      var p := c.peers[k];
      assert p in c.peers;
      if c.mode == Client {
        NoCommitment(c, ParentPeer);
        KeepUpdate(c, k, p.(state := OutgoingRequest), sel');
      } else if c.mode == Pair {
        NoCommitment(c, PairPeer);
        KeepUpdate(c, k, p.(joining := true, state := if p.state == Offer then OutgoingRequest else PairPeer), sel');
      } else {
        KeepUpdate(c, k, p.(state := ChildPeer), sel');
      }
    }
  }

  lemma CancelKeeps(c: Context, target: Mac, sel: Selections)
    requires NodeInv(c, sel)
    ensures NodeInv(CancelTarget(c, target).0, sel)
  {
    var k := FindPeer(c.peers, target);
    if CancelTarget(c, target).1 == Success {
      KeepUpdate(c, k, c.peers[k].(state := CancelInProgress), sel);
    }
  }

  // ----- sending -----

  lemma DeathNoticesHonest(src: Mac, peers: seq<Peer>, k: int, dead: Mac)
    ensures forall p :: p in DeathNotices(src, peers, k, dead) ==> p.src == src && (p.body.Bye? || p.body.Death?)
  {
    if peers != [] { DeathNoticesHonest(src, peers[1..], k - 1, dead); }
  }

  lemma SendCancelKeeps(c: Context, mac: Mac, sel: Selections)
    requires NodeInv(c, sel)
    ensures var (c', ps) := SendCancel(c, mac); NodeInv(c', sel) && Honest(ps, sel)
  {
    var k := FindPeer(c.peers, mac);
    if k < |c.peers| {
      KeepDelete(c, k, sel);
      KeepClear(c, sel);
    }
  }

  lemma SendDeathKeeps(c: Context, mac: Mac, sel: Selections)
    requires NodeInv(c, sel)
    ensures var (c', ps) := SendDeath(c, mac); NodeInv(c', sel) && Honest(ps, sel)
  {
    var k := FindPeer(c.peers, mac);
    if k < |c.peers| {
      KeepDelete(c, k, sel);
      DeathNoticesHonest(c.mac, c.peers, k, mac);
    }
  }

  lemma SendMessageKeeps(c: Context, m: Message, sel: Selections)
    requires NodeInv(c, sel) && (c.mode == Client ==> !m.AcceptMessage?)
    ensures var (c', ps) := SendMessage(c, m);
      NodeInv(c', sel) && Honest(ps, sel) && c'.mode == c.mode && c'.mac == c.mac
  {
    match m
    case AcceptMessage(mac) =>
      assert forall k :: 0 <= k < |c.peers| ==> Consented(c.mode, c.mac, c.peers[k], sel) && Allowed(c.mode, c.peers[k].state);
    case JoinMessage(mac) =>
      assert forall k :: 0 <= k < |c.peers| ==> Consented(c.mode, c.mac, c.peers[k], sel);
    case CancelMessage(mac) => SendCancelKeeps(c, mac, sel);
    case BirthMessage(mac) =>
    case DeathMessage(mac) => SendDeathKeeps(c, mac, sel);
  }

  lemma {:induction false} SendMessagesKeep(c: Context, stack: seq<Message>, sel: Selections)
    requires NodeInv(c, sel) && (c.mode == Client ==> forall m :: m in stack ==> !m.AcceptMessage?)
    ensures var (c', ps) := SendMessages(c, stack); NodeInv(c', sel) && Honest(ps, sel)
    decreases |stack|
  {
    if stack != [] {
      SendMessageKeeps(c, stack[0], sel);
      var (c1, ps) := SendMessage(c, stack[0]);
      assert forall m :: m in stack[1..] ==> m in stack;
      SendMessagesKeep(c1, stack[1..], sel);
    }
  }

  lemma DrainKeeps(c: Context, sel: Selections)
    requires NodeInv(c, sel)
    ensures var (c', ps) := Drain(c); NodeInv(c', sel) && Honest(ps, sel)
  {
    SendMessagesKeep(c, c.stack, sel);
  }

  // ----- receiving -----

  lemma OnHelloKeeps(c: Context, src: Mac, now: nat, sel: Selections)
    requires NodeInv(c, sel)
    ensures NodeInv(OnHello(c, src, now), sel)
  {
    if Unattached(c) && FindPeer(c.peers, src) == |c.peers| {
      KeepPush(c, NewPeer(src, Offer, now), sel);
    }
  }

  lemma OnJoinKeeps(c: Context, src: Mac, now: nat, sel: Selections)
    requires NodeInv(c, sel) && (src, c.mac) in sel
    ensures var (c', ps) := OnJoin(c, src, now); NodeInv(c', sel) && Honest(ps, sel)
  {
    var k := FindPeer(c.peers, src);
    if c.mode != Client {
      if k == |c.peers| {
        KeepPush(c, NewPeer(src, IncomingRequest, now).(joining := c.mode == Pair), sel);
      } else if c.mode == Pair {
        KeepUpdate(c, k, Peer(c.peers[k].mac, IncomingRequest, now, now, true), sel);
      }
      SendCancelKeeps(c, src, sel);
    }
  }

  lemma KeepStamp(c: Context, k: nat, stamp: nat, sel: Selections)
    requires NodeInv(c, sel) && k < |c.peers|
    ensures NodeInv(c.(peers := Stamp(c.peers, k, stamp)), sel)
  {
    assert c.peers[k] in c.peers;
    KeepUpdate(c, k, c.peers[k].(lastping := stamp), sel);
  }

  lemma KeepDropSelf(c: Context, stamp: nat, sel: Selections)
    requires NodeInv(c, sel) && c.mode == Client
    ensures NodeInv(c.(peers := DropSelf(c.peers, c.mac, stamp)), sel)
  {
    DropSelfCount(c.peers, c.mac, stamp, Exclusive(c.mode));
    forall p | p in DropSelf(c.peers, c.mac, stamp) ensures PeerFits(c, p, sel) {
      var q :| q in c.peers && p == q.(lastping := stamp);
    }
  }

  lemma OnCancelKeeps(c: Context, src: Mac, stamp: nat, sel: Selections)
    requires NodeInv(c, sel)
    ensures NodeInv(OnCancel(c, src, stamp), sel)
  {
    var k := FindPeer(c.peers, src);
    if k < |c.peers| {
      var c1 := c.(peers := c.peers[k := c.peers[k].(joining := false)]);
      assert c.peers[k] in c.peers;
      KeepUpdate(c, k, c.peers[k].(joining := false), sel);
      KeepStamp(c1, k, stamp, sel);
      if c.mode == Client {
        KeepDropSelf(c1, stamp, sel);
      }
    }
  }

  lemma OnByeKeeps(c: Context, src: Mac, stamp: nat, sel: Selections)
    requires NodeInv(c, sel)
    ensures NodeInv(OnBye(c, src, stamp), sel)
    ensures OnBye(c, src, stamp).mode == c.mode && OnBye(c, src, stamp).mac == c.mac
  {
    var k := FindPeer(c.peers, src);
    if k < |c.peers| {
      KeepStamp(c, k, stamp, sel);
      if c.mode == Client {
        KeepDropSelf(c, stamp, sel);
      }
    }
  }

  lemma KeepClean(c: Context, sel: Selections)
    requires NodeInv(c, sel)
    ensures NodeInv(c.(peers := Clean(c.peers)), sel)
  {
    CleanCount(c.peers, Exclusive(c.mode));
    if c.mode != Client {
      CleanUnique(c.peers);
    }
  }

  lemma {:induction false} KeepSiblings(c: Context, siblings: seq<Mac>, now: nat, sel: Selections)
    requires NodeInv(c, sel) && c.mode == Client
    ensures NodeInv(c.(peers := AddSiblings(c.peers, siblings, now)), sel)
    decreases |siblings|
  {
    if siblings != [] {
      var mac := siblings[|siblings| - 1];
      var k := FindPeer(c.peers, mac);
      if k < |c.peers| {
        KeepUpdate(c, k, c.peers[k].(state := ChildPeer, lastping := now, lastSeen := now), sel);
      } else {
        KeepPush(c, NewPeer(mac, ChildPeer, now), sel);
      }
      KeepSiblings(c.(peers := AddSibling(c.peers, mac, now)), siblings[..|siblings| - 1], now, sel);
    }
  }

  lemma OnAcceptKeeps(c: Context, src: Mac, siblings: seq<Mac>, now: nat, sel: Selections)
    requires NodeInv(c, sel) && (src, c.mac) in sel
    ensures NodeInv(OnAccept(c, src, siblings, now), sel)
  {
    var k := FindState(c.peers, OutgoingRequest);
    if Unattached(c) && k < |c.peers| && FindPeer(c.peers, src) == k {
      var peer := c.peers[k].(
        state := if c.mode == Client then ParentPeer else PairPeer,
        joining := c.mode == Pair || c.peers[k].joining);
      assert c.peers[k] in c.peers;
      KeepUpdate(c, k, peer, sel);
      var c1 := c.(peers := c.peers[k := peer]);
      KeepClean(c1, sel);
      if c.mode == Client {
        var c2 := c1.(peers := Clean(c1.peers));
        KeepSiblings(c2, siblings, now, sel);
        var c3 := c2.(peers := AddSiblings(c2.peers, siblings, now));
        KeepPush(c3, NewPeer(c.mac, Self, now), sel);
      }
    }
  }

  lemma OnBirthKeeps(c: Context, src: Mac, newborn: Mac, now: nat, sel: Selections)
    requires NodeInv(c, sel)
    ensures NodeInv(OnBirth(c, src, newborn, now), sel)
  {
    if c.mode == Client {
      KeepPush(c, NewPeer(newborn, ChildPeer, now), sel);
    }
  }

  lemma OnPacketKeeps(c: Context, src: Mac, body: Body, now: nat, sel: Selections)
    requires NodeInv(c, sel) && (body.Join? || body.Accept? ==> (src, c.mac) in sel)
    ensures var (c', ps) := OnPacket(c, src, body, now); NodeInv(c', sel) && Honest(ps, sel)
  {
    match body
    case Ping =>
      var k := FindPeer(c.peers, src);
      if k < |c.peers| {
        assert c.peers[k] in c.peers;
        KeepUpdate(c, k, c.peers[k].(lastping := now, lastSeen := now), sel);
      }
    case Hello => OnHelloKeeps(c, src, now, sel);
    case Join => OnJoinKeeps(c, src, now, sel);
    case Accept(siblings) => OnAcceptKeeps(c, src, siblings, now, sel);
    case Cancel => OnCancelKeeps(c, src, now + REMOVAL_DELAY, sel);
    case Birth(newborn) => OnBirthKeeps(c, src, newborn, now, sel);
    case Death(dead) =>
      var d := FindPeer(c.peers, dead);
      if d < |c.peers| { KeepDelete(c, d, sel); }
    case Bye => OnByeKeeps(c, src, now + REMOVAL_DELAY, sel);
  }

  // ----- timers and stop -----

  lemma PeerTurnKeeps(c: Context, k: nat, now: nat, sel: Selections)
    requires NodeInv(c, sel) && k < |c.peers|
    ensures var (c', ps, _) := PeerTurn(c, k, now); NodeInv(c', sel) && Honest(ps, sel)
  {
    var p := c.peers[k];
    var c1 := if TimeoutEventDue(c.mode, p.state) then Spawn(c, TimeoutEvent, p.mac) else c;
    SendDeathKeeps(c1, p.mac, sel);
    SendCancelKeeps(c1, p.mac, sel);
  }

  lemma {:induction false} TimeoutWalkKeeps(c: Context, k: nat, now: nat, sel: Selections)
    requires NodeInv(c, sel)
    ensures var (c', ps) := TimeoutWalk(c, k, now); NodeInv(c', sel) && Honest(ps, sel)
    decreases |c.peers| - k
  {
    if k < |c.peers| {
      PeerTurnKeeps(c, k, now, sel);
      var (c1, ps, gone) := PeerTurn(c, k, now);
      TimeoutWalkKeeps(c1, if gone then k else k + 1, now, sel);
    }
  }

  lemma AdhocctlVisitKeeps(c: Context, k: nat, now: nat, missing: set<Mac>, sel: Selections)
    requires NodeInv(c, sel) && k < |c.peers|
    ensures NodeInv(AdhocctlVisit(c, k, now, missing).0, sel)
  {
    OnByeKeeps(c, c.peers[k].mac, 0, sel);
    assert c.peers[k] in c.peers;
    KeepUpdate(c, k, c.peers[k].(lastSeen := now, lastping := now), sel);
  }

  lemma {:induction false} AdhocctlWalkKeeps(c: Context, k: nat, now: nat, missing: set<Mac>, sel: Selections)
    requires NodeInv(c, sel)
    ensures NodeInv(AdhocctlWalk(c, k, now, missing), sel)
    decreases |c.peers| - k
  {
    if k < |c.peers| {
      AdhocctlVisitKeeps(c, k, now, missing, sel);
      var (c1, next) := AdhocctlVisit(c, k, now, missing);
      AdhocctlWalkKeeps(c1, next, now, missing, sel);
    }
  }

  lemma {:induction false} ByeNoticesHonest(src: Mac, peers: seq<Peer>)
    ensures forall p :: p in ByeNotices(src, peers) ==> p.src == src && p.body.Bye?
  {
    if peers != [] { ByeNoticesHonest(src, peers[1..]); }
  }

  lemma StopKeeps(c: Context, sel: Selections)
    requires NodeInv(c, sel)
    ensures var (c', ps) := Stop(c); NodeInv(c', sel) && Honest(ps, sel)
  {
    ByeNoticesHonest(c.mac, c.peers);
  }
}
