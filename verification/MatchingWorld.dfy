/** Any number of nodes and a network that may lose, duplicate and reorder packets.

    A packet that was sent stays in `net` for ever and may be delivered at any later time, any
    number of times or never. `selections` records every successful SelectTarget. */
module MatchingWorld {
  import opened MatchingSpec
  import opened MatchingInvariant

  datatype World = World(nodes: map<Mac, Context>, net: set<Packet>, selections: Selections)

  datatype Step =
    | Create(n: Mac, mode: Mode, maxpeers: nat, keepalive: nat, timeout: nat)
    | StartStep(n: Mac)
    | Select(n: Mac, target: Mac)
    | CancelStep(n: Mac, target: Mac)
    | MembersStep(n: Mac, room: nat, now: nat)
    | DrainStep(n: Mac)
    | Deliver(p: Packet, now: nat)
    | PingStep(n: Mac)
    | HelloStep(n: Mac)
    | TimeoutStep(n: Mac, now: nat)
    | AdhocctlStep(n: Mac, now: nat, missing: set<Mac>)
    | StopStep(n: Mac)

  /** Node n goes on with context c after sending ps. */
  function Update(w: World, n: Mac, c: Context, ps: seq<Packet>): World {
    w.(nodes := w.nodes[n := c], net := w.net + set p | p in ps)
  }

  function Broadcast(w: World, n: Mac, body: Body): World {
    w.(net := w.net + set m | m in w.nodes && m != n :: Packet(n, m, body))
  }

  /** A context with free slots says hello. */
  predicate SaysHello(c: Context) {
    || (c.mode == Host && CountChildren(c.peers) < c.maxpeers - 1)
    || (c.mode == Pair && !HasState(c.peers, PairPeer))
  }

  /** The node a step belongs to. */
  function Actor(s: Step): Mac {
    if s.Deliver? then s.p.dst else s.n
  }

  function Apply(w: World, s: Step): World {
    var n := Actor(s);
    if s.Create? then
      if 1 < s.maxpeers <= 16 && (n in w.nodes ==> !w.nodes[n].running) then
        w.(nodes := w.nodes[n := Context(n, s.mode, false, s.maxpeers, s.keepalive, s.timeout, [], [], [])])
      else w
    else if n !in w.nodes then w
    else
      var c := w.nodes[n];
      match s
      case StartStep(_) => Update(w, n, c.(running := true), [])
      case Select(_, target) =>
        var (c', r) := SelectTarget(c, target);
        Update(w, n, c', []).(selections := WithSelection(w.selections, n, target, r))
      case CancelStep(_, target) => Update(w, n, CancelTarget(c, target).0, [])
      case MembersStep(_, room, now) =>
        Update(w, n, if c.running then AfterListing(c, room, now) else c, [])
      case _ => if c.running then IoStep(w, c, s) else w
  }

  /** A step of the IO thread, which exists while the context is running. */
  function IoStep(w: World, c: Context, s: Step): World {
    if s.PingStep? then Broadcast(w, s.n, Ping)
    else if s.HelloStep? then (if SaysHello(c) then Broadcast(w, s.n, Hello) else w)
    else if s.Deliver? && s.p !in w.net then w
    else
      var (c', ps) := IoTurn(c, s);
      Update(w, Actor(s), c', ps)
  }

  /** What the IO thread does to its context and what it sends. */
  function IoTurn(c: Context, s: Step): (r: (Context, seq<Packet>))
    ensures SameRole(c, r.0)
  {
    match s
    case DrainStep(_) => Drain(c)
    case Deliver(p, now) => OnPacket(c, p.src, p.body, now)
    case TimeoutStep(_, now) => HandleTimeout(c, now)
    case AdhocctlStep(_, now, missing) => (AdhocctlWalk(c, 0, now, missing), [])
    case StopStep(_) => Stop(c)
    case _ => (c, [])
  }

  const START: World := World(map[], {}, {})

  function Run(steps: seq<Step>): World {
    if steps == [] then START else Apply(Run(steps[..|steps| - 1]), steps[|steps| - 1])
  }

  // ----- the invariant over every run -----

  ghost predicate WorldInv(w: World) {
    && (forall n :: n in w.nodes ==> w.nodes[n].mac == n && NodeInv(w.nodes[n], w.selections))
    && (forall p :: p in w.net && (p.body.Join? || p.body.Accept?) ==> (p.src, p.dst) in w.selections)
  }

  lemma UpdateKeeps(w: World, n: Mac, c: Context, ps: seq<Packet>, sel: Selections)
    requires WorldInv(w) && w.selections <= sel && c.mac == n && NodeInv(c, sel) && Honest(ps, sel)
    ensures WorldInv(Update(w, n, c, ps).(selections := sel))
  {
    var w' := Update(w, n, c, ps).(selections := sel);
    forall m | m in w'.nodes ensures w'.nodes[m].mac == m && NodeInv(w'.nodes[m], sel) {
      if m != n {
        MoreSelections(w.nodes[m], w.selections, sel);
      }
    }
  }

  lemma IoTurnKeeps(c: Context, s: Step, sel: Selections)
    requires NodeInv(c, sel)
    requires s.Deliver? && (s.p.body.Join? || s.p.body.Accept?) ==> (s.p.src, c.mac) in sel
    ensures NodeInv(IoTurn(c, s).0, sel) && Honest(IoTurn(c, s).1, sel)
  {
    match s
    case DrainStep(_) => DrainKeeps(c, sel);
    case Deliver(p, now) => OnPacketKeeps(c, p.src, p.body, now, sel);
    case TimeoutStep(_, now) => TimeoutWalkKeeps(c, 0, now, sel);
    case AdhocctlStep(_, now, missing) => AdhocctlWalkKeeps(c, 0, now, missing, sel);
    case StopStep(_) => StopKeeps(c, sel);
    case _ =>
  }

  lemma IoStepKeeps(w: World, c: Context, s: Step)
    requires WorldInv(w) && !s.Create? && Actor(s) in w.nodes && c == w.nodes[Actor(s)]
    ensures WorldInv(IoStep(w, c, s))
  {
    if !s.PingStep? && !s.HelloStep? && (s.Deliver? ==> s.p in w.net) {
      IoTurnKeeps(c, s, w.selections);
      UpdateKeeps(w, Actor(s), IoTurn(c, s).0, IoTurn(c, s).1, w.selections);
    }
  }

  lemma {:induction false} BumpCount(peers: seq<Peer>, now: nat, s: set<PeerState>)
    ensures Count(BumpAll(peers, now), s) == Count(peers, s)
  {
    if peers != [] {
      BumpCount(peers[1..], now, s);
      assert BumpAll(peers, now)[1..] == BumpAll(peers[1..], now);
    }
  }

  lemma MembersKeeps(c: Context, room: nat, now: nat, sel: Selections)
    requires NodeInv(c, sel)
    ensures NodeInv(AfterListing(c, room, now), sel)
  {
    var all := BumpAll(c.peers, now);
    BumpCount(c.peers, now, Exclusive(c.mode));
    forall p | p in all
      ensures Allowed(c.mode, p.state) && Consented(c.mode, c.mac, p, sel)
    {
      var i :| 0 <= i < |all| && all[i] == p;
      assert c.peers[i] in c.peers;
    }
    assert NodeInv(c.(peers := all), sel);
    var k := FindState(c.peers, PairPeer);
    if k < |c.peers| {
      assert c.peers[k] in c.peers;
      KeepUpdate(c, k, Bumped(c.peers[k], now), sel);
    }
  }

  lemma ApplyKeeps(w: World, s: Step)
    requires WorldInv(w)
    ensures WorldInv(Apply(w, s))
  {
    var n, sel := Actor(s), w.selections;
    if !s.Create? && n in w.nodes {
      var c := w.nodes[n];
      match s
      case StartStep(_) => UpdateKeeps(w, n, c.(running := true), [], sel);
      case Select(_, target) =>
        SelectKeeps(c, target, sel);
        var (c', r) := SelectTarget(c, target);
        UpdateKeeps(w, n, c', [], WithSelection(sel, n, target, r));
      case CancelStep(_, target) =>
        CancelKeeps(c, target, sel);
        UpdateKeeps(w, n, CancelTarget(c, target).0, [], sel);
      case MembersStep(_, room, now) =>
        MembersKeeps(c, room, now, sel);
        UpdateKeeps(w, n, if c.running then AfterListing(c, room, now) else c, [], sel);
      case _ => IoStepKeeps(w, c, s);
    }
  }

  lemma {:induction false} RunInv(steps: seq<Step>)
    ensures WorldInv(Run(steps))
  {
    if steps != [] {
      RunInv(steps[..|steps| - 1]);
      ApplyKeeps(Run(steps[..|steps| - 1]), steps[|steps| - 1]);
    }
  }

  // ----- main results -----

  /** Mutual consent: a node that holds another as parent or partner, and a host that holds
      another as child, has selected it and was selected by it earlier in the run. */
  lemma MutualConsent(steps: seq<Step>, a: Mac, p: Peer)
    requires a in Run(steps).nodes && p in Run(steps).nodes[a].peers
    requires p.state == ParentPeer || p.state == PairPeer
          || (Run(steps).nodes[a].mode == Host && p.state == ChildPeer)
    ensures (a, p.mac) in Run(steps).selections && (p.mac, a) in Run(steps).selections
  {
    RunInv(steps);
    assert Consented(Run(steps).nodes[a].mode, a, p, Run(steps).selections);
  }

  /** The history is honest: a pair is recorded exactly when some earlier SelectTarget on that
      target succeeded at that node. */
  lemma {:induction false} SelectionsAreCalls(steps: seq<Step>, a: Mac, b: Mac)
    ensures (a, b) in Run(steps).selections <==>
      exists i :: 0 <= i < |steps| && steps[i] == Select(a, b) && a in Run(steps[..i]).nodes
        && SelectTarget(Run(steps[..i]).nodes[a], b).1 == Success
  {
    if steps != [] {
      var last := |steps| - 1;
      var before := steps[..last];
      SelectionsAreCalls(before, a, b);
      assert forall i :: 0 <= i < last ==> before[i] == steps[i] && before[..i] == steps[..i];
      OneMoreSelection(Run(before), steps[last], a, b);
    }
  }

  lemma OneMoreSelection(w: World, s: Step, a: Mac, b: Mac)
    ensures (a, b) in Apply(w, s).selections <==>
      (a, b) in w.selections || (s == Select(a, b) && a in w.nodes && SelectTarget(w.nodes[a], b).1 == Success)
  {
  }

  /** In every run a client has at most one peer it belongs to or asked to join, a pair node at
      most one partner or outgoing request, and a host at most maxpeers - 1 children. */
  lemma RoleLimitsHold(steps: seq<Step>, a: Mac)
    requires a in Run(steps).nodes
    ensures var c := Run(steps).nodes[a];
      && (c.mode == Host ==> CountChildren(c.peers) <= c.maxpeers - 1)
      && (c.mode != Host ==> forall i, j :: 0 <= i < j < |c.peers| ==>
            !(c.peers[i].state in Exclusive(c.mode) && c.peers[j].state in Exclusive(c.mode)))
      && (c.mode != Client ==> UniqueMacs(c.peers))
      && (forall p :: p in c.peers ==> Allowed(c.mode, p.state))
  {
    RunInv(steps);
    var c := Run(steps).nodes[a];
    if c.mode != Host {
      AtMostOne(c.peers, Exclusive(c.mode));
    }
  }

  lemma {:induction false} CountPositive(peers: seq<Peer>, i: nat, s: set<PeerState>)
    requires i < |peers| && peers[i].state in s
    ensures Count(peers, s) > 0
  {
    if i > 0 { CountPositive(peers[1..], i - 1, s); }
  }

  lemma {:induction false} AtMostOne(peers: seq<Peer>, s: set<PeerState>)
    requires Count(peers, s) <= 1
    ensures forall i, j :: 0 <= i < j < |peers| ==> !(peers[i].state in s && peers[j].state in s)
  {
    forall i, j | 0 <= i < j < |peers| && peers[i].state in s && peers[j].state in s ensures false {
      AnotherOne(peers, i, j, s);
    }
  }

  lemma {:induction false} AnotherOne(peers: seq<Peer>, i: nat, j: nat, s: set<PeerState>)
    requires i < j < |peers| && peers[i].state in s && peers[j].state in s
    ensures Count(peers, s) > 1
  {
    if i == 0 {
      CountPositive(peers[1..], j - 1, s);
    } else {
      AnotherOne(peers[1..], i - 1, j - 1, s);
    }
  }
}
