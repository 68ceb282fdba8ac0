/** The runs of a room are runs of the world: each step of a room is a few calls, drains, walks
    and deliveries of its nodes, in this order and without loss. */
module MatchingRooms {
  import opened MatchingSpec
  import opened MatchingInvariant
  import opened MatchingMembers
  import opened MatchingWorld

  function RunFrom(w: World, steps: seq<Step>): World
    decreases |steps|
  {
    if steps == [] then w else RunFrom(Apply(w, steps[0]), steps[1..])
  }

  lemma {:induction false} RunOn(before: seq<Step>, more: seq<Step>)
    ensures RunFrom(Run(before), more) == Run(before + more)
    decreases |more|
  {
    if more == [] {
      assert before + [] == before;
    } else {
      var now := before + [more[0]];
      assert now[..|now| - 1] == before;
      RunOn(now, more[1..]);
      assert now + more[1..] == before + more;
    }
  }

  lemma {:induction false} RunFromConcat(w: World, a: seq<Step>, b: seq<Step>)
    ensures RunFrom(w, a + b) == RunFrom(RunFrom(w, a), b)
    decreases |a|
  {
    if a == [] {
      assert a + b == b;
    } else {
      RunFromConcat(Apply(w, a[0]), a[1..], b);
      assert (a + b)[1..] == a[1..] + b;
    }
  }

  /** Nothing that was sent is forgotten. */
  lemma NetGrows(w: World, s: Step)
    ensures w.net <= Apply(w, s).net
  {
  }

  lemma {:induction false} NetGrowsFrom(w: World, steps: seq<Step>)
    ensures w.net <= RunFrom(w, steps).net
    decreases |steps|
  {
    if steps != [] {
      NetGrows(w, steps[0]);
      NetGrowsFrom(Apply(w, steps[0]), steps[1..]);
    }
  }

  /** The nodes of the room are nodes of the world, in the same contexts. */
  ghost predicate InWorld(host: Context, clients: map<Mac, Context>, w: World) {
    && host.mac !in clients && host.mac in w.nodes && w.nodes[host.mac] == host
    && (forall m :: m in clients ==> m in w.nodes && w.nodes[m] == clients[m] && clients[m].mac == m)
  }

  ghost predicate Running(clients: map<Mac, Context>) {
    forall m :: m in clients ==> clients[m].running
  }

  /** A ping or hello that reaches a node of the room was sent before, or is sent now by another
      node of the room: a hello by a host with free slots. */
  ghost predicate Heard(r: Room, s: RoomStep, net: set<Packet>) {
    match s
    case HelloTo(m, src, _) => Packet(src, m, Hello) in net || (src == r.host.mac && SaysHello(r.host))
    case PingClient(m, src, _) =>
      Packet(src, m, Ping) in net || src == r.host.mac || (src in r.clients && src != m)
    case PingHost(src, _) => Packet(src, r.host.mac, Ping) in net || src in r.clients
    case _ => true
  }

  // ----- deliveries -----

  lemma HandlersKeepRunning(c: Context, src: Mac, body: Body, now: nat)
    ensures OnPacket(c, src, body, now).0.running == c.running
  {
  }

  /** A node of the world goes on with another context. */
  lemma ClientMoves(host: Context, clients: map<Mac, Context>, w: World, m: Mac, c: Context, ps: seq<Packet>)
    requires InWorld(host, clients, w) && m in clients && c.mac == m
    ensures InWorld(host, clients[m := c], Update(w, m, c, ps))
  {
  }

  lemma HostMoves(host: Context, clients: map<Mac, Context>, w: World, c: Context, ps: seq<Packet>)
    requires InWorld(host, clients, w) && c.mac == host.mac
    ensures InWorld(c, clients, Update(w, host.mac, c, ps))
  {
  }

  function Deliveries(clients: map<Mac, Context>, ps: seq<Packet>, now: nat): seq<Step> {
    if ps == [] then []
    else (if ps[0].dst in clients then [Deliver(ps[0], now)] else []) + Deliveries(clients, ps[1..], now)
  }

  lemma {:induction false} DeliveriesSameKeys(a: map<Mac, Context>, b: map<Mac, Context>, ps: seq<Packet>, now: nat)
    requires a.Keys == b.Keys
    ensures Deliveries(a, ps, now) == Deliveries(b, ps, now)
  {
    if ps != [] { DeliveriesSameKeys(a, b, ps[1..], now); }
  }

  lemma DeliverOne(host: Context, clients: map<Mac, Context>, w: World, p: Packet, now: nat)
    requires InWorld(host, clients, w) && Running(clients) && p.dst in clients && p in w.net
    ensures var c := OnPacket(clients[p.dst], p.src, p.body, now).0;
      && InWorld(host, clients[p.dst := c], Apply(w, Deliver(p, now))) && Running(clients[p.dst := c])
      && Apply(w, Deliver(p, now)).net >= w.net
  {
    var (c, sent) := OnPacket(clients[p.dst], p.src, p.body, now);
    HandlersKeepRunning(clients[p.dst], p.src, p.body, now);
    assert Apply(w, Deliver(p, now)) == Update(w, p.dst, c, sent);
    ClientMoves(host, clients, w, p.dst, c, sent);
  }

  lemma {:induction false} DeliverAllInWorld(host: Context, clients: map<Mac, Context>, w: World, ps: seq<Packet>, now: nat)
    requires InWorld(host, clients, w) && Running(clients) && forall p :: p in ps ==> p in w.net
    ensures InWorld(host, DeliverAll(clients, ps, now), RunFrom(w, Deliveries(clients, ps, now)))
    decreases |ps|
  {
    if ps != [] {
      var p := ps[0];
      assert p in ps && forall q :: q in ps[1..] ==> q in ps;
      if p.dst in clients {
        DeliverOne(host, clients, w, p, now);
        var clients1 := clients[p.dst := OnPacket(clients[p.dst], p.src, p.body, now).0];
        DeliverAllInWorld(host, clients1, Apply(w, Deliver(p, now)), ps[1..], now);
        DeliveriesSameKeys(clients, clients1, ps[1..], now);
        assert ([Deliver(p, now)] + Deliveries(clients, ps[1..], now))[1..] == Deliveries(clients, ps[1..], now);
      } else {
        DeliverAllInWorld(host, clients, w, ps[1..], now);
        assert [] + Deliveries(clients, ps[1..], now) == Deliveries(clients, ps[1..], now);
      }
    }
  }

  // ----- the steps of a room -----

  function WorldSteps(r: Room, s: RoomStep): seq<Step> {
    match s
    case HelloTo(m, src, now) => if m in r.clients then [HelloStep(src), Deliver(Packet(src, m, Hello), now)] else []
    case Ask(m, now) => if m in r.clients && Idle(r.clients[m]) then AskSteps(r, m, now) else []
    case Admit(m, now) => if NextInLine(r.host.peers, m) then AdmitSteps(r, m, now) else []
    case Deaths(now) => [TimeoutStep(r.host.mac, now)] + Deliveries(r.clients, HandleTimeout(r.host, now).1, now)
    case PingClient(m, src, now) => if m in r.clients then [PingStep(src), Deliver(Packet(src, m, Ping), now)] else []
    case PingHost(src, now) => [PingStep(src), Deliver(Packet(src, r.host.mac, Ping), now)]
    case ListClient(m, room, now) => if m in r.clients then [MembersStep(m, room, now)] else []
    case ListHost(room, now) => [MembersStep(r.host.mac, room, now)]
    case RefreshClient(m, now) => if m in r.clients then [AdhocctlStep(m, now, {})] else []
    case RefreshHost(now, missing) => [AdhocctlStep(r.host.mac, now, missing)]
  }

  /** Select, drain, and the host's handling of the join. */
  function AskSteps(r: Room, m: Mac, now: nat): seq<Step>
    requires m in r.clients
  {
    if SelectTarget(r.clients[m], r.host.mac).1 != Success then []
    else
      [Select(m, r.host.mac), DrainStep(m), Deliver(Packet(m, r.host.mac, Join), now)]
      + Deliveries(r.clients, OnJoin(r.host, m, now).1, now)
  }

  function AdmitSteps(r: Room, m: Mac, now: nat): seq<Step> {
    var (host, result) := SelectTarget(r.host, m);
    if result != Success then []
    else [Select(r.host.mac, m), DrainStep(r.host.mac)] + Deliveries(r.clients, Drain(host).1, now)
  }

  lemma Two(w: World, a: Step, b: Step)
    ensures RunFrom(w, [a, b]) == Apply(Apply(w, a), b)
  {
    assert [a, b][1..] == [b];
    One(Apply(w, a), b);
  }

  lemma One(w: World, a: Step)
    ensures RunFrom(w, [a]) == Apply(w, a)
  {
    assert [a][1..] == [];
  }

  /** What the host does to its context and sends, and the deliveries of it. */
  lemma HostTurnInWorld(r: Room, w: World, w1: World, host: Context, ps: seq<Packet>, now: nat)
    requires InWorld(r.host, r.clients, w) && Running(r.clients) && host.mac == r.host.mac
    requires w1.nodes == w.nodes[host.mac := host] && forall p :: p in ps ==> p in w1.net
    ensures InWorld(host, DeliverAll(r.clients, ps, now), RunFrom(w1, Deliveries(r.clients, ps, now)))
  {
    DeliverAllInWorld(host, r.clients, w1, ps, now);
  }

  lemma AdmitInWorld(r: Room, w: World, m: Mac, now: nat)
    requires Agreed(r) && InWorld(r.host, r.clients, w) && NextInLine(r.host.peers, m)
    ensures var r' := ApplyAdmit(r, m, now); InWorld(r'.host, r'.clients, RunFrom(w, AdmitSteps(r, m, now)))
  {
    var (c, result) := SelectTarget(r.host, m);
    if result == Success {
      var (sent, ps) := Drain(c);
      var n := r.host.mac;
      var w1 := Apply(w, Select(n, m));
      assert w1.nodes == w.nodes[n := c];
      var w2 := Apply(w1, DrainStep(n));
      assert c.running && w2 == Update(w1, n, sent, ps);
      assert w1.nodes[n := sent] == w.nodes[n := sent];
      Two(w, Select(n, m), DrainStep(n));
      RunFromConcat(w, [Select(n, m), DrainStep(n)], Deliveries(r.clients, ps, now));
      HostTurnInWorld(r, w, w2, sent, ps, now);
    }
  }

  lemma DeathsInWorld(r: Room, w: World, now: nat)
    requires Agreed(r) && InWorld(r.host, r.clients, w)
    ensures var r' := ApplyRoom(r, Deaths(now)); InWorld(r'.host, r'.clients, RunFrom(w, WorldSteps(r, Deaths(now))))
  {
    var (host, ps) := HandleTimeout(r.host, now);
    var step := TimeoutStep(r.host.mac, now);
    var w1 := Apply(w, step);
    assert w1 == Update(w, r.host.mac, host, ps);
    One(w, step);
    RunFromConcat(w, [step], Deliveries(r.clients, ps, now));
    HostTurnInWorld(r, w, w1, host, ps, now);
  }

  lemma AskInWorld(r: Room, w: World, m: Mac, now: nat)
    requires Agreed(r) && InWorld(r.host, r.clients, w) && m in r.clients && Idle(r.clients[m])
    ensures var r' := ApplyAsk(r, m, now); InWorld(r'.host, r'.clients, RunFrom(w, AskSteps(r, m, now)))
  {
    var (asking, result) := SelectTarget(r.clients[m], r.host.mac);
    if result == Success {
      AskSendsJoin(r.clients[m], r.host.mac);
      var (sent, ps) := Drain(asking);
      var join := Packet(m, r.host.mac, Join);
      var w1 := Apply(w, Select(m, r.host.mac));
      assert w1.nodes == w.nodes[m := asking] && asking.running;
      var w2 := Apply(w1, DrainStep(m));
      assert w2 == Update(w1, m, sent, ps) && join in ps;
      var asked := Room(r.host, r.clients[m := sent]);
      assert InWorld(r.host, asked.clients, w2) && Running(asked.clients);
      JoinInWorld(asked, w2, m, now);
      DeliveriesSameKeys(r.clients, asked.clients, OnJoin(r.host, m, now).1, now);
      Two(w, Select(m, r.host.mac), DrainStep(m));
      var front, rest := [Select(m, r.host.mac), DrainStep(m)], [Deliver(join, now)] + Deliveries(r.clients, OnJoin(r.host, m, now).1, now);
      assert AskSteps(r, m, now) == front + rest;
      RunFromConcat(w, front, rest);
    }
  }

  lemma JoinInWorld(r: Room, w: World, m: Mac, now: nat)
    requires InWorld(r.host, r.clients, w) && Running(r.clients) && r.host.running
    requires Packet(m, r.host.mac, Join) in w.net
    ensures var (host, answer) := OnJoin(r.host, m, now);
      InWorld(host, DeliverAll(r.clients, answer, now),
              RunFrom(w, [Deliver(Packet(m, r.host.mac, Join), now)] + Deliveries(r.clients, answer, now)))
  {
    var (host, answer) := OnJoin(r.host, m, now);
    var step := Deliver(Packet(m, r.host.mac, Join), now);
    assert Apply(w, step) == Update(w, r.host.mac, host, answer);
    One(w, step);
    RunFromConcat(w, [step], Deliveries(r.clients, answer, now));
    HostTurnInWorld(r, w, Apply(w, step), host, answer, now);
  }

  /** A broadcast changes no node; it reaches everyone but its sender. */
  lemma SaidInWorld(w: World, s: Step)
    requires s.PingStep? || s.HelloStep?
    ensures Apply(w, s).nodes == w.nodes && w.net <= Apply(w, s).net
    ensures s.PingStep? && s.n in w.nodes && w.nodes[s.n].running ==>
      forall m :: m in w.nodes && m != s.n ==> Packet(s.n, m, Ping) in Apply(w, s).net
    ensures s.HelloStep? && s.n in w.nodes && w.nodes[s.n].running && SaysHello(w.nodes[s.n]) ==>
      forall m :: m in w.nodes && m != s.n ==> Packet(s.n, m, Hello) in Apply(w, s).net
  {
  }

  /** A packet is said and heard by a client. */
  lemma ClientHears(r: Room, w: World, say: Step, p: Packet, now: nat, c: Context)
    requires InWorld(r.host, r.clients, w) && Running(r.clients) && (say.PingStep? || say.HelloStep?)
    requires p.dst in r.clients && p in Apply(w, say).net
    requires OnPacket(r.clients[p.dst], p.src, p.body, now) == (c, [])
    ensures InWorld(r.host, r.clients[p.dst := c], RunFrom(w, [say, Deliver(p, now)]))
  {
    SaidInWorld(w, say);
    Two(w, say, Deliver(p, now));
    var w1 := Apply(w, say);
    assert Apply(w1, Deliver(p, now)) == Update(w1, p.dst, c, []);
    ClientMoves(r.host, r.clients, w1, p.dst, c, []);
  }

  lemma HostHears(r: Room, w: World, say: Step, p: Packet, now: nat, c: Context)
    requires InWorld(r.host, r.clients, w) && r.host.running && (say.PingStep? || say.HelloStep?)
    requires p.dst == r.host.mac && p in Apply(w, say).net && OnPacket(r.host, p.src, p.body, now) == (c, [])
    ensures InWorld(c, r.clients, RunFrom(w, [say, Deliver(p, now)]))
  {
    SaidInWorld(w, say);
    Two(w, say, Deliver(p, now));
    var w1 := Apply(w, say);
    assert Apply(w1, Deliver(p, now)) == Update(w1, p.dst, c, []);
    HostMoves(r.host, r.clients, w1, c, []);
  }

  /** A step of one client alone. */
  lemma ClientStepInWorld(r: Room, w: World, m: Mac, s: Step, c: Context, ps: seq<Packet>)
    requires InWorld(r.host, r.clients, w) && m in r.clients && c.mac == m && Apply(w, s) == Update(w, m, c, ps)
    ensures InWorld(r.host, r.clients[m := c], RunFrom(w, [s]))
  {
    One(w, s);
    ClientMoves(r.host, r.clients, w, m, c, ps);
  }

  lemma HostStepInWorld(r: Room, w: World, s: Step, c: Context, ps: seq<Packet>)
    requires InWorld(r.host, r.clients, w) && c.mac == r.host.mac && Apply(w, s) == Update(w, c.mac, c, ps)
    ensures InWorld(c, r.clients, RunFrom(w, [s]))
  {
    One(w, s);
    HostMoves(r.host, r.clients, w, c, ps);
  }

  lemma StepInWorld(r: Room, w: World, s: RoomStep)
    requires Agreed(r) && InWorld(r.host, r.clients, w) && Heard(r, s, w.net)
    ensures var r' := ApplyRoom(r, s); InWorld(r'.host, r'.clients, RunFrom(w, WorldSteps(r, s)))
  {
    match s
    case HelloTo(m, src, now) =>
      if m in r.clients {
        SaidInWorld(w, HelloStep(src));
        ClientHears(r, w, HelloStep(src), Packet(src, m, Hello), now, OnHello(r.clients[m], src, now));
      }
    case Ask(m, now) => if m in r.clients && Idle(r.clients[m]) { AskInWorld(r, w, m, now); }
    case Admit(m, now) => if NextInLine(r.host.peers, m) { AdmitInWorld(r, w, m, now); }
    case Deaths(now) => DeathsInWorld(r, w, now);
    case PingHost(_, _) => HostTimerInWorld(r, w, s);
    case ListHost(_, _) => HostTimerInWorld(r, w, s);
    case RefreshHost(_, _) => HostTimerInWorld(r, w, s);
    case _ => ClientTimerInWorld(r, w, s);
  }

  lemma HostTimerInWorld(r: Room, w: World, s: RoomStep)
    requires InWorld(r.host, r.clients, w) && r.host.running && Running(r.clients) && Heard(r, s, w.net)
    requires s.PingHost? || s.ListHost? || s.RefreshHost?
    ensures var r' := ApplyRoom(r, s); InWorld(r'.host, r'.clients, RunFrom(w, WorldSteps(r, s)))
  {
    var n := r.host.mac;
    match s
    case PingHost(src, now) =>
      SaidInWorld(w, PingStep(src));
      HostHears(r, w, PingStep(src), Packet(src, n, Ping), now, OnPing(r.host, src, now));
    case ListHost(room, now) => HostStepInWorld(r, w, MembersStep(n, room, now), AfterListing(r.host, room, now), []);
    case RefreshHost(now, missing) =>
      HostStepInWorld(r, w, AdhocctlStep(n, now, missing), AdhocctlWalk(r.host, 0, now, missing), []);
  }

  lemma ClientTimerInWorld(r: Room, w: World, s: RoomStep)
    requires InWorld(r.host, r.clients, w) && r.host.running && Running(r.clients) && Heard(r, s, w.net)
    requires s.PingClient? || s.ListClient? || s.RefreshClient?
    ensures var r' := ApplyRoom(r, s); InWorld(r'.host, r'.clients, RunFrom(w, WorldSteps(r, s)))
  {
    if s.m in r.clients {
      var m, c := s.m, r.clients[s.m];
      match s
      case PingClient(_, src, now) =>
        SaidInWorld(w, PingStep(src));
        ClientHears(r, w, PingStep(src), Packet(src, m, Ping), now, OnPing(c, src, now));
      case ListClient(_, room, now) =>
        ClientStepInWorld(r, w, m, MembersStep(m, room, now), AfterListing(c, room, now), []);
      case RefreshClient(_, now) =>
        ClientStepInWorld(r, w, m, AdhocctlStep(m, now, {}), AdhocctlWalk(c, 0, now, {}), []);
    }
  }

  // ----- how a room begins -----

  /** A context that was created and started, and nothing else yet. */
  ghost predicate Opened(c: Context, m: Mac) {
    && c == Context(m, c.mode, true, c.maxpeers, c.keepalive, c.timeout, [], [], [])
    && 1 < c.maxpeers <= 16
  }

  function OpenSteps(c: Context): seq<Step> {
    [Create(c.mac, c.mode, c.maxpeers, c.keepalive, c.timeout), StartStep(c.mac)]
  }

  lemma OpenNode(before: seq<Step>, c: Context)
    requires Opened(c, c.mac) && c.mac !in Run(before).nodes
    ensures Run(before + OpenSteps(c)).nodes == Run(before).nodes[c.mac := c]
  {
    var m, create := c.mac, OpenSteps(c)[0];
    var w := Run(before);
    Two(w, create, StartStep(m));
    RunOn(before, OpenSteps(c));
    var c0 := Context(m, c.mode, false, c.maxpeers, c.keepalive, c.timeout, [], [], []);
    assert Apply(w, create).nodes == w.nodes[m := c0];
    assert w.nodes[m := c0][m := c] == w.nodes[m := c];
  }

  /** The nodes of the room and no others. */
  ghost predicate Alone(host: Context, clients: map<Mac, Context>, w: World) {
    InWorld(host, clients, w) && w.nodes.Keys == clients.Keys + {host.mac}
  }

  lemma OneMoreClient(host: Context, clients: map<Mac, Context>, before: seq<Step>, c: Context)
    requires Alone(host, clients, Run(before)) && Opened(c, c.mac) && c.mac !in clients && c.mac != host.mac
    ensures Alone(host, clients[c.mac := c], Run(before + OpenSteps(c)))
  {
    OpenNode(before, c);
  }

  lemma PutBack(clients: map<Mac, Context>, m: Mac)
    requires m in clients
    ensures |clients - {m}| < |clients| && (clients - {m})[m := clients[m]] == clients
  {
    assert clients.Keys == (clients - {m}).Keys + {m};
  }

  /** Such contexts can be brought about. */
  lemma {:induction false} RoomCanBegin(host: Context, clients: map<Mac, Context>)
    requires Opened(host, host.mac) && host.mac !in clients && forall m :: m in clients ==> Opened(clients[m], m)
    ensures exists before: seq<Step> :: Alone(host, clients, Run(before))
    decreases |clients|
  {
    if clients == map[] {
      OpenNode([], host);
      assert Alone(host, clients, Run([] + OpenSteps(host)));
    } else {
      var m :| m in clients;
      var rest := clients - {m};
      PutBack(clients, m);
      RoomCanBegin(host, rest);
      var before: seq<Step> :| Alone(host, rest, Run(before));
      OneMoreClient(host, rest, before, clients[m]);
      BegunWith(host, clients, before + OpenSteps(clients[m]));
    }
  }

  lemma BegunWith(host: Context, clients: map<Mac, Context>, before: seq<Step>)
    requires Alone(host, clients, Run(before))
    ensures exists b: seq<Step> :: Alone(host, clients, Run(b))
  {
  }

  // ----- main results -----

  lemma {:induction false} HostStays(start: Room, steps: seq<RoomStep>)
    ensures RunRoom(start, steps).host.mac == start.host.mac
  {
    if steps != [] {
      HostStays(start, steps[..|steps| - 1]);
      StepKeepsHost(RunRoom(start, steps[..|steps| - 1]), steps[|steps| - 1]);
    }
  }

  lemma StepKeepsHost(r: Room, s: RoomStep)
    ensures ApplyRoom(r, s).host.mac == r.host.mac
  {
  }

  ghost predicate AllHeard(start: Room, steps: seq<RoomStep>, net: set<Packet>) {
    forall i :: 0 <= i < |steps| ==> Heard(RunRoom(start, steps[..i]), steps[i], net)
  }

  lemma HeardBefore(start: Room, steps: seq<RoomStep>, net: set<Packet>)
    requires AllHeard(start, steps, net) && steps != []
    ensures AllHeard(start, steps[..|steps| - 1], net)
    ensures Heard(RunRoom(start, steps[..|steps| - 1]), steps[|steps| - 1], net)
  {
    var front := steps[..|steps| - 1];
    assert forall i :: 0 <= i < |front| ==> front[..i] == steps[..i] && front[i] == steps[i];
  }

  lemma MoreIsHeard(r: Room, s: RoomStep, net: set<Packet>, net': set<Packet>)
    requires Heard(r, s, net) && net <= net'
    ensures Heard(r, s, net')
  {
  }

  /** Every run of a room whose nodes are in a world continues that world's run. */
  lemma {:induction false} RoomIsWorldRun(before: seq<Step>, start: Room, steps: seq<RoomStep>)
    requires FreshRoom(start) && InWorld(start.host, start.clients, Run(before))
    requires AllHeard(start, steps, Run(before).net)
    ensures exists more: seq<Step> ::
      InWorld(RunRoom(start, steps).host, RunRoom(start, steps).clients, Run(before + more))
    decreases |steps|
  {
    if steps == [] {
      assert before + [] == before;
      assert InWorld(start.host, start.clients, Run(before + []));
    } else {
      var front, last := steps[..|steps| - 1], steps[|steps| - 1];
      HeardBefore(start, steps, Run(before).net);
      RoomIsWorldRun(before, start, front);
      var r := RunRoom(start, front);
      var more: seq<Step> :| InWorld(r.host, r.clients, Run(before + more));
      RunAgreed(start, front);
      assert RunRoom(start, steps) == ApplyRoom(r, last);
      OneMoreStep(before, more, r, last);
    }
  }

  lemma OneMoreStep(before: seq<Step>, more: seq<Step>, r: Room, s: RoomStep)
    requires Agreed(r) && InWorld(r.host, r.clients, Run(before + more)) && Heard(r, s, Run(before).net)
    ensures exists more': seq<Step> :: InWorld(ApplyRoom(r, s).host, ApplyRoom(r, s).clients, Run(before + more'))
  {
    RunOn(before, more);
    NetGrowsFrom(Run(before), more);
    MoreIsHeard(r, s, Run(before).net, Run(before + more).net);
    StepInWorld(r, Run(before + more), s);
    RunTwice(before, more, WorldSteps(r, s));
    Reached(ApplyRoom(r, s).host, ApplyRoom(r, s).clients, before, more + WorldSteps(r, s));
  }

  lemma RunTwice(before: seq<Step>, more: seq<Step>, next: seq<Step>)
    ensures RunFrom(Run(before + more), next) == Run(before + (more + next))
  {
    RunOn(before + more, next);
    assert before + more + next == before + (more + next);
  }

  lemma Reached(host: Context, clients: map<Mac, Context>, before: seq<Step>, more: seq<Step>)
    requires InWorld(host, clients, Run(before + more))
    ensures exists more': seq<Step> :: InWorld(host, clients, Run(before + more'))
  {
  }

  /** So a host and each child of its room have selected each other. */
  lemma RoomConsent(before: seq<Step>, start: Room, steps: seq<RoomStep>, p: Peer)
    requires FreshRoom(start) && InWorld(start.host, start.clients, Run(before))
    requires AllHeard(start, steps, Run(before).net)
    requires p in RunRoom(start, steps).host.peers && p.state == ChildPeer
    ensures exists more: seq<Step> ::
      && (start.host.mac, p.mac) in Run(before + more).selections
      && (p.mac, start.host.mac) in Run(before + more).selections
  {
    RoomIsWorldRun(before, start, steps);
    var r := RunRoom(start, steps);
    var more: seq<Step> :| InWorld(r.host, r.clients, Run(before + more));
    RunAgreed(start, steps);
    HostStays(start, steps);
    MutualConsent(before + more, r.host.mac, p);
  }
}
