/** The matching context as the code holds it: a linked peer list and two stacks, changed in
    place. Every operation does what the function of the same name in MatchingSpec does. */
module MatchingContext {
  import opened MatchingSpec
  import opened PeerLists

  // --- One more peer of a walk ---

  /** The MACs collected from the first i peers. */
  ghost predicate Gathered(all: seq<Peer>, k: int, i: nat, siblings: seq<Mac>)
    requires i <= |all|
  {
    siblings + Siblings(all[i..], k - i) == Siblings(all, k)
  }

  lemma GatheredNext(all: seq<Peer>, k: int, i: nat, siblings: seq<Mac>)
    requires i < |all| && Gathered(all, k, i, siblings)
    ensures Gathered(all, k, i + 1, siblings + SiblingMac(all[i], i == k))
  {
    var rest := all[i..];
    assert rest[1..] == all[i + 1..];
    assert Siblings(rest, k - i) == SiblingMac(all[i], i == k) + Siblings(rest[1..], k - i - 1);
  }

  function SiblingMac(p: Peer, isTarget: bool): seq<Mac> {
    if !isTarget && p.state == ChildPeer then [p.mac] else []
  }

  lemma GatheredAll(all: seq<Peer>, k: int, siblings: seq<Mac>)
    requires Gathered(all, k, |all|, siblings)
    ensures siblings == Siblings(all, k)
  {
    assert siblings + [] == siblings;
  }

  /** The notices sent to the first i peers. */
  ghost predicate Told(src: Mac, all: seq<Peer>, k: int, dead: Mac, i: nat, sent: seq<Packet>)
    requires i <= |all|
  {
    sent + DeathNotices(src, all[i..], k - i, dead) == DeathNotices(src, all, k, dead)
  }

  /** Bye to the dead child itself, news of its death to the other children. */
  function NoticeTo(src: Mac, p: Peer, isDead: bool, dead: Mac): seq<Packet> {
    if isDead then [Packet(src, p.mac, Bye)]
    else if p.state == ChildPeer then [Packet(src, p.mac, Death(dead))]
    else []
  }

  lemma ToldNext(src: Mac, all: seq<Peer>, k: int, dead: Mac, i: nat, sent: seq<Packet>)
    requires i < |all| && Told(src, all, k, dead, i, sent)
    ensures Told(src, all, k, dead, i + 1, sent + NoticeTo(src, all[i], i == k, dead))
  {
    var rest := all[i..];
    assert rest[1..] == all[i + 1..];
    assert DeathNotices(src, rest, k - i, dead)
      == NoticeTo(src, all[i], i == k, dead) + DeathNotices(src, rest[1..], k - i - 1, dead);
  }

  lemma ToldAll(src: Mac, all: seq<Peer>, k: int, dead: Mac, sent: seq<Packet>)
    requires Told(src, all, k, dead, |all|, sent)
    ensures sent == DeathNotices(src, all, k, dead)
  {
    assert sent + [] == sent;
  }

  /** What a stack makes of a context, with the packets sent on the way. */
  ghost predicate Draining(c0: Context, all: seq<Message>, c: Context, i: nat, sent: seq<Packet>)
    requires i <= |all|
  {
    var (c', ps) := SendMessages(c, all[i..]);
    (c', sent + ps) == SendMessages(c0, all)
  }

  lemma DrainingNext(c0: Context, all: seq<Message>, c: Context, i: nat, sent: seq<Packet>, c': Context, more: seq<Packet>)
    requires i < |all| && Draining(c0, all, c, i, sent)
    requires MatchingSpec.SendMessage(c, all[i]) == (c', more)
    ensures Draining(c0, all, c', i + 1, sent + more)
  {
    assert all[i..][1..] == all[i + 1..];
    var (c2, ps) := SendMessages(c', all[i + 1..]);
    assert sent + (more + ps) == sent + more + ps;
  }

  lemma DrainingStart(c: Context, all: seq<Message>)
    ensures Draining(c, all, c, 0, [])
  {
    assert all[0..] == all;
    var (c', ps) := SendMessages(c, all);
    assert [] + ps == ps;
  }

  lemma DrainingDone(c0: Context, all: seq<Message>, c: Context, sent: seq<Packet>)
    requires Draining(c0, all, c, |all|, sent)
    ensures (c, sent) == SendMessages(c0, all)
  {
    assert sent + [] == sent;
  }

  // --- The timeout walk ---

  ghost predicate Walking(c0: Context, c: Context, k: nat, now: nat, sent: seq<Packet>) {
    var (c', ps) := TimeoutWalk(c, k, now);
    (c', sent + ps) == TimeoutWalk(c0, 0, now)
  }

  lemma WalkStart(c: Context, now: nat)
    ensures Walking(c, c, 0, now, [])
  {
    var (c', ps) := TimeoutWalk(c, 0, now);
    assert [] + ps == ps;
  }

  lemma WalkDone(c0: Context, c: Context, k: nat, now: nat, sent: seq<Packet>)
    requires Walking(c0, c, k, now, sent) && k >= |c.peers|
    ensures (c, sent) == TimeoutWalk(c0, 0, now)
  {
    assert sent + [] == sent;
  }

  lemma WalkNext(c0: Context, c: Context, k: nat, now: nat, sent: seq<Packet>, c': Context, more: seq<Packet>, gone: bool)
    requires Walking(c0, c, k, now, sent) && k < |c.peers| && (c', more, gone) == PeerTurn(c, k, now)
    ensures Walking(c0, c', if gone then k else k + 1, now, sent + more)
  {
    var (c2, ps) := TimeoutWalk(c', if gone then k else k + 1, now);
    assert sent + (more + ps) == sent + more + ps;
    assert [] + ps == ps;
  }

  // --- The walk of byes ---

  function ByeTo(src: Mac, p: Peer): seq<Packet> {
    if p.state == ParentPeer || p.state == ChildPeer || p.state == PairPeer then [Packet(src, p.mac, Bye)] else []
  }

  ghost predicate Byes(src: Mac, all: seq<Peer>, i: nat, sent: seq<Packet>)
    requires i <= |all|
  {
    sent + ByeNotices(src, all[i..]) == ByeNotices(src, all)
  }

  lemma ByesStart(src: Mac, all: seq<Peer>)
    ensures Byes(src, all, 0, [])
  {
    assert all[0..] == all && [] + ByeNotices(src, all) == ByeNotices(src, all);
  }

  lemma ByesNext(src: Mac, all: seq<Peer>, i: nat, sent: seq<Packet>)
    requires i < |all| && Byes(src, all, i, sent)
    ensures Byes(src, all, i + 1, sent + ByeTo(src, all[i]))
  {
    var rest := all[i..];
    assert rest[1..] == all[i + 1..];
    assert ByeNotices(src, rest) == ByeTo(src, all[i]) + ByeNotices(src, rest[1..]);
  }

  lemma ByesDone(src: Mac, all: seq<Peer>, sent: seq<Packet>)
    requires Byes(src, all, |all|, sent)
    ensures sent == ByeNotices(src, all)
  {
    assert sent + [] == sent;
  }

  /** The peer that was taken to have left is still in the list, behind fewer self entries. */
  lemma VisitStays(c: Context, nodes: seq<PeerNode>, k: nat)
    requires k < |c.peers| == |nodes|
    ensures var next := ByeVisit(c, k).1;
      var nodes' := if ByeDropsSelf(c, c.peers[k].mac) then Others(nodes, c.peers, c.mac) else nodes;
      0 < next <= |nodes'| && nodes'[next - 1] == nodes[k]
  {
    if ByeDropsSelf(c, c.peers[k].mac) {
      OthersAt(nodes, c.peers, c.mac, k);
      SelfEntriesBefore(c.peers, c.mac, k);
      assert MatchingSpec.OnBye(c, c.peers[k].mac, 0).peers == DropSelf(c.peers, c.mac, 0);
      assert SelfEntries(c.peers, c.mac) + |DropSelf(c.peers, c.mac, 0)| == |c.peers|;
    }
  }

  /** The bye of the parent takes this client's own entries out of its list. */
  ghost predicate ByeDropsSelf(c: Context, src: Mac) {
    var k := FindPeer(c.peers, src);
    src != c.mac && k < |c.peers| && c.mode == Client && c.peers[k].state == ParentPeer
  }

  class MatchingContext {
    const mac: Mac
    const mode: Mode
    const maxpeers: nat
    const keepalive: nat
    const timeout: nat
    var running: bool
    const peers: PeerList
    /** The input and event stacks, newest message first. */
    var stack: seq<Message>
    var events: seq<Event>

    constructor (mac: Mac, mode: Mode, maxpeers: nat, keepalive: nat, timeout: nat)
      ensures Valid() && View() == Context(mac, mode, true, maxpeers, keepalive, timeout, [], [], [])
      ensures fresh(peers)
    {
      this.mac, this.mode, this.maxpeers, this.keepalive, this.timeout := mac, mode, maxpeers, keepalive, timeout;
      running, stack, events := true, [], [];
      peers := new PeerList();
    }

    ghost predicate Valid()
      reads this, peers, peers.nodes
    {
      peers.Valid()
    }

    ghost function View(): Context
      reads this, peers, peers.nodes
    {
      Context(mac, mode, running, maxpeers, keepalive, timeout, peers.Contents(), stack, events)
    }

    /** The only nodes an operation adds to the list are new ones. */
    twostate predicate Owned()
      reads this, peers
    {
      forall i :: 0 <= i < |peers.nodes| ==> peers.nodes[i] in old(peers.nodes) || fresh(peers.nodes[i])
    }

    /** `_spawnLocalEvent` */
    method SpawnEvent(kind: EventKind, source: Mac)
      modifies this`events
      ensures View() == Spawn(old(View()), kind, source)
    {
      events := [Event(kind, source)] + events;
    }

    /** `_linkIOMessage` */
    method PushMessage(m: Message)
      modifies this`stack
      ensures View() == Push(old(View()), m)
    {
      stack := [m] + stack;
    }

    /** `_countConnectedPeers` */
    method CountPeers() returns (count: nat)
      requires Valid()
      ensures count == CountConnected(View())
    {
      if mode == Host {
        count := peers.Children();
        count := count + 1;
      } else if mode == Client {
        count := 1;
        var parent, k := peers.FindIn(ParentPeer);
        if parent != null {
          count := peers.Children();
          count := count + 2;
        }
      } else {
        count := 1;
        var p2p, k := peers.FindIn(PairPeer);
        if p2p != null {
          count := count + 1;
        }
      }
    }

    // --- API calls ---

    /** `proNetAdhocMatchingSelectTarget` */
    method SelectTarget(target: Mac) returns (result: ApiResult)
      requires Valid()
      modifies this, peers.nodes
      ensures Valid() && peers.nodes == old(peers.nodes)
      ensures (View(), result) == MatchingSpec.SelectTarget(old(View()), target)
    {
      if !running { return NotRunning; }
      var peer, k := peers.Find(target);
      if peer == null { return UnknownTarget; }
      if mode == Host {
        result := SelectAsHost(peer, k, target);
      } else if mode == Client {
        result := SelectAsClient(peer, k, target);
      } else {
        result := SelectAsPair(peer, k, target);
      }
    }

    method SelectAsHost(peer: PeerNode, ghost k: nat, target: Mac) returns (result: ApiResult)
      requires Valid() && k < |peers.nodes| && peer == peers.nodes[k]
      modifies this, peers.nodes
      ensures Valid() && peers.nodes == old(peers.nodes)
      ensures (View(), result) == MatchingSpec.SelectAsHost(old(View()), k, target)
    {
      if peer.Value().state == ChildPeer { return AlreadyEstablished; }
      var children := peers.Children();
      if children == maxpeers - 1 { return ExceedMaxnum; }
      if peer.Value().state == IncomingRequest {
        peers.Store(peer, k, peer.Value().(state := ChildPeer));
        PushMessage(AcceptMessage(target));
        PushMessage(BirthMessage(target));
        return Success;
      }
      return TargetNotReady;
    }

    method SelectAsClient(peer: PeerNode, ghost k: nat, target: Mac) returns (result: ApiResult)
      requires Valid() && k < |peers.nodes| && peer == peers.nodes[k]
      modifies this, peers.nodes
      ensures Valid() && peers.nodes == old(peers.nodes)
      ensures (View(), result) == MatchingSpec.SelectAsClient(old(View()), k, target)
    {
      var parent, i := peers.FindIn(ParentPeer);
      if parent != null { return AlreadyEstablished; }
      var request, j := peers.FindIn(OutgoingRequest);
      if request != null { return RequestInProgress; }
      if peer.Value().state == Offer {
        Ask(peer, k, target);
        return Success;
      }
      return TargetNotReady;
    }

    method Ask(peer: PeerNode, ghost k: nat, target: Mac)
      requires Valid() && k < |peers.nodes| && peer == peers.nodes[k]
      modifies this`stack, peers.nodes
      ensures Valid() && peers.nodes == old(peers.nodes)
      ensures View() == Push(old(View()).(peers := SetState(old(View()).peers, k, OutgoingRequest)), JoinMessage(target))
    {
      peers.Store(peer, k, peer.Value().(state := OutgoingRequest));
      PushMessage(JoinMessage(target));
    }

    method SelectAsPair(peer: PeerNode, ghost k: nat, target: Mac) returns (result: ApiResult)
      requires Valid() && k < |peers.nodes| && peer == peers.nodes[k]
      modifies this, peers.nodes
      ensures Valid() && peers.nodes == old(peers.nodes)
      ensures (View(), result) == MatchingSpec.SelectAsPair(old(View()), k, target)
    {
      var p2p, i := peers.FindIn(PairPeer);
      if p2p != null { return AlreadyEstablished; }
      var request, j := peers.FindIn(OutgoingRequest);
      if request != null { return RequestInProgress; }
      if peer.Value().state == Offer {
        MarkJoining(peer, k, OutgoingRequest, JoinMessage(target));
        return Success;
      } else if peer.Value().state == IncomingRequest {
        MarkJoining(peer, k, PairPeer, AcceptMessage(target));
        return Success;
      }
      return TargetNotReady;
    }

    /** A selected peer becomes joining, and a message is pushed for it. */
    method MarkJoining(peer: PeerNode, ghost k: nat, state: PeerState, m: Message)
      requires Valid() && k < |peers.nodes| && peer == peers.nodes[k]
      modifies this`stack, peers.nodes
      ensures Valid() && peers.nodes == old(peers.nodes)
      ensures var p := old(View()).peers[k].(joining := true, state := state);
        View() == Push(old(View()).(peers := old(View()).peers[k := p]), m)
    {
      peers.Store(peer, k, peer.Value().(joining := true, state := state));
      PushMessage(m);
    }

    /** `proNetAdhocMatchingCancelTargetWithOpt` */
    method CancelTarget(target: Mac) returns (result: ApiResult)
      requires Valid()
      modifies this, peers.nodes
      ensures Valid() && peers.nodes == old(peers.nodes)
      ensures (View(), result) == MatchingSpec.CancelTarget(old(View()), target)
    {
      if !running { return NotRunning; }
      var peer, k := peers.Find(target);
      if peer == null || !Cancellable(mode, peer.Value().state) { return UnknownTarget; }
      CancelPeer(peer, k, target);
      return Success;
    }

    method CancelPeer(peer: PeerNode, ghost k: nat, target: Mac)
      requires Valid() && k < |peers.nodes| && peer == peers.nodes[k]
      modifies this, peers.nodes
      ensures Valid() && peers.nodes == old(peers.nodes)
      ensures View() == MatchingSpec.CancelPeer(old(View()), k, target)
    {
      var connected := CountPeers();
      if mode == Host && peer.Value().state == ChildPeer && connected > 1 {
        PushMessage(DeathMessage(target));
      }
      peers.Store(peer, k, peer.Value().(state := CancelInProgress));
      PushMessage(CancelMessage(target));
    }

    // --- Sending ---

    /** The MACs of the children other than one peer, in list order. */
    method ChildrenBut(peer: PeerNode, ghost k: nat) returns (siblings: seq<Mac>)
      requires Valid() && k < |peers.nodes| && peer == peers.nodes[k]
      ensures siblings == Siblings(peers.Contents(), k)
    {
      siblings := [];
      var item := peers.first;
      ghost var i, all := 0, peers.Contents();
      while item != null
        invariant i <= |all| && item == peers.At(i)
        invariant Gathered(all, k, i, siblings)
        decreases |all| - i
      {
        GatheredNext(all, k, i, siblings);
        peers.Place(i, k);
        siblings := siblings + SiblingMac(item.Value(), item == peer);
        item := item.Next();
        i := i + 1;
      }
      GatheredAll(all, k, siblings);
    }

    /** `_sendAcceptPacket` */
    method SendAccept(target: Mac) returns (sent: seq<Packet>)
      requires Valid()
      modifies this`events
      ensures Valid() && (View(), sent) == MatchingSpec.SendAccept(old(View()), target)
    {
      sent := [];
      var peer, k := peers.Find(target);
      if peer != null && (peer.Value().state == ChildPeer || peer.Value().state == PairPeer) {
        var siblings := [];
        if mode == Host {
          siblings := ChildrenBut(peer, k);
        }
        sent := [Packet(mac, target, Accept(siblings))];
        SpawnEvent(EstablishedEvent, target);
      }
    }

    /** `_sendJoinPacket` */
    method SendJoin(target: Mac) returns (sent: seq<Packet>)
      requires Valid()
      ensures (View(), sent) == MatchingSpec.SendJoin(View(), target)
    {
      sent := [];
      var peer, k := peers.Find(target);
      if peer != null && peer.Value().state == OutgoingRequest {
        sent := [Packet(mac, target, Join)];
      }
    }

    /** `_sendCancelPacket` */
    method SendCancel(target: Mac) returns (sent: seq<Packet>)
      requires Valid()
      modifies peers, peers.nodes
      ensures Valid() && Owned() && (View(), sent) == MatchingSpec.SendCancel(old(View()), target)
      ensures var k := FindPeer(old(peers.Contents()), target);
        mode != Client && k < |old(peers.nodes)| ==> peers.nodes == Except(old(peers.nodes), k)
      ensures mode == Client && FindPeer(old(peers.Contents()), target) < |old(peers.nodes)| ==> peers.first == null
    {
      sent := [Packet(mac, target, Cancel)];
      var peer, k := peers.Find(target);
      if peer != null {
        if mode == Client {
          peers.Clear();
        } else {
          peers.DeletePeer(peer, k);
        }
      }
    }

    /** `_sendBirthPacket` */
    method SendBirth(target: Mac) returns (sent: seq<Packet>)
      requires Valid()
      ensures (View(), sent) == MatchingSpec.SendBirth(View(), target)
    {
      sent := [];
      var newborn, k := peers.Find(target);
      if newborn != null {
        var children := ChildrenBut(newborn, k);
        sent := ToAll(mac, children, Birth(target));
      }
    }

    /** `_sendDeathPacket` */
    method SendDeath(target: Mac) returns (sent: seq<Packet>)
      requires Valid()
      modifies peers, peers.nodes
      ensures Valid() && Owned() && (View(), sent) == MatchingSpec.SendDeath(old(View()), target)
      ensures var k := FindPeer(old(peers.Contents()), target);
        k < |old(peers.nodes)| ==> peers.nodes == Except(old(peers.nodes), k)
    {
      sent := [];
      var deadkid, k := peers.Find(target);
      if deadkid != null {
        sent := Abandon(deadkid, k, target);
      }
    }

    method Abandon(deadkid: PeerNode, ghost k: nat, target: Mac) returns (sent: seq<Packet>)
      requires Valid() && k < |peers.nodes| && deadkid == peers.nodes[k]
      modifies peers, peers.nodes
      ensures Valid() && Owned() && peers.nodes == Except(old(peers.nodes), k)
      ensures peers.Contents() == Delete(old(peers.Contents()), k)
      ensures sent == DeathNotices(mac, old(peers.Contents()), k, target)
    {
      sent := TellDeath(deadkid, k, target);
      peers.DeletePeer(deadkid, k);
    }

    method TellDeath(deadkid: PeerNode, ghost k: nat, target: Mac) returns (sent: seq<Packet>)
      requires Valid() && k < |peers.nodes| && deadkid == peers.nodes[k]
      ensures sent == DeathNotices(mac, peers.Contents(), k, target)
    {
      sent := [];
      var peer := peers.first;
      ghost var i, all := 0, peers.Contents();
      while peer != null
        invariant i <= |all| && peer == peers.At(i)
        invariant Told(mac, all, k, target, i, sent)
        decreases |all| - i
      {
        ToldNext(mac, all, k, target, i, sent);
        peers.Place(i, k);
        sent := sent + NoticeTo(mac, peer.Value(), peer == deadkid, target);
        peer := peer.Next();
        i := i + 1;
      }
      ToldAll(mac, all, k, target, sent);
    }

    method SendMessage(m: Message) returns (sent: seq<Packet>)
      requires Valid()
      modifies this`events, peers, peers.nodes
      ensures Valid() && Owned() && (View(), sent) == MatchingSpec.SendMessage(old(View()), m)
    {
      match m {
        case AcceptMessage(target) => sent := SendAccept(target);
        case JoinMessage(target) => sent := SendJoin(target);
        case CancelMessage(target) => sent := SendCancel(target);
        case BirthMessage(target) => sent := SendBirth(target);
        case DeathMessage(target) => sent := SendDeath(target);
      }
    }

    /** The IO thread handles its whole stack, newest message first, and clears it. */
    method Drain() returns (sent: seq<Packet>)
      requires Valid()
      modifies this, peers, peers.nodes
      ensures Valid() && Owned() && (View(), sent) == MatchingSpec.Drain(old(View()))
    {
      sent := SendStack(stack);
      stack := [];
    }

    method SendStack(messages: seq<Message>) returns (sent: seq<Packet>)
      requires Valid()
      modifies this`events, peers, peers.nodes
      ensures Valid() && Owned() && (View(), sent) == SendMessages(old(View()), messages)
    {
      sent := [];
      var msg := 0;
      ghost var c := View();
      DrainingStart(c, messages);
      while msg < |messages|
        invariant msg <= |messages| && Valid() && Owned()
        invariant Draining(c, messages, View(), msg, sent)
      {
        var more := SendNext(c, messages, msg, sent);
        sent := sent + more;
        msg := msg + 1;
      }
      DrainingDone(c, messages, View(), sent);
    }

    method SendNext(ghost c: Context, messages: seq<Message>, msg: nat, ghost sent: seq<Packet>)
      returns (more: seq<Packet>)
      requires Valid() && msg < |messages| && Draining(c, messages, View(), msg, sent)
      modifies this`events, peers, peers.nodes
      ensures Valid() && Owned() && Draining(c, messages, View(), msg + 1, sent + more)
    {
      ghost var before := View();
      more := SendMessage(messages[msg]);
      DrainingNext(c, messages, before, msg, sent, View(), more);
    }

    // --- Receiving ---

    /** A peer's timers, and what else is assigned with them. */
    method Assign(peer: PeerNode, ghost k: nat, p: Peer)
      requires Valid() && k < |peers.nodes| && peer == peers.nodes[k]
      modifies peers.nodes
      ensures Valid() && peers.nodes == old(peers.nodes)
      ensures View() == old(View()).(peers := old(View()).peers[k := p])
    {
      peers.Store(peer, k, p);
    }

    /** `_actOnPingPacket` */
    method OnPing(src: Mac, now: nat)
      requires Valid()
      modifies peers.nodes
      ensures Valid() && peers.nodes == old(peers.nodes) && View() == MatchingSpec.OnPing(old(View()), src, now)
    {
      var peer, k := peers.Find(src);
      if peer != null {
        Assign(peer, k, peer.Value().(lastping := now, lastSeen := now));
      }
    }

    method IsUnattached() returns (r: bool)
      requires Valid()
      ensures r == Unattached(View())
    {
      r := false;
      if mode == Client {
        var parent, k := peers.FindIn(ParentPeer);
        r := parent == null;
      } else if mode == Pair {
        var p2p, k := peers.FindIn(PairPeer);
        r := p2p == null;
      }
    }

    /** A new peer in front of the list. */
    method AddPeer(p: Peer)
      requires Valid()
      modifies peers
      ensures Valid() && Owned() && View() == old(View()).(peers := [p] + old(View()).peers)
    {
      peers.PushFront(p);
      assert forall i :: 0 < i < |peers.nodes| ==> peers.nodes[i] == peers.nodes[1..][i - 1];
    }

    /** `_actOnHelloPacket` */
    method OnHello(src: Mac, now: nat)
      requires Valid()
      modifies this`events, peers
      ensures Valid() && Owned() && View() == MatchingSpec.OnHello(old(View()), src, now)
    {
      var interested := IsUnattached();
      if interested {
        MeetPeer(src, now);
        SpawnEvent(HelloEvent, src);
      }
    }

    method MeetPeer(src: Mac, now: nat)
      requires Valid()
      modifies peers
      ensures Valid() && Owned() && View() == Met(old(View()), src, now)
    {
      var peer, k := peers.Find(src);
      if peer == null {
        AddPeer(NewPeer(src, Offer, now));
      }
    }

    /** Whether a join request finds a free slot. */
    method HasSlot() returns (r: bool)
      requires Valid()
      ensures mode == Host ==> r == (CountChildren(peers.Contents()) < maxpeers - 1)
      ensures mode == Pair ==> r == !HasState(peers.Contents(), PairPeer)
    {
      r := false;
      if mode == Host {
        var children := peers.Children();
        r := children < maxpeers - 1;
      } else if mode == Pair {
        var p2p, k := peers.FindIn(PairPeer);
        r := p2p == null;
      }
    }

    /** `_actOnJoinPacket` */
    method OnJoin(src: Mac, now: nat) returns (sent: seq<Packet>)
      requires Valid()
      modifies this`events, peers, peers.nodes
      ensures Valid() && Owned() && (View(), sent) == MatchingSpec.OnJoin(old(View()), src, now)
    {
      sent := [];
      if mode != Client {
        var slot := HasSlot();
        if slot {
          RecordJoin(src, now);
        } else {
          sent := SendCancel(src);
        }
      }
    }

    method RecordJoin(src: Mac, now: nat)
      requires Valid()
      modifies this`events, peers, peers.nodes
      ensures Valid() && Owned() && View() == Recorded(old(View()), src, now)
    {
      var peer, k := peers.Find(src);
      if peer != null && mode == Host { return; }
      RecordRequest(peer, k, src, now);
      SpawnEvent(RequestEvent, src);
    }

    method RecordRequest(peer: PeerNode?, ghost k: nat, src: Mac, now: nat)
      requires Valid() && k == FindPeer(peers.Contents(), src) && peer == peers.At(k)
      modifies peers, peers.nodes
      ensures Valid() && Owned()
      ensures View() == old(View()).(peers :=
        if peer == null then [NewPeer(src, IncomingRequest, now).(joining := mode == Pair)] + old(View()).peers
        else old(View()).peers[k := Peer(old(View()).peers[k].mac, IncomingRequest, now, now, true)])
    {
      if peer == null {
        AddPeer(NewPeer(src, IncomingRequest, now).(joining := mode == Pair));
      } else {
        Assign(peer, k, Peer(peer.Value().mac, IncomingRequest, now, now, true));
      }
    }

    /** `_actOnAcceptPacket` */
    method OnAccept(src: Mac, siblings: seq<Mac>, now: nat)
      requires Valid()
      modifies this`events, peers, peers.nodes
      ensures Valid() && Owned() && View() == MatchingSpec.OnAccept(old(View()), src, siblings, now)
    {
      var peer, k := FindAnswered(src);
      if peer != null {
        Establish(peer, k, src, siblings, now);
      }
    }

    method Establish(peer: PeerNode, ghost k: nat, src: Mac, siblings: seq<Mac>, now: nat)
      requires Valid() && k < |peers.nodes| && peer == peers.nodes[k]
      modifies this`events, peers, peers.nodes
      ensures Valid() && Owned() && View() == Established(old(View()), k, src, siblings, now)
    {
      Accepted(peer, k, siblings, now);
      SpawnEvent(EstablishedEvent, src);
      SpawnEvent(AcceptEvent, src);
    }

    /** The peer that was asked, if the answer is its own and still of use. */
    method FindAnswered(src: Mac) returns (peer: PeerNode?, ghost k: nat)
      requires Valid()
      ensures peer != null <==> Awaited(View(), src)
      ensures k == FindState(peers.Contents(), OutgoingRequest) && (peer != null ==> peer == peers.At(k))
    {
      var unattached := IsUnattached();
      peer, k := peers.FindIn(OutgoingRequest);
      var sender, j := peers.Find(src);
      if !unattached || peer != sender {
        peer := null;
      }
    }

    /** The peer list after the answer that was waited for. */
    method Accepted(peer: PeerNode, ghost k: nat, siblings: seq<Mac>, now: nat)
      requires Valid() && k < |peers.nodes| && peer == peers.nodes[k]
      modifies peers, peers.nodes
      ensures Valid() && Owned()
      ensures View() == old(View()).(peers := AcceptedPeers(old(View()), k, siblings, now))
    {
      SetAccepted(peer, k);
      peers.Clean();
      assert forall i :: 0 <= i < |peers.nodes| ==> peers.nodes[i] in old(peers.nodes);
      AddFamily(siblings, now);
    }

    method SetAccepted(peer: PeerNode, ghost k: nat)
      requires Valid() && k < |peers.nodes| && peer == peers.nodes[k]
      modifies peers.nodes
      ensures Valid() && peers.nodes == old(peers.nodes)
      ensures peers.Contents() == old(peers.Contents())[k := AcceptedPeer(mode, old(peers.Contents())[k])]
    {
      var state := if mode == Client then ParentPeer else PairPeer;
      peers.Store(peer, k, peer.Value().(state := state, joining := mode == Pair || peer.Value().joining));
    }

    method AddFamily(siblings: seq<Mac>, now: nat)
      requires Valid()
      modifies peers, peers.nodes
      ensures Valid() && Owned()
      ensures peers.Contents() == WithFamily(mode, mac, old(peers.Contents()), siblings, now)
    {
      if mode == Client {
        peers.AddSiblings(siblings, now);
        peers.AddSelf(mac, now);
      }
    }

    method StampCancelled(peer: PeerNode, ghost k: nat, kind: EventKind, src: Mac, stamp: nat)
      requires Valid() && k < |peers.nodes| && peer == peers.nodes[k]
      modifies this`events, peers.nodes
      ensures Valid() && peers.nodes == old(peers.nodes)
      ensures View() == Cancelled(old(View()), k, kind, src, stamp)
    {
      Assign(peer, k, peer.Value().(lastping := stamp));
      SpawnEvent(kind, src);
    }

    method ClearJoining(peer: PeerNode, ghost k: nat)
      requires Valid() && k < |peers.nodes| && peer == peers.nodes[k]
      modifies peers.nodes
      ensures Valid() && peers.nodes == old(peers.nodes) && peer.View().state == old(peer.View().state)
      ensures View() == NotJoining(old(View()), k)
    {
      Assign(peer, k, peer.Value().(joining := false));
      assert View().peers[k] == peer.Value();
    }

    /** `_actOnCancelPacket` */
    method OnCancel(src: Mac, stamp: nat)
      requires Valid()
      modifies this`events, peers, peers.nodes
      ensures Valid() && Owned() && View() == MatchingSpec.OnCancel(old(View()), src, stamp)
    {
      var peer, k := peers.Find(src);
      if peer != null {
        if mode == Client {
          CancelledClient(peer, k, src, stamp);
        } else if mode == Host {
          CancelledHost(peer, k, src, stamp);
        } else {
          CancelledPair(peer, k, src, stamp);
        }
      }
    }

    method CancelledClient(peer: PeerNode, ghost k: nat, src: Mac, stamp: nat)
      requires Valid() && mode == Client && k < |peers.nodes| && peer == peers.nodes[k]
      modifies this`events, peers, peers.nodes
      ensures Valid() && Owned() && View() == CancelAtClient(old(View()), k, src, stamp)
    {
      var request := IsFirstIn(OutgoingRequest, peer, k);
      var parent := IsFirstIn(ParentPeer, peer, k);
      ClearJoining(peer, k);
      assert View() == NotJoining(old(View()), k);
      if request {
        StampCancelled(peer, k, DenyEvent, src, stamp);
      } else if parent {
        Kick(stamp);
      }
    }

    /** Whether this peer is the one found for a state. */
    method IsFirstIn(state: PeerState, peer: PeerNode, ghost k: nat) returns (r: bool)
      requires Valid() && k < |peers.nodes| && peer == peers.nodes[k]
      ensures r == (FindState(peers.Contents(), state) == k)
    {
      var found, i := peers.FindIn(state);
      r := found == peer;
    }

    method Kick(stamp: nat)
      requires Valid()
      modifies this`events, peers, peers.nodes
      ensures Valid() && Owned() && View() == Kicked(old(View()), stamp)
    {
      SpawnLeaves();
      peers.DropSelf(mac, stamp);
    }

    /** A leave event for every established peer. */
    method SpawnLeaves()
      requires Valid()
      modifies this`events
      ensures events == LeaveEvents(old(events), peers.Contents())
    {
      var item := peers.first;
      ghost var all, i := peers.Contents(), 0;
      assert all[0..] == all;
      while item != null
        invariant i <= |all| && item == peers.At(i)
        invariant LeaveEvents(events, all[i..]) == LeaveEvents(old(events), all)
        decreases |all| - i
      {
        assert all[i..][1..] == all[i + 1..] && all[i] == item.Value();
        if item.Value().state == ChildPeer || item.Value().state == ParentPeer {
          events := [Event(LeaveEvent, item.Value().mac)] + events;
        }
        item := item.Next();
        i := i + 1;
      }
    }

    method CancelledHost(peer: PeerNode, ghost k: nat, src: Mac, stamp: nat)
      requires Valid() && mode == Host && k < |peers.nodes| && peer == peers.nodes[k]
      modifies this`events, peers.nodes
      ensures Valid() && peers.nodes == old(peers.nodes) && View() == CancelAtHost(old(View()), k, src, stamp)
    {
      ClearJoining(peer, k);
      if peer.Value().state == IncomingRequest {
        StampCancelled(peer, k, CancelEvent, src, stamp);
      } else if peer.Value().state == ChildPeer {
        StampCancelled(peer, k, LeaveEvent, src, stamp);
      }
    }

    method CancelledPair(peer: PeerNode, ghost k: nat, src: Mac, stamp: nat)
      requires Valid() && mode == Pair && k < |peers.nodes| && peer == peers.nodes[k]
      modifies this`events, peers.nodes
      ensures Valid() && peers.nodes == old(peers.nodes) && View() == CancelAtPair(old(View()), k, src, stamp)
    {
      var request := IsFirstIn(OutgoingRequest, peer, k);
      var p2p := IsFirstIn(PairPeer, peer, k);
      ClearJoining(peer, k);
      if request {
        StampCancelled(peer, k, DenyEvent, src, stamp);
      } else if p2p {
        StampCancelled(peer, k, LeaveEvent, src, stamp);
      } else if peer.Value().state == IncomingRequest {
        StampCancelled(peer, k, CancelEvent, src, stamp);
      }
    }

    method IsFromParent(src: Mac) returns (r: bool)
      requires Valid()
      ensures r == FromParent(View(), src)
    {
      var peer, i := peers.Find(src);
      var parent, j := peers.FindIn(ParentPeer);
      r := peer != null && mode == Client && peer == parent;
    }

    /** `_actOnBirthPacket` */
    method OnBirth(src: Mac, newborn: Mac, now: nat)
      requires Valid()
      modifies peers
      ensures Valid() && Owned() && View() == MatchingSpec.OnBirth(old(View()), src, newborn, now)
    {
      var valid := IsFromParent(src);
      if valid {
        AddPeer(NewPeer(newborn, ChildPeer, now));
      }
    }

    /** `_actOnDeathPacket` */
    method OnDeath(src: Mac, dead: Mac)
      requires Valid()
      modifies this`events, peers, peers.nodes
      ensures Valid() && Owned() && View() == MatchingSpec.OnDeath(old(View()), src, dead)
    {
      var valid := IsFromParent(src);
      if valid {
        DropDead(dead);
      }
    }

    method DropDead(dead: Mac)
      requires Valid()
      modifies this`events, peers, peers.nodes
      ensures Valid() && Owned() && View() == Bury(old(View()), dead)
    {
      var deadkid, k := peers.Find(dead);
      if deadkid != null && deadkid.Value().state == ChildPeer {
        SpawnEvent(LeaveEvent, dead);
        peers.DeletePeer(deadkid, k);
      }
    }

    /** `_actOnByePacket` */
    method OnBye(src: Mac, stamp: nat)
      requires Valid()
      modifies this`events, peers, peers.nodes
      ensures Valid() && Owned() && View() == MatchingSpec.OnBye(old(View()), src, stamp)
      ensures peers.nodes == if ByeDropsSelf(old(View()), src)
        then Others(old(peers.nodes), old(peers.Contents()), mac) else old(peers.nodes)
    {
      var peer, k := peers.Find(src);
      if src == mac { return; }
      if peer != null {
        if ByeMatters(mode, peer.Value().state) {
          SpawnEvent(ByeEvent, src);
          Assign(peer, k, peer.Value().(lastping := stamp));
        } else if mode == Client && peer.Value().state == ParentPeer {
          SpawnEvent(ByeEvent, src);
          peers.DropSelf(mac, stamp);
        }
      }
    }

    /** The dispatch of one received packet. */
    method OnPacket(src: Mac, body: Body, now: nat) returns (sent: seq<Packet>)
      requires Valid()
      modifies this`events, peers, peers.nodes
      ensures Valid() && Owned() && (View(), sent) == MatchingSpec.OnPacket(old(View()), src, body, now)
    {
      sent := [];
      match body {
        case Ping => OnPing(src, now);
        case Hello => OnHello(src, now);
        case Join => sent := OnJoin(src, now);
        case Accept(siblings) => OnAccept(src, siblings, now);
        case Cancel => OnCancel(src, now + REMOVAL_DELAY);
        case Birth(newborn) => OnBirth(src, newborn, now);
        case Death(dead) => OnDeath(src, dead);
        case Bye => OnBye(src, now + REMOVAL_DELAY);
      }
    }

    // --- Timers ---

    /** `_handleTimeout`: the saved next peer is in the list again once the peer is handled, or
        the list is empty and the walk ends, so no freed node is ever followed. */
    method HandleTimeout(now: nat) returns (sent: seq<Packet>)
      requires Valid()
      modifies this`events, peers, peers.nodes
      ensures Valid() && Owned() && (View(), sent) == MatchingSpec.HandleTimeout(old(View()), now)
    {
      sent := [];
      if keepalive == 0 { return; }
      var peer := peers.first;
      ghost var c, k := View(), 0;
      WalkStart(c, now);
      while peer != null
        invariant Valid() && Owned() && k <= |peers.nodes| && peer == peers.At(k)
        invariant Walking(c, View(), k, now, sent)
        decreases |peers.nodes| - k
      {
        var next := peer.Next();
        ghost var before := View();
        var more, gone := HandlePeer(peer, k, now);
        WalkNext(c, before, k, now, sent, View(), more, gone);
        sent := sent + more;
        if gone && peers.first == null {
          break;
        }
        k := if gone then k else k + 1;
        peer := next;
      }
      WalkDone(c, View(), k, now, sent);
    }

    /** One peer of the timeout walk. */
    method HandlePeer(peer: PeerNode, ghost k: nat, now: nat) returns (sent: seq<Packet>, gone: bool)
      requires Valid() && k < |peers.nodes| && peer == peers.nodes[k]
      modifies this`events, peers, peers.nodes
      ensures Valid() && Owned() && (View(), sent, gone) == PeerTurn(old(View()), k, now)
      ensures !gone ==> peers.nodes == old(peers.nodes)
      ensures gone && mode != Client ==> exists j :: 0 <= j <= k && peers.nodes == Except(old(peers.nodes), j)
      ensures gone && mode == Client ==> peers.first == null
    {
      sent, gone := [], false;
      var p := peer.Value();
      if TimedOut(timeout, p, now) && !p.joining {
        if TimeoutEventDue(mode, p.state) {
          SpawnEvent(TimeoutEvent, p.mac);
        }
        if p.mac != mac {
          gone := true;
          sent := EvictPeer(p.mac);
        }
      }
    }

    method EvictPeer(target: Mac) returns (sent: seq<Packet>)
      requires Valid()
      modifies this`events, peers, peers.nodes
      ensures Valid() && Owned() && (View(), sent) == Evict(old(View()), target)
      ensures events == old(events)
      ensures var k := FindPeer(old(peers.Contents()), target);
        mode != Client && k < |old(peers.nodes)| ==> peers.nodes == Except(old(peers.nodes), k)
      ensures mode == Client && FindPeer(old(peers.Contents()), target) < |old(peers.nodes)| ==> peers.first == null
    {
      if mode == Host {
        sent := SendDeath(target);
      } else {
        sent := SendCancel(target);
      }
    }

    /** `timeout_missing_peers_on_adhocctl`; the group server's answers are a set of the MACs it
        misses. The peer the walk stands on is never freed by the bye it is taken for. */
    method TimeoutMissing(now: nat, missing: set<Mac>)
      requires Valid()
      modifies this`events, peers, peers.nodes
      ensures Valid() && Owned() && View() == AdhocctlWalk(old(View()), 0, now, missing)
    {
      var item := peers.first;
      ghost var k := 0;
      while item != null
        invariant Valid() && Owned() && 0 <= k <= |peers.nodes| && item == peers.At(k)
        invariant AdhocctlWalk(View(), k, now, missing) == AdhocctlWalk(old(View()), 0, now, missing)
        decreases |peers.nodes| - k
      {
        k := VisitMissing(item, k, now, missing);
        item := item.Next();
      }
    }

    method VisitMissing(item: PeerNode, ghost k: nat, now: nat, missing: set<Mac>) returns (ghost next: nat)
      requires Valid() && k < |peers.nodes| && item == peers.nodes[k]
      modifies this`events, peers, peers.nodes
      ensures Valid() && Owned() && (View(), next) == AdhocctlVisit(old(View()), k, now, missing)
      ensures 0 < next <= |peers.nodes| && item == peers.nodes[next - 1]
    {
      next := k + 1;
      if item.Value().state != Self {
        if item.Value().mac !in missing {
          Assign(item, k, item.Value().(lastSeen := now, lastping := now));
        } else if now - item.Value().lastSeen > ADHOCCTL_GRACE {
          next := ByeMissing(item, k);
        }
      }
    }

    method ByeMissing(item: PeerNode, ghost k: nat) returns (ghost next: nat)
      requires Valid() && k < |peers.nodes| && item == peers.nodes[k]
      modifies this`events, peers, peers.nodes
      ensures Valid() && Owned() && (View(), next) == ByeVisit(old(View()), k)
      ensures 0 < next <= |peers.nodes| && item == peers.nodes[next - 1]
    {
      VisitStays(View(), peers.nodes, k);
      next := ByeVisit(View(), k).1;
      OnBye(item.Value().mac, 0);
    }

    /** The end of the IO thread: `_sendByePacket` and `_clearPeerList`. */
    method Stop() returns (sent: seq<Packet>)
      requires Valid()
      modifies this, peers, peers.nodes
      ensures Valid() && Owned() && (View(), sent) == MatchingSpec.Stop(old(View()))
    {
      sent := SendBye();
      peers.Clear();
      running := false;
    }

    /** `_sendByePacket` */
    method SendBye() returns (sent: seq<Packet>)
      requires Valid()
      ensures sent == ByeNotices(mac, peers.Contents())
    {
      sent := [];
      var peer := peers.first;
      ghost var all, i := peers.Contents(), 0;
      ByesStart(mac, all);
      while peer != null
        invariant i <= |all| && peer == peers.At(i) && Byes(mac, all, i, sent)
        decreases |all| - i
      {
        assert all[i] == peer.Value();
        ByesNext(mac, all, i, sent);
        sent := sent + ByeTo(mac, peer.Value());
        peer := peer.Next();
        i := i + 1;
      }
      ByesDone(mac, all, sent);
    }
  }
}
