/** `proNetAdhocMatchingGetMembers`: the members a player is shown, for a buffer of any size. */
module MemberListing {
  import opened MatchingSpec
  import opened MatchingInvariant
  import opened MatchingMembers
  import opened PeerLists
  import opened MatchingContext

  // --- With room for everyone ---

  lemma {:induction false} ListedCount(mode: Mode, peers: seq<Peer>)
    ensures |ListedMacs(mode, peers)|
      == CountChildren(peers) + if mode == Client then Count(peers, {Self}) else 0
  {
    if peers != [] { ListedCount(mode, peers[1..]); }
  }

  lemma {:induction false} ReversedCount(mode: Mode, peers: seq<Peer>)
    ensures |ListedMacs(mode, Reverse(peers))| == |ListedMacs(mode, peers)|
  {
    if peers != [] {
      ReversedCount(mode, peers[1..]);
      ListedConcat(mode, Reverse(peers[1..]), [peers[0]]);
    }
  }

  /** A full-size buffer shows all members: a host without a parent, a client that is in its own
      list at most once. */
  lemma FullRoomShowsMembers(c: Context, room: nat)
    requires room >= CountConnected(c)
    requires c.mode == Host ==> !HasState(c.peers, ParentPeer)
    requires c.mode == Client ==> Count(c.peers, {Self}) <= 1
    ensures Shown(c, room) == Members(c)
  {
    ListedCount(c.mode, c.peers);
    ReversedCount(c.mode, c.peers);
    var listed := ListedMacs(c.mode, Reverse(c.peers));
    assert [c.mac] + [] == [c.mac];
    assert listed == [] ==> [c.mac] + listed == [c.mac];
  }

  /** A smaller buffer shows a beginning of the members, except that one with room for one shows
      nothing to a client in a room: the host would come first. */
  lemma SmallRoomShowsBeginning(c: Context, room: nat)
    requires c.mode == Host ==> !HasState(c.peers, ParentPeer)
    requires c.mode == Client ==> Count(c.peers, {Self}) <= 1
    ensures var all := Members(c);
      Shown(c, room) ==
        if room == 0 || (room == 1 && c.mode == Client && HasState(c.peers, ParentPeer)) then []
        else if room < |all| then all[..room] else all
  {
    FullRoomShowsMembers(c, CountConnected(c));
    ListedCount(c.mode, c.peers);
    ReversedCount(c.mode, c.peers);
    if CountConnected(c) > 1 {
      assert Took(Listing(c), CountConnected(c)) == Members(c);
      TookLess(Listing(c), CountConnected(c), room);
    }
  }

  /** The number of connected peers, which sizes a buffer, is the number of members: a client in a
      room holds its own entry once. */
  lemma CountIsMembers(c: Context)
    requires c.mode == Host ==> !HasState(c.peers, ParentPeer)
    requires c.mode == Client && HasState(c.peers, ParentPeer) ==> Count(c.peers, {Self}) == 1
    ensures CountConnected(c) == |Members(c)|
  {
    ListedCount(c.mode, c.peers);
    ReversedCount(c.mode, c.peers);
  }

  lemma TookLess<T>(s: seq<T>, n: nat, m: nat)
    ensures m <= n ==> Took(Took(s, n), m) == Took(s, m)
    ensures n <= m ==> Took(Took(s, n), m) == Took(s, n)
  {
  }

  lemma {:induction false} SelfOnce(peers: seq<Peer>, self: Mac)
    requires UniqueMacs(peers) && forall p :: p in peers && p.state == Self ==> p.mac == self
    ensures Count(peers, {Self}) <= if exists p :: p in peers && p.mac == self then 1 else 0
  {
    if peers != [] {
      var rest := peers[1..];
      assert forall p :: p in rest ==> p in peers;
      assert forall p :: p in rest ==> p.mac != peers[0].mac;
      assert peers[0] in peers;
      SelfOnce(rest, self);
    }
  }

  /** In every run of a room, the host and each child it holds are shown the same MACs in the
      same order, each with a buffer of full size or larger. */
  lemma FullListsAgree(start: Room, steps: seq<RoomStep>, p: Peer, hostRoom: nat, clientRoom: nat)
    requires FreshRoom(start)
    requires p in RunRoom(start, steps).host.peers && p.state == ChildPeer
    requires hostRoom >= CountConnected(RunRoom(start, steps).host)
    ensures var r := RunRoom(start, steps);
      && p.mac in r.clients
      && (clientRoom >= CountConnected(r.clients[p.mac])
          ==> Shown(r.clients[p.mac], clientRoom) == Shown(r.host, hostRoom))
  {
    RunAgreed(start, steps);
    MembersAgree(start, steps, p);
    var r := RunRoom(start, steps);
    assert ClientFits(r, p);
    SelfOnce(r.clients[p.mac].peers, p.mac);
    NoParent(r.host.peers);
    FullRoomShowsMembers(r.host, hostRoom);
    if clientRoom >= CountConnected(r.clients[p.mac]) {
      FullRoomShowsMembers(r.clients[p.mac], clientRoom);
    }
  }

  lemma {:induction false} NoParent(peers: seq<Peer>)
    requires forall p :: p in peers ==> p.state == ChildPeer || p.state == IncomingRequest
    ensures !HasState(peers, ParentPeer)
  {
    if peers != [] {
      assert peers[0] in peers;
      NoParent(peers[1..]);
    }
  }

  // --- The code ---

  method Bump(list: PeerList, peer: PeerNode, ghost k: nat, now: nat)
    requires list.Valid() && k < |list.nodes| && peer == list.nodes[k]
    modifies list.nodes
    ensures list.Valid() && list.nodes == old(list.nodes)
    ensures list.Contents() == old(list.Contents())[k := Bumped(old(list.Contents())[k], now)]
  {
    var p := peer.Value();
    if peer.Value().lastping != 0 {
      p := p.(lastping := now);
    }
    list.Store(peer, k, p);
  }

  method CountNodes(list: PeerList) returns (num: nat)
    requires list.Valid()
    ensures num == |list.nodes|
  {
    num := 0;
    var peer := list.first;
    while peer != null
      invariant num <= |list.nodes| && peer == list.At(num)
      decreases |list.nodes| - num
    {
      num := num + 1;
      peer := peer.Next();
    }
  }

  /** The nodes from the last to the first, each bumped. */
  method ReverseList(list: PeerList, now: nat) returns (reversed: array<PeerNode?>)
    requires list.Valid()
    modifies list.nodes
    ensures fresh(reversed) && list.Valid() && list.nodes == old(list.nodes) && reversed.Length == |list.nodes|
    ensures forall i :: 0 <= i < reversed.Length ==> reversed[i] == list.nodes[|list.nodes| - 1 - i]
    ensures list.Contents() == BumpAll(old(list.Contents()), now)
  {
    var num := CountNodes(list);
    reversed := new PeerNode?[num](_ => null);
    var i := num;
    var peer := list.first;
    ghost var all, k := list.Contents(), 0;
    while peer != null && i > 0
      invariant list.Valid() && list.nodes == old(list.nodes) && k + i == num && peer == list.At(k)
      invariant Backwards(reversed[..], list.nodes, k) && BumpedUpTo(all, list.Contents(), k, now)
    {
      i := i - 1;
      PutReversed(list, reversed, peer, i, all, k, now);
      peer := peer.Next();
      k := k + 1;
    }
    assert list.Contents() == BumpAll(all, now);
  }

  method PutReversed(list: PeerList, reversed: array<PeerNode?>, peer: PeerNode, i: nat, ghost all: seq<Peer>, ghost k: nat, now: nat)
    requires list.Valid() && k < |list.nodes| && peer == list.nodes[k] && i == |list.nodes| - 1 - k
    requires Backwards(reversed[..], list.nodes, k) && BumpedUpTo(all, list.Contents(), k, now)
    modifies list.nodes, reversed
    ensures list.Valid() && list.nodes == old(list.nodes)
    ensures Backwards(reversed[..], list.nodes, k + 1) && BumpedUpTo(all, list.Contents(), k + 1, now)
  {
    BackwardsNext(reversed[..], list.nodes, k);
    reversed[i] := peer;
    BumpedNext(all, list.Contents(), k, now);
    Bump(list, peer, k, now);
  }

  /** The first k nodes, from the end of the array downwards. */
  ghost predicate Backwards(s: seq<PeerNode?>, nodes: seq<PeerNode>, k: nat) {
    |s| == |nodes| && forall j :: 0 <= j < |s| && |s| - k <= j ==> s[j] == nodes[|s| - 1 - j]
  }

  lemma BackwardsNext(s: seq<PeerNode?>, nodes: seq<PeerNode>, k: nat)
    requires Backwards(s, nodes, k) && k < |s|
    ensures Backwards(s[|s| - 1 - k := nodes[k]], nodes, k + 1)
  {
  }

  lemma BumpedNext(all: seq<Peer>, ps: seq<Peer>, k: nat, now: nat)
    requires BumpedUpTo(all, ps, k, now) && k < |ps|
    ensures BumpedUpTo(all, ps[k := Bumped(ps[k], now)], k + 1, now)
  {
  }

  ghost predicate BumpedUpTo(all: seq<Peer>, ps: seq<Peer>, k: nat, now: nat) {
    && |ps| == |all|
    && forall j :: 0 <= j < |all| ==> ps[j] == if j < k then Bumped(all[j], now) else all[j]
  }

  lemma {:induction false} ReverseAt<T>(s: seq<T>, i: nat)
    requires i < |s|
    ensures |Reverse(s)| == |s| && Reverse(s)[i] == s[|s| - 1 - i]
    decreases |s|
  {
    if |s| > 1 {
      ReverseAt(s[1..], if i < |s| - 1 then i else 0);
    }
  }

  /** Listing the reversed peers until the buffer is full. */
  method FillListed(mode: Mode, reversed: array<PeerNode?>, ghost peers: seq<Peer>, buf: array<Mac>, from: nat, requested: nat)
    returns (filled: nat)
    requires mode != Pair && from <= requested <= buf.Length && reversed.Length == |peers|
    requires forall i :: 0 <= i < |peers| ==> reversed[i] != null && reversed[i].live && reversed[i].View() == peers[i]
    modifies buf
    ensures filled <= requested
    ensures buf[..filled] == Took(old(buf[..from]) + ListedMacs(mode, peers), requested)
  {
    filled := from;
    var i := 0;
    ghost var head := buf[..from];
    assert peers[..0] == [] && head + [] == head;
    while i < reversed.Length && filled < requested
      invariant i <= reversed.Length && filled <= requested
      invariant buf[..filled] == head + ListedMacs(mode, peers[..i])
    {
      ListedAfter(head, mode, peers, i);
      filled := FillOne(mode, reversed[i], buf, filled);
      i := i + 1;
    }
    FilledAll(head, mode, peers, i, requested);
  }

  method FillOne(mode: Mode, peer: PeerNode, buf: array<Mac>, from: nat) returns (filled: nat)
    requires mode != Pair && from < buf.Length && peer.live
    modifies buf
    ensures filled <= from + 1 && filled <= buf.Length
    ensures buf[..filled] == old(buf[..from]) + if Listed(mode, peer.View()) then [peer.View().mac] else []
  {
    filled := from;
    if mode == Host {
      if peer.Value().state == ChildPeer {
        buf[filled] := peer.Value().mac;
        filled := filled + 1;
      }
    } else {
      if peer.Value().state == ChildPeer {
        buf[filled] := peer.Value().mac;
        filled := filled + 1;
      } else if peer.Value().state == Self {
        buf[filled] := peer.Value().mac;
        filled := filled + 1;
      }
    }
  }

  lemma ListedAfter(head: seq<Mac>, mode: Mode, peers: seq<Peer>, i: nat)
    requires i < |peers|
    ensures head + ListedMacs(mode, peers[..i + 1])
      == head + ListedMacs(mode, peers[..i]) + if Listed(mode, peers[i]) then [peers[i].mac] else []
  {
    ListedNext(mode, peers, i);
  }

  lemma FilledAll(head: seq<Mac>, mode: Mode, peers: seq<Peer>, i: nat, n: nat)
    requires i <= |peers| && var done := head + ListedMacs(mode, peers[..i]);
      |done| <= n && (|done| < n ==> i == |peers|)
    ensures head + ListedMacs(mode, peers[..i]) == Took(head + ListedMacs(mode, peers), n)
  {
    ListedConcat(mode, peers[..i], peers[i..]);
    assert peers[..i] + peers[i..] == peers;
    var done, more := head + ListedMacs(mode, peers[..i]), ListedMacs(mode, peers[i..]);
    assert head + (ListedMacs(mode, peers[..i]) + more) == done + more;
    assert i == |peers| ==> peers[i..] == [];
    TookAt(done, more, n);
  }

  lemma TookAt<T>(a: seq<T>, b: seq<T>, n: nat)
    requires |a| <= n && (|a| < n ==> b == [])
    ensures Took(a + b, n) == a
  {
    if |a| == n {
      assert (a + b)[..n] == a;
    } else {
      assert a + b == a;
    }
  }

  lemma ListedNext(mode: Mode, peers: seq<Peer>, i: nat)
    requires i < |peers|
    ensures ListedMacs(mode, peers[..i + 1])
      == ListedMacs(mode, peers[..i]) + if Listed(mode, peers[i]) then [peers[i].mac] else []
  {
    ListedConcat(mode, peers[..i], [peers[i]]);
    assert peers[..i + 1] == peers[..i] + [peers[i]];
  }

  /** The listing of a room, behind the players already in the buffer. */
  method FillRoom(list: PeerList, mode: Mode, buf: array<Mac>, from: nat, requested: nat, now: nat) returns (filled: nat)
    requires list.Valid() && mode != Pair && from < requested <= buf.Length
    modifies buf, list.nodes
    ensures list.Valid() && list.nodes == old(list.nodes) && filled <= requested
    ensures list.Contents() == BumpAll(old(list.Contents()), now)
    ensures buf[..filled] == Took(old(buf[..from]) + StateMac(old(list.Contents()), ParentPeer)
      + ListedMacs(mode, Reverse(old(list.Contents()))), requested)
  {
    ghost var peers := list.Contents();
    filled := FillState(list, ParentPeer, buf, from, now);
    BumpTwice(peers, list.Contents(), now);
    var reversed := ReverseList(list, now);
    ReverseBumped(mode, peers, now);
    ReversedValues(reversed, list);
    filled := FillListed(mode, reversed, Reverse(list.Contents()), buf, filled, requested);
  }

  lemma ReversedValues(reversed: array<PeerNode?>, list: PeerList)
    requires list.Valid() && reversed.Length == |list.nodes|
    requires forall i :: 0 <= i < reversed.Length ==> reversed[i] == list.nodes[|list.nodes| - 1 - i]
    ensures |Reverse(list.Contents())| == reversed.Length
    ensures forall i :: 0 <= i < reversed.Length ==> reversed[i] != null && reversed[i].live && reversed[i].View() == Reverse(list.Contents())[i]
  {
    ReverseLength(list.Contents());
    forall i | 0 <= i < reversed.Length ensures reversed[i].live && reversed[i].View() == Reverse(list.Contents())[i] {
      ReverseAt(list.Contents(), i);
    }
  }

  lemma {:induction false} ReverseLength<T>(s: seq<T>)
    ensures |Reverse(s)| == |s|
  {
    if s != [] { ReverseLength(s[1..]); }
  }

  /** The parent or the partner, if there is one. */
  method FillState(list: PeerList, state: PeerState, buf: array<Mac>, from: nat, now: nat) returns (filled: nat)
    requires list.Valid() && from < buf.Length
    modifies buf, list.nodes
    ensures list.Valid() && list.nodes == old(list.nodes) && filled <= from + 1
    ensures list.Contents() == BumpState(old(list.Contents()), state, now)
    ensures buf[..filled] == old(buf[..from]) + StateMac(old(list.Contents()), state)
  {
    filled := from;
    var peer, k := list.FindIn(state);
    if peer != null {
      buf[filled] := peer.Value().mac;
      filled := filled + 1;
      Bump(list, peer, k, now);
    }
  }

  lemma BumpTwice(peers: seq<Peer>, once: seq<Peer>, now: nat)
    requires once == BumpState(peers, ParentPeer, now)
    ensures BumpAll(once, now) == BumpAll(peers, now)
  {
  }

  lemma {:induction false} ReverseBumped(mode: Mode, peers: seq<Peer>, now: nat)
    ensures ListedMacs(mode, Reverse(BumpAll(peers, now))) == ListedMacs(mode, Reverse(peers))
  {
    if peers != [] {
      var rest := peers[1..];
      assert BumpAll(peers, now)[1..] == BumpAll(rest, now);
      ReverseBumped(mode, rest, now);
      ListedConcat(mode, Reverse(BumpAll(rest, now)), [Bumped(peers[0], now)]);
      ListedConcat(mode, Reverse(rest), [peers[0]]);
    }
  }

  /** `proNetAdhocMatchingGetMembers` of a running context, with a buffer for the members. */
  method GetMembers(c: MatchingContext, buf: array<Mac>, now: nat) returns (filledpeers: nat)
    requires c.Valid()
    modifies buf, c.peers.nodes
    ensures c.Valid() && c.peers.nodes == old(c.peers.nodes) && filledpeers <= buf.Length
    ensures c.View() == AfterListing(old(c.View()), buf.Length, now)
    ensures buf[..filledpeers] == Shown(old(c.View()), buf.Length)
  {
    var peercount := c.CountPeers();
    var requested := if buf.Length < peercount then buf.Length else peercount;
    filledpeers := 0;
    if requested > 0 {
      if peercount == 1 || c.mode != Client {
        buf[filledpeers] := c.mac;
        filledpeers := filledpeers + 1;
      }
      if requested > 1 {
        filledpeers := FillOthers(c, buf, filledpeers, requested, now);
      }
    }
  }

  method FillOthers(c: MatchingContext, buf: array<Mac>, from: nat, requested: nat, now: nat) returns (filled: nat)
    requires c.Valid() && from < requested <= buf.Length && 1 < requested == Requested(c.View(), buf.Length)
    requires buf[..from] == if c.mode == Client then [] else [c.mac]
    modifies buf, c.peers.nodes
    ensures c.Valid() && c.peers.nodes == old(c.peers.nodes) && filled <= requested
    ensures c.View() == AfterListing(old(c.View()), buf.Length, now)
    ensures buf[..filled] == Took(Listing(old(c.View())), requested)
  {
    if c.mode == Pair {
      filled := FillState(c.peers, PairPeer, buf, from, now);
    } else {
      filled := FillRoom(c.peers, c.mode, buf, from, requested, now);
    }
  }
}
