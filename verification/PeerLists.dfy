/** The linked peer list of functions.c. A node that was freed is no longer live; a node can only
    be read, assigned or followed while it is. */
module PeerLists {
  import opened MatchingSpec

  class PeerNode {
    var mac: Mac
    var state: PeerState
    var lastping: nat
    var lastSeen: nat
    var joining: bool
    var next: PeerNode?
    ghost var live: bool

    constructor (p: Peer, next: PeerNode?)
      ensures View() == p && this.next == next && live
    {
      mac, state, lastping, lastSeen, joining := p.mac, p.state, p.lastping, p.lastSeen, p.joining;
      this.next, live := next, true;
    }

    ghost function View(): Peer
      reads this
    {
      Peer(mac, state, lastping, lastSeen, joining)
    }

    function Value(): (p: Peer)
      requires live
      reads this
      ensures p == View()
    {
      Peer(mac, state, lastping, lastSeen, joining)
    }

    method Set(p: Peer)
      requires live
      modifies this
      ensures View() == p && next == old(next) && live
    {
      mac, state, lastping, lastSeen, joining := p.mac, p.state, p.lastping, p.lastSeen, p.joining;
    }

    method SetNext(next: PeerNode?)
      requires live
      modifies this`next
      ensures this.next == next
    {
      this.next := next;
    }

    method Free()
      requires live
      modifies this`live
      ensures !live
    {
      live := false;
    }

    function Next(): PeerNode?
      requires live
      reads this
    {
      next
    }
  }

  ghost predicate Distinct<T>(s: seq<T>) {
    forall i, j :: 0 <= i < j < |s| ==> s[i] != s[j]
  }

  /** A sequence without its element k. */
  ghost function Except<T>(s: seq<T>, k: nat): (r: seq<T>)
    requires k < |s|
    ensures |r| == |s| - 1
    ensures forall i :: 0 <= i < |r| ==> r[i] == s[if i < k then i else i + 1]
  {
    s[..k] + s[k + 1..]
  }

  lemma ExceptDistinct<T>(s: seq<T>, k: nat)
    requires k < |s| && Distinct(s)
    ensures Distinct(Except(s, k)) && s[k] !in Except(s, k)
    ensures forall x :: x in s && x != s[k] ==> x in Except(s, k)
    ensures forall x :: x in Except(s, k) ==> x in s
  {
    var r := Except(s, k);
    assert forall i :: 0 <= i < |r| ==> r[i] != s[k];
    forall x | x in s && x != s[k] ensures x in r {
      var i :| 0 <= i < |s| && s[i] == x;
      assert x == r[if i < k then i else i - 1];
    }
  }

  class PeerList {
    var first: PeerNode?
    /** The nodes in the order of their links. */
    ghost var nodes: seq<PeerNode>

    constructor ()
      ensures Valid() && nodes == []
    {
      first, nodes := null, [];
    }

    /** The node at a place in the list; behind the last one there is none. */
    ghost function At(k: nat): PeerNode?
      reads this
    {
      if k < |nodes| then nodes[k] else null
    }

    ghost predicate Valid()
      reads this, nodes
    {
      && first == At(0)
      && (forall i :: 0 <= i < |nodes| ==> nodes[i].live && nodes[i].next == At(i + 1))
      && Distinct(nodes)
    }

    ghost function Contents(): (s: seq<Peer>)
      reads this, nodes
      ensures |s| == |nodes|
    {
      seq(|nodes|, i requires 0 <= i < |nodes| reads this, nodes => nodes[i].View())
    }

    /** A node stands at one place only. */
    lemma Place(i: nat, k: nat)
      requires Valid() && i < |nodes| && k < |nodes|
      ensures Contents()[i] == nodes[i].View() && (nodes[i] == nodes[k] <==> i == k)
    {
    }

    /** `_findPeer` */
    method Find(mac: Mac) returns (peer: PeerNode?, ghost k: nat)
      requires Valid()
      ensures k == FindPeer(Contents(), mac) && peer == At(k)
    {
      peer, k := first, 0;
      while peer != null
        invariant k <= |nodes| && peer == At(k)
        invariant forall i :: 0 <= i < k ==> nodes[i].View().mac != mac
        decreases |nodes| - k
      {
        if peer.Value().mac == mac {
          break;
        }
        peer := peer.Next();
        k := k + 1;
      }
      FirstIs(Contents(), mac, k);
    }

    /** `_findParent`, `_findP2P` and `_findOutgoingRequest` */
    method FindIn(state: PeerState) returns (peer: PeerNode?, ghost k: nat)
      requires Valid()
      ensures k == FindState(Contents(), state) && peer == At(k)
    {
      peer, k := first, 0;
      while peer != null
        invariant k <= |nodes| && peer == At(k)
        invariant forall i :: 0 <= i < k ==> nodes[i].View().state != state
        decreases |nodes| - k
      {
        if peer.Value().state == state {
          break;
        }
        peer := peer.Next();
        k := k + 1;
      }
      FirstInIs(Contents(), state, k);
    }

    /** `_countChildren` */
    method Children() returns (count: nat)
      requires Valid()
      ensures count == CountChildren(Contents())
    {
      count := 0;
      var peer := first;
      ghost var k := 0;
      assert Contents()[..0] == [];
      while peer != null
        invariant k <= |nodes| && peer == At(k) && count == CountChildren(Contents()[..k])
        decreases |nodes| - k
      {
        CountNext(Contents(), k);
        if peer.Value().state == ChildPeer {
          count := count + 1;
        }
        peer := peer.Next();
        k := k + 1;
      }
      assert Contents()[..k] == Contents();
    }

    /** A new node in front of the list. */
    method PushFront(p: Peer)
      requires Valid()
      modifies this
      ensures Valid() && Contents() == [p] + old(Contents())
      ensures |nodes| == |old(nodes)| + 1 && nodes[1..] == old(nodes) && fresh(nodes[0])
    {
      var peer := new PeerNode(p, first);
      first := peer;
      nodes := [peer] + nodes;
    }

    /** Assigning fields of a node. */
    method Store(peer: PeerNode, ghost k: nat, p: Peer)
      requires Valid() && k < |nodes| && peer == nodes[k]
      modifies peer
      ensures Valid() && Contents() == old(Contents())[k := p]
    {
      peer.Set(p);
    }

    /** The node in front of another one. */
    method Previous(peer: PeerNode, ghost k: nat) returns (previous: PeerNode?)
      requires Valid() && k < |nodes| && peer == nodes[k]
      ensures previous == if k == 0 then null else nodes[k - 1]
    {
      previous := null;
      var item := first;
      ghost var i := 0;
      while item != null
        invariant i <= k && item == At(i)
        invariant previous == if i == 0 then null else nodes[i - 1]
        decreases |nodes| - i
      {
        if item == peer {
          break;
        }
        previous := item;
        item := item.Next();
        i := i + 1;
      }
    }

    /** Taking a node out behind its predecessor, and freeing it. */
    method Unlink(peer: PeerNode, previous: PeerNode?, ghost k: nat)
      requires Valid() && k < |nodes| && peer == nodes[k]
      requires previous == if k == 0 then null else nodes[k - 1]
      modifies this, nodes
      ensures Valid() && Contents() == Delete(old(Contents()), k)
      ensures nodes == Except(old(nodes), k) && peer !in nodes && !peer.live
      ensures forall n :: n in old(nodes) && n != peer ==> n in nodes
      ensures forall n :: n in nodes ==> n in old(nodes)
    {
      ghost var peers := Contents();
      ExceptDistinct(nodes, k);
      Bypass(peer, previous, k);
      peer.Free();
      assert Contents() == Except(peers, k);
    }

    method Bypass(peer: PeerNode, previous: PeerNode?, ghost k: nat)
      requires Valid() && k < |nodes| && peer == nodes[k]
      requires previous == if k == 0 then null else nodes[k - 1]
      requires Distinct(Except(nodes, k))
      modifies this, previous
      ensures Valid() && nodes == Except(old(nodes), k)
      ensures previous != null ==> previous.View() == old(previous.View())
    {
      if previous != null {
        previous.SetNext(peer.Next());
      } else {
        first := peer.Next();
      }
      nodes := Except(nodes, k);
    }

    /** `_deletePeer` */
    method DeletePeer(peer: PeerNode, ghost k: nat)
      requires Valid() && k < |nodes| && peer == nodes[k]
      modifies this, nodes
      ensures Valid() && Contents() == Delete(old(Contents()), k)
      ensures nodes == Except(old(nodes), k) && peer !in nodes && !peer.live
      ensures forall n :: n in old(nodes) && n != peer ==> n in nodes
      ensures forall n :: n in nodes ==> n in old(nodes)
    {
      var previous := Previous(peer, k);
      Unlink(peer, previous, k);
    }

    /** `_clearPeerList` */
    method Clear()
      requires Valid()
      modifies this, nodes
      ensures Valid() && Contents() == [] && nodes == [] && first == null
      ensures forall n :: n in old(nodes) ==> !n.live
    {
      var peer := first;
      ghost var all := nodes;
      while peer != null
        invariant Valid() && peer == first
        invariant forall n :: n in nodes ==> n in all
        invariant forall n :: n in all ==> n in nodes || !n.live
        decreases |nodes|
      {
        var next := peer.Next();
        DeletePeer(peer, 0);
        peer := next;
      }
      assert Contents() == [];
    }

    /** `_postAcceptCleanPeerList` */
    method Clean()
      requires Valid()
      modifies this, nodes
      ensures Valid() && Contents() == MatchingSpec.Clean(old(Contents()))
      ensures forall n :: n in nodes ==> n in old(nodes)
    {
      var peer := first;
      ghost var all, k := Contents(), 0;
      CleaningStart(all);
      while peer != null
        invariant Valid() && k <= |nodes| && peer == At(k)
        invariant Cleaning(all, Contents(), k)
        invariant forall n :: n in nodes ==> n in old(nodes)
        decreases |nodes| - k
      {
        var next := peer.Next();
        CleaningNext(all, Contents(), k);
        assert forall i :: 0 <= i < |nodes| ==> nodes[i] in old(nodes);
        var needed := DropUnneeded(peer, k);
        if needed {
          k := k + 1;
        }
        peer := next;
      }
      CleaningDone(all, Contents());
    }

    method DropUnneeded(peer: PeerNode, ghost k: nat) returns (ghost needed: bool)
      requires Valid() && k < |nodes| && peer == nodes[k]
      modifies this, nodes
      ensures Valid() && needed == Needed(old(Contents())[k])
      ensures Contents() == if needed then old(Contents()) else Delete(old(Contents()), k)
      ensures nodes == if needed then old(nodes) else Except(old(nodes), k)
      ensures forall n :: n in nodes ==> n in old(nodes)
    {
      needed := Needed(peer.Value());
      if !Needed(peer.Value()) {
        DeletePeer(peer, k);
      }
    }

    /** The walk after a kick or a bye of the parent: the self entry goes, the others are stamped. */
    method DropSelf(self: Mac, stamp: nat)
      requires Valid()
      modifies this, nodes
      ensures Valid() && Contents() == MatchingSpec.DropSelf(old(Contents()), self, stamp)
      ensures nodes == Others(old(nodes), old(Contents()), self)
      ensures forall i :: 0 <= i < |nodes| ==> nodes[i] in old(nodes)
    {
      var peer, last := first, null;
      ghost var all, ps := nodes, Contents();
      ghost var k: nat := 0;
      SelflessStart(all, ps, self, stamp);
      while peer != null
        invariant Valid() && k <= |nodes| && peer == At(k) && last == Before(k)
        invariant Selfless(all, ps, self, stamp, nodes, Contents(), k)
        invariant forall i :: 0 <= i < |nodes| ==> nodes[i] in all
        decreases |nodes| - k
      {
        peer, last, k := DropStep(peer, last, k, self, stamp, all, ps);
      }
      SelflessDone(all, ps, self, stamp, nodes, Contents(), k);
    }

    ghost function Before(k: nat): PeerNode?
      reads this
    {
      if 0 < k <= |nodes| then nodes[k - 1] else null
    }

    method DropStep(peer: PeerNode, last: PeerNode?, ghost k: nat, self: Mac, stamp: nat, ghost all: seq<PeerNode>, ghost ps: seq<Peer>)
      returns (next: PeerNode?, last': PeerNode?, ghost k': nat)
      requires Valid() && k < |nodes| && peer == nodes[k] && last == Before(k)
      requires Selfless(all, ps, self, stamp, nodes, Contents(), k)
      modifies this, nodes
      ensures Valid() && k' <= |nodes| && next == At(k') && last' == Before(k')
      ensures Selfless(all, ps, self, stamp, nodes, Contents(), k')
      ensures |nodes| - k' == |old(nodes)| - k - 1
      ensures forall i :: 0 <= i < |nodes| ==> nodes[i] in old(nodes)
    {
      DroppingNext(ps, self, stamp, Contents(), k);
      KeepingNext(all, ps, self, nodes, Contents(), k, stamp);
      next := peer.Next();
      var dropped := DropOrStamp(peer, last, k, self, stamp);
      last', k' := last, k;
      if !dropped {
        last', k' := peer, k + 1;
      }
    }

    method DropOrStamp(peer: PeerNode, last: PeerNode?, ghost k: nat, self: Mac, stamp: nat) returns (dropped: bool)
      requires Valid() && k < |nodes| && peer == nodes[k]
      requires last == Before(k)
      modifies this, nodes
      ensures Valid() && dropped == (old(Contents())[k].mac == self)
      ensures dropped ==> Contents() == Delete(old(Contents()), k) && nodes == Except(old(nodes), k)
      ensures var p := old(Contents())[k].(lastping := stamp);
        !dropped ==> Contents() == old(Contents())[k := p] && nodes == old(nodes)
      ensures forall n :: n in nodes ==> n in old(nodes)
    {
      dropped := peer.Value().mac == self;
      if dropped {
        Unlink(peer, last, k);
      } else {
        Store(peer, k, peer.Value().(lastping := stamp));
      }
    }

    /** `_postAcceptAddSiblings`, one sibling */
    method AddSibling(sibling: Mac, now: nat)
      requires Valid()
      modifies this, nodes
      ensures Valid() && Contents() == MatchingSpec.AddSibling(old(Contents()), sibling, now)
      ensures forall i :: 0 <= i < |nodes| ==> nodes[i] in old(nodes) || fresh(nodes[i])
    {
      var peer, k := Find(sibling);
      if peer != null {
        Store(peer, k, peer.Value().(state := ChildPeer, lastping := now, lastSeen := now));
      } else {
        PushFront(NewPeer(sibling, ChildPeer, now));
        assert forall i :: 0 < i < |nodes| ==> nodes[i] == nodes[1..][i - 1];
      }
    }

    /** `_postAcceptAddSiblings`: the last one first */
    method AddSiblings(siblings: seq<Mac>, now: nat)
      requires Valid()
      modifies this, nodes
      ensures Valid() && Contents() == MatchingSpec.AddSiblings(old(Contents()), siblings, now)
      ensures forall i :: 0 <= i < |nodes| ==> nodes[i] in old(nodes) || fresh(nodes[i])
    {
      var i := |siblings|;
      ghost var all := Contents();
      assert siblings[..i] == siblings;
      while i > 0
        invariant i <= |siblings| && Valid() && Adding(all, siblings, Contents(), i, now)
        invariant forall j :: 0 <= j < |nodes| ==> nodes[j] in old(nodes) || fresh(nodes[j])
      {
        AddingNext(all, siblings, Contents(), i, now);
        AddSibling(siblings[i - 1], now);
        i := i - 1;
      }
    }

    /** The local player's own entry */
    method AddSelf(self: Mac, now: nat)
      requires Valid()
      modifies this
      ensures Valid() && Contents() == MatchingSpec.AddSelf(old(Contents()), self, now)
      ensures forall i :: 0 <= i < |nodes| ==> nodes[i] in old(nodes) || fresh(nodes[i])
    {
      var peer, k := Find(self);
      if peer == null {
        PushFront(NewPeer(self, Self, now));
        assert forall i :: 0 < i < |nodes| ==> nodes[i] == nodes[1..][i - 1];
      }
    }
  }

  // --- Walks over the list: what is done and what lies ahead ---

  ghost predicate Adding(all: seq<Peer>, siblings: seq<Mac>, ps: seq<Peer>, i: nat, now: nat)
    requires i <= |siblings|
  {
    AddSiblings(ps, siblings[..i], now) == AddSiblings(all, siblings, now)
  }

  lemma AddingNext(all: seq<Peer>, siblings: seq<Mac>, ps: seq<Peer>, i: nat, now: nat)
    requires 0 < i <= |siblings| && Adding(all, siblings, ps, i, now)
    ensures Adding(all, siblings, AddSibling(ps, siblings[i - 1], now), i - 1, now)
  {
    assert siblings[..i][..i - 1] == siblings[..i - 1];
  }

  ghost predicate Cleaning(all: seq<Peer>, ps: seq<Peer>, k: nat)
    requires k <= |ps|
  {
    ps[..k] + Clean(ps[k..]) == Clean(all)
  }

  lemma CleaningStart(all: seq<Peer>)
    ensures Cleaning(all, all, 0)
  {
    assert all[0..] == all && [] + Clean(all) == Clean(all);
  }

  lemma CleaningNext(all: seq<Peer>, ps: seq<Peer>, k: nat)
    requires k < |ps| && Cleaning(all, ps, k)
    ensures Needed(ps[k]) ==> Cleaning(all, ps, k + 1)
    ensures !Needed(ps[k]) ==> Cleaning(all, Delete(ps, k), k)
  {
    assert ps[k..][1..] == ps[k + 1..];
    assert ps[..k + 1] == ps[..k] + [ps[k]];
    assert ps[..k] + ([ps[k]] + Clean(ps[k + 1..])) == ps[..k + 1] + Clean(ps[k + 1..]);
    assert Delete(ps, k)[..k] == ps[..k] && Delete(ps, k)[k..] == ps[k + 1..];
    assert [] + Clean(ps[k + 1..]) == Clean(ps[k + 1..]);
  }

  lemma CleaningDone(all: seq<Peer>, ps: seq<Peer>)
    requires Cleaning(all, ps, |ps|)
    ensures ps == Clean(all)
  {
    assert ps[..|ps|] + [] == ps;
  }

  ghost predicate Dropping(all: seq<Peer>, self: Mac, stamp: nat, ps: seq<Peer>, k: nat)
    requires k <= |ps|
  {
    ps[..k] + DropSelf(ps[k..], self, stamp) == DropSelf(all, self, stamp)
  }

  lemma DroppingStart(all: seq<Peer>, self: Mac, stamp: nat)
    ensures Dropping(all, self, stamp, all, 0)
  {
    assert all[0..] == all && [] + DropSelf(all, self, stamp) == DropSelf(all, self, stamp);
  }

  lemma DroppingNext(all: seq<Peer>, self: Mac, stamp: nat, ps: seq<Peer>, k: nat)
    requires k < |ps| && Dropping(all, self, stamp, ps, k)
    ensures ps[k].mac == self ==> Dropping(all, self, stamp, Delete(ps, k), k)
    ensures ps[k].mac != self ==> Dropping(all, self, stamp, ps[k := ps[k].(lastping := stamp)], k + 1)
  {
    var p := ps[k].(lastping := stamp);
    var more := DropSelf(ps[k + 1..], self, stamp);
    assert ps[k..][1..] == ps[k + 1..];
    assert Delete(ps, k)[..k] == ps[..k] && Delete(ps, k)[k..] == ps[k + 1..];
    assert ps[k := p][..k + 1] == ps[..k] + [p] && ps[k := p][k + 1..] == ps[k + 1..];
    assert ps[..k] + ([p] + more) == ps[..k] + [p] + more;
    assert [] + more == more;
  }

  lemma DroppingDone(all: seq<Peer>, self: Mac, stamp: nat, ps: seq<Peer>)
    requires Dropping(all, self, stamp, ps, |ps|)
    ensures ps == DropSelf(all, self, stamp)
  {
    assert ps[..|ps|] + [] == ps;
  }

  /** Of a sequence that runs beside the peers, what stands beside the others. */
  ghost function Others<T>(s: seq<T>, ps: seq<Peer>, self: Mac): seq<T>
    requires |s| == |ps|
    decreases |s|
  {
    if s == [] then [] else (if ps[0].mac == self then [] else [s[0]]) + Others(s[1..], ps[1..], self)
  }

  /** One of the others moves up by the self entries in front of it. */
  lemma {:induction false} OthersAt<T>(s: seq<T>, ps: seq<Peer>, self: Mac, i: nat)
    requires |s| == |ps| && i < |s| && ps[i].mac != self
    ensures var q := i - SelfEntries(ps[..i], self); 0 <= q < |Others(s, ps, self)| && Others(s, ps, self)[q] == s[i]
    decreases i
  {
    if i > 0 {
      OthersAt(s[1..], ps[1..], self, i - 1);
      assert ps[..i][1..] == ps[1..][..i - 1];
    } else {
      assert ps[..0] == [];
    }
  }

  ghost predicate Keeping<T>(all: seq<T>, ps0: seq<Peer>, self: Mac, s: seq<T>, ps: seq<Peer>, k: nat)
    requires |all| == |ps0| && |s| == |ps| && k <= |s|
  {
    s[..k] + Others(s[k..], ps[k..], self) == Others(all, ps0, self)
  }

  lemma KeepingStart<T>(all: seq<T>, ps: seq<Peer>, self: Mac)
    requires |all| == |ps|
    ensures Keeping(all, ps, self, all, ps, 0)
  {
    assert all[0..] == all && ps[0..] == ps && [] + Others(all, ps, self) == Others(all, ps, self);
  }

  lemma KeepingNext<T>(all: seq<T>, ps0: seq<Peer>, self: Mac, s: seq<T>, ps: seq<Peer>, k: nat, stamp: nat)
    requires |all| == |ps0| && |s| == |ps| && k < |s| && Keeping(all, ps0, self, s, ps, k)
    ensures ps[k].mac == self ==> Keeping(all, ps0, self, Except(s, k), Delete(ps, k), k)
    ensures ps[k].mac != self ==> Keeping(all, ps0, self, s, ps[k := ps[k].(lastping := stamp)], k + 1)
  {
    var p := ps[k].(lastping := stamp);
    var more := Others(s[k + 1..], ps[k + 1..], self);
    assert s[k..][1..] == s[k + 1..] && ps[k..][1..] == ps[k + 1..];
    assert Except(s, k)[..k] == s[..k] && Except(s, k)[k..] == s[k + 1..];
    assert Delete(ps, k)[k..] == ps[k + 1..] && ps[k := p][k + 1..] == ps[k + 1..];
    assert s[..k + 1] == s[..k] + [s[k]];
    assert s[..k] + ([s[k]] + more) == s[..k + 1] + more;
    assert [] + more == more;
  }

  /** Both at once, for the nodes and their values. */
  ghost predicate Selfless<T>(all: seq<T>, ps0: seq<Peer>, self: Mac, stamp: nat, s: seq<T>, ps: seq<Peer>, k: nat) {
    && |all| == |ps0| && |s| == |ps| && k <= |s|
    && Dropping(ps0, self, stamp, ps, k) && Keeping(all, ps0, self, s, ps, k)
  }

  lemma SelflessStart<T>(all: seq<T>, ps: seq<Peer>, self: Mac, stamp: nat)
    requires |all| == |ps|
    ensures Selfless(all, ps, self, stamp, all, ps, 0)
  {
    DroppingStart(ps, self, stamp);
    KeepingStart(all, ps, self);
  }

  lemma SelflessDone<T>(all: seq<T>, ps0: seq<Peer>, self: Mac, stamp: nat, s: seq<T>, ps: seq<Peer>, k: nat)
    requires Selfless(all, ps0, self, stamp, s, ps, k) && k == |s|
    ensures ps == DropSelf(ps0, self, stamp) && |all| == |ps0| && s == Others(all, ps0, self)
  {
    DroppingDone(ps0, self, stamp, ps);
    KeepingDone(all, ps0, self, s, ps);
  }

  lemma KeepingDone<T>(all: seq<T>, ps0: seq<Peer>, self: Mac, s: seq<T>, ps: seq<Peer>)
    requires |all| == |ps0| && |s| == |ps| && Keeping(all, ps0, self, s, ps, |s|)
    ensures s == Others(all, ps0, self)
  {
    assert s[..|s|] + [] == s;
  }

  lemma {:induction false} FirstIs(peers: seq<Peer>, mac: Mac, k: nat)
    requires k <= |peers| && (forall i :: 0 <= i < k ==> peers[i].mac != mac)
    requires k < |peers| ==> peers[k].mac == mac
    ensures FindPeer(peers, mac) == k
  {
    var n := FindPeer(peers, mac);
    assert n < |peers| ==> peers[n].mac == mac;
  }

  lemma {:induction false} FirstInIs(peers: seq<Peer>, state: PeerState, k: nat)
    requires k <= |peers| && (forall i :: 0 <= i < k ==> peers[i].state != state)
    requires k < |peers| ==> peers[k].state == state
    ensures FindState(peers, state) == k
  {
    var n := FindState(peers, state);
    assert n < |peers| ==> peers[n].state == state;
  }

  lemma {:induction false} CountNext(peers: seq<Peer>, k: nat)
    requires k < |peers|
    ensures CountChildren(peers[..k + 1])
      == CountChildren(peers[..k]) + if peers[k].state == ChildPeer then 1 else 0
  {
    if k == 0 {
      assert peers[..1][1..] == [] && peers[..0] == [];
    } else {
      CountNext(peers[1..], k - 1);
      assert peers[..k + 1][1..] == peers[1..][..k] && peers[..k][1..] == peers[1..][..k - 1];
    }
  }
}
