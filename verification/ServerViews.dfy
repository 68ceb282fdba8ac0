/** What a client makes of the packets it gets: replaying them gives the other members of its
    group, whatever the client removes on a disconnect packet. */
module ServerViews {
  import opened ServerSpec
  import opened ServerInvariant

  // ----- a client's list of peers -----

  datatype Entry = Entry(name: Bytes, mac: Bytes, ip: nat)

  /** What a client does to its list for a disconnect packet with this address. */
  type Policy = (seq<Entry>, nat) -> seq<Entry>

  function Keep(l: seq<Entry>, ip: nat): seq<Entry> {
    if l == [] then [] else (if l[0].ip != ip then [l[0]] else []) + Keep(l[1..], ip)
  }

  function Hits(l: seq<Entry>, ip: nat): seq<Entry> {
    if l == [] then [] else (if l[0].ip == ip then [l[0]] else []) + Hits(l[1..], ip)
  }

  /** Any policy that leaves other addresses alone and removes at least one entry of the
      address while there is one. */
  ghost predicate Removes(p: Policy) {
    forall l, ip :: Keep(p(l, ip), ip) == Keep(l, ip)
      && (|Hits(p(l, ip), ip)| < |Hits(l, ip)| || Hits(p(l, ip), ip) == [])
  }

  /** `_deleteFriendByIP` of the client: the first entry of the address goes. */
  function RemoveFirst(l: seq<Entry>, ip: nat): seq<Entry> {
    if l == [] then [] else if l[0].ip == ip then l[1..] else [l[0]] + RemoveFirst(l[1..], ip)
  }

  lemma {:induction false} RemoveFirstRemoves(l: seq<Entry>, ip: nat)
    ensures Keep(RemoveFirst(l, ip), ip) == Keep(l, ip)
    ensures |Hits(RemoveFirst(l, ip), ip)| < |Hits(l, ip)| || Hits(RemoveFirst(l, ip), ip) == []
  {
    if l != [] && l[0].ip != ip {
      RemoveFirstRemoves(l[1..], ip);
      assert RemoveFirst(l, ip)[1..] == RemoveFirst(l[1..], ip);
      assert Hits(l, ip) == Hits(l[1..], ip) && Hits(RemoveFirst(l, ip), ip) == Hits(RemoveFirst(l[1..], ip), ip);
    }
  }

  lemma {:induction false} KeepRemoves(l: seq<Entry>, ip: nat)
    ensures Keep(Keep(l, ip), ip) == Keep(l, ip) && Hits(Keep(l, ip), ip) == []
  {
    if l != [] {
      KeepRemoves(l[1..], ip);
      assert l[0].ip != ip ==> Keep(l, ip)[1..] == Keep(l[1..], ip);
      assert l[0].ip == ip ==> Keep(l, ip) == Keep(l[1..], ip);
    }
  }

  /** Both known clients are covered: the one that drops one entry and one that drops all. */
  lemma KnownPolicies()
    ensures Removes(RemoveFirst) && Removes(Keep)
  {
    forall l, ip
      ensures Keep(RemoveFirst(l, ip), ip) == Keep(l, ip)
        && (|Hits(RemoveFirst(l, ip), ip)| < |Hits(l, ip)| || Hits(RemoveFirst(l, ip), ip) == [])
    {
      RemoveFirstRemoves(l, ip);
    }
    forall l, ip
      ensures Keep(Keep(l, ip), ip) == Keep(l, ip) && Hits(Keep(l, ip), ip) == []
    {
      KeepRemoves(l, ip);
    }
  }

  function Hear(p: Policy, l: seq<Entry>, r: Reply): seq<Entry> {
    match r
    case ConnectReply(name, mac, ip) => [Entry(name, mac, ip)] + l
    case DisconnectReply(ip) => p(l, ip)
    case _ => l
  }

  function Replay(p: Policy, l: seq<Entry>, rs: seq<Reply>): seq<Entry>
    decreases |rs|
  {
    if rs == [] then l else Replay(p, Hear(p, l, rs[0]), rs[1..])
  }

  lemma {:induction false} ReplayConcat(p: Policy, l: seq<Entry>, a: seq<Reply>, b: seq<Reply>)
    ensures Replay(p, l, a + b) == Replay(p, Replay(p, l, a), b)
    decreases |a|
  {
    if a == [] {
      assert a + b == b;
    } else {
      assert (a + b)[1..] == a[1..] + b;
      ReplayConcat(p, Hear(p, l, a[0]), a[1..], b);
    }
  }

  // ----- entries as multisets -----

  lemma {:induction false} PartCounts(l: seq<Entry>, ip: nat, e: Entry)
    ensures multiset(Keep(l, ip))[e] == if e.ip != ip then multiset(l)[e] else 0
    ensures multiset(Hits(l, ip))[e] == if e.ip == ip then multiset(l)[e] else 0
  {
    if l != [] {
      PartCounts(l[1..], ip, e);
      assert l == [l[0]] + l[1..];
    }
  }

  lemma Partition(l: seq<Entry>, ip: nat)
    ensures multiset(l) == multiset(Keep(l, ip)) + multiset(Hits(l, ip))
  {
    forall e: Entry ensures multiset(l)[e] == multiset(Keep(l, ip))[e] + multiset(Hits(l, ip))[e] {
      PartCounts(l, ip, e);
    }
  }

  /** Lists with the same entries keep and hit the same entries. */
  lemma SameParts(l: seq<Entry>, l': seq<Entry>, ip: nat)
    requires multiset(l) == multiset(l')
    ensures multiset(Keep(l, ip)) == multiset(Keep(l', ip))
    ensures |Hits(l, ip)| == |Hits(l', ip)|
  {
    forall e: Entry
      ensures multiset(Keep(l, ip))[e] == multiset(Keep(l', ip))[e]
      ensures multiset(Hits(l, ip))[e] == multiset(Hits(l', ip))[e]
    {
      PartCounts(l, ip, e);
      PartCounts(l', ip, e);
    }
    assert multiset(Hits(l, ip)) == multiset(Hits(l', ip));
    assert |multiset(Hits(l, ip))| == |Hits(l, ip)| && |multiset(Hits(l', ip))| == |Hits(l', ip)|;
  }

  lemma {:induction false} KeepAll(l: seq<Entry>, ip: nat)
    requires Hits(l, ip) == []
    ensures Keep(l, ip) == l
  {
    if l != [] {
      assert l[0].ip != ip;
      KeepAll(l[1..], ip);
    }
  }

  function Times(r: Reply, n: nat): (rs: seq<Reply>)
    ensures |rs| == n
  {
    if n == 0 then [] else [r] + Times(r, n - 1)
  }

  /** Enough disconnect packets remove every entry of the address, and nothing else. */
  lemma {:induction false} Purge(p: Policy, l: seq<Entry>, ip: nat, n: nat)
    requires Removes(p) && |Hits(l, ip)| <= n
    ensures Replay(p, l, Times(DisconnectReply(ip), n)) == Keep(l, ip)
    decreases n
  {
    if n == 0 {
      KeepAll(l, ip);
    } else {
      var l' := p(l, ip);
      assert Keep(l', ip) == Keep(l, ip);
      assert Times(DisconnectReply(ip), n)[1..] == Times(DisconnectReply(ip), n - 1);
      Purge(p, l', ip, n - 1);
    }
  }

  // ----- what each operation sends to whom -----

  function Presentation(users: map<Fd, User>, r: Fd, ip: nat, q: Fd): seq<Reply> {
    if IpOf(users, r) == ip && r != q then [Presents(users, r)] else []
  }

  /** The presentations a player q gets when the players of an address reconnect. */
  function Presentations(users: map<Fd, User>, todo: seq<Fd>, ip: nat, q: Fd): seq<Reply> {
    if todo == [] then [] else Presentation(users, todo[0], ip, q) + Presentations(users, todo[1..], ip, q)
  }

  lemma {:induction false} PostTimesTo(inbox: Inbox, fd: Fd, r: Reply, n: nat, q: Fd)
    requires q in inbox
    ensures q in PostTimes(inbox, fd, r, n)
    ensures PostTimes(inbox, fd, r, n)[q] == inbox[q] + (if q == fd then Times(r, n) else [])
  {
    if n > 0 {
      PostTimesTo(Post(inbox, fd, r), fd, r, n - 1, q);
      assert inbox[q] + [r] + Times(r, n - 1) == inbox[q] + ([r] + Times(r, n - 1));
    }
  }

  lemma {:induction false} LeaveNoticesTo(inbox: Inbox, players: seq<Fd>, ip: nat, n: nat, q: Fd)
    requires q in inbox && Distinct(players)
    ensures q in LeaveNotices(inbox, players, ip, n)
    ensures LeaveNotices(inbox, players, ip, n)[q]
      == inbox[q] + (if q in players then Times(DisconnectReply(ip), n) else [])
    decreases |players|
  {
    if players != [] {
      PostTimesTo(inbox, players[0], DisconnectReply(ip), n, q);
      LeaveNoticesTo(PostTimes(inbox, players[0], DisconnectReply(ip), n), players[1..], ip, n, q);
      assert players == [players[0]] + players[1..];
      assert players[0] !in players[1..];
    }
  }

  lemma {:induction false} PresentToOne(inbox: Inbox, users: map<Fd, User>, fd: Fd, players: seq<Fd>, q: Fd)
    requires q in inbox && Distinct(players)
    ensures q in PresentTo(inbox, users, fd, players)
    ensures PresentTo(inbox, users, fd, players)[q]
      == inbox[q] + (if q in players && q != fd then [Presents(users, fd)] else [])
    decreases |players|
  {
    if players != [] {
      PresentToOne(if players[0] != fd then Post(inbox, players[0], Presents(users, fd)) else inbox, users, fd, players[1..], q);
      assert players == [players[0]] + players[1..];
      assert players[0] !in players[1..];
    }
  }

  lemma OneReconnect(inbox: Inbox, users: map<Fd, User>, players: seq<Fd>, r: Fd, ip: nat, q: Fd)
    requires q in inbox && Distinct(players)
    ensures var inbox' := if IpOf(users, r) == ip then PresentTo(inbox, users, r, players) else inbox;
      && q in inbox'
      && inbox'[q] == inbox[q] + (if q in players then Presentation(users, r, ip, q) else [])
  {
    PresentToOne(inbox, users, r, players, q);
  }

  lemma {:induction false} ReconnectsTo(inbox: Inbox, users: map<Fd, User>, players: seq<Fd>, todo: seq<Fd>, ip: nat, q: Fd)
    requires q in inbox && Distinct(players)
    ensures q in Reconnects(inbox, users, players, todo, ip)
    ensures Reconnects(inbox, users, players, todo, ip)[q]
      == inbox[q] + (if q in players then Presentations(users, todo, ip, q) else [])
    decreases |todo|
  {
    if todo == [] {
      assert inbox[q] + [] == inbox[q];
    } else {
      OneReconnect(inbox, users, players, todo[0], ip, q);
      var inbox' := if IpOf(users, todo[0]) == ip then PresentTo(inbox, users, todo[0], players) else inbox;
      ReconnectsTo(inbox', users, players, todo[1..], ip, q);
      var first, rest := Presentation(users, todo[0], ip, q), Presentations(users, todo[1..], ip, q);
      assert inbox[q] + first + rest == inbox[q] + (first + rest);
    }
  }

  function PresentAll(users: map<Fd, User>, players: seq<Fd>): seq<Reply> {
    if players == [] then [] else [Presents(users, players[0])] + PresentAll(users, players[1..])
  }

  lemma {:induction false} JoinNoticesTo(inbox: Inbox, users: map<Fd, User>, fd: Fd, players: seq<Fd>, q: Fd)
    requires q in inbox && Distinct(players) && fd !in players
    ensures q in JoinNotices(inbox, users, fd, players)
    ensures JoinNotices(inbox, users, fd, players)[q]
      == inbox[q] + (if q == fd then PresentAll(users, players) else if q in players then [Presents(users, fd)] else [])
    decreases |players|
  {
    if players != [] {
      var inbox' := Post(Post(inbox, players[0], Presents(users, fd)), fd, Presents(users, players[0]));
      assert players == [players[0]] + players[1..];
      assert players[0] !in players[1..] && players[0] != fd;
      JoinNoticesTo(inbox', users, fd, players[1..], q);
      if q == fd {
        assert inbox'[q] + PresentAll(users, players[1..]) == inbox[q] + PresentAll(users, players);
      }
    }
  }
}
