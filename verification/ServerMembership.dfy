/** View agreement and founder agreement over every run of the server. */
module ServerMembership {
  import opened Sequences
  import opened ServerSpec
  import opened ServerInvariant
  import opened ServerViews

  // ----- the entries of a group -----

  ghost predicate AllNamed(users: map<Fd, User>, players: seq<Fd>) {
    forall u :: u in players ==> u in users && users[u].id.Some?
  }

  function EntryOf(users: map<Fd, User>, u: Fd): Entry {
    if u in users && users[u].id.Some? then Entry(users[u].id.value.name, users[u].id.value.mac, users[u].ip)
    else Entry([], [], 0)
  }

  /** The entries of the players other than q. */
  function Others(users: map<Fd, User>, players: seq<Fd>, q: Fd): seq<Entry> {
    if players == [] then []
    else (if players[0] != q then [EntryOf(users, players[0])] else []) + Others(users, players[1..], q)
  }

  /** The entry a reconnecting player r stands for, seen by q. */
  function Reconnected(users: map<Fd, User>, r: Fd, ip: nat, q: Fd): seq<Entry> {
    if IpOf(users, r) == ip && r != q then [EntryOf(users, r)] else []
  }

  lemma HitsStep(users: map<Fd, User>, todo: seq<Fd>, ip: nat, q: Fd)
    requires todo != [] && todo[0] in users && users[todo[0]].id.Some?
    ensures Hits(Others(users, todo, q), ip)
      == Reconnected(users, todo[0], ip, q) + Hits(Others(users, todo[1..], q), ip)
  {
    var e, others := EntryOf(users, todo[0]), Others(users, todo[1..], q);
    assert ([e] + others)[1..] == others && [] + others == others;
  }

  lemma PresentationHeard(p: Policy, l: seq<Entry>, users: map<Fd, User>, r: Fd, ip: nat, q: Fd)
    requires r in users && users[r].id.Some?
    ensures Replay(p, l, Presentation(users, r, ip, q)) == Reconnected(users, r, ip, q) + l
  {
    var first := Presentation(users, r, ip, q);
    if first != [] {
      assert first[1..] == [];
    } else {
      assert [] + l == l;
    }
  }

  lemma {:induction false} ReplayPresentations(p: Policy, l: seq<Entry>, users: map<Fd, User>, todo: seq<Fd>, ip: nat, q: Fd)
    requires AllNamed(users, todo)
    ensures multiset(Replay(p, l, Presentations(users, todo, ip, q)))
      == multiset(l) + multiset(Hits(Others(users, todo, q), ip))
    decreases |todo|
  {
    if todo != [] {
      assert todo[0] in todo && AllNamed(users, todo[1..]);
      var back := Reconnected(users, todo[0], ip, q);
      ReplayConcat(p, l, Presentation(users, todo[0], ip, q), Presentations(users, todo[1..], ip, q));
      PresentationHeard(p, l, users, todo[0], ip, q);
      ReplayPresentations(p, back + l, users, todo[1..], ip, q);
      HitsStep(users, todo, ip, q);
      var hits := Hits(Others(users, todo[1..], q), ip);
      assert multiset(back + l) + multiset(hits) == multiset(l) + multiset(back + hits);
    }
  }

  lemma {:induction false} ReplayPresentAll(p: Policy, l: seq<Entry>, users: map<Fd, User>, players: seq<Fd>, x: Fd)
    requires AllNamed(users, players) && x !in players
    ensures multiset(Replay(p, l, PresentAll(users, players))) == multiset(l) + multiset(Others(users, players, x))
    decreases |players|
  {
    if players != [] {
      var e := EntryOf(users, players[0]);
      assert players[0] in players && AllNamed(users, players[1..]) && x !in players[1..];
      assert PresentAll(users, players)[1..] == PresentAll(users, players[1..]);
      ReplayPresentAll(p, [e] + l, users, players[1..], x);
    }
  }

  lemma {:induction false} HitsBound(users: map<Fd, User>, players: seq<Fd>, q: Fd, ip: nat)
    requires AllNamed(users, players)
    ensures |Hits(Others(users, players, q), ip)| <= CountIp(users, players, ip)
  {
    if players != [] {
      assert players[0] in players && AllNamed(users, players[1..]);
      HitsBound(users, players[1..], q, ip);
      var others := Others(users, players[1..], q);
      assert ([EntryOf(users, players[0])] + others)[1..] == others;
      assert [] + others == others;
    }
  }

  lemma {:induction false} KeepWithout(users: map<Fd, User>, players: seq<Fd>, x: Fd, q: Fd)
    requires AllNamed(users, players) && x in users && users[x].id.Some?
    ensures Keep(Others(users, Remove(players, x), q), users[x].ip) == Keep(Others(users, players, q), users[x].ip)
  {
    if players != [] {
      var rest := players[1..];
      assert players[0] in players && AllNamed(users, rest);
      var others := Others(users, rest, q);
      assert ([EntryOf(users, players[0])] + others)[1..] == others && [] + others == others;
      if players[0] != x {
        KeepWithout(users, rest, x, q);
        var r := Remove(rest, x);
        assert ([players[0]] + r)[1..] == r;
        var others' := Others(users, r, q);
        assert ([EntryOf(users, players[0])] + others')[1..] == others' && [] + others' == others';
      }
    }
  }

  /** A member that hears of a leave: its list becomes the other remaining players. */
  lemma LeaveHeard(p: Policy, l: seq<Entry>, users: map<Fd, User>, players: seq<Fd>, x: Fd, q: Fd)
    requires Removes(p) && AllNamed(users, players) && x in players && Distinct(players)
    requires multiset(l) == multiset(Others(users, players, q))
    ensures var ip, rest := users[x].ip, Remove(players, x);
      multiset(Replay(p, l, Times(DisconnectReply(ip), CountIp(users, players, ip)) + Presentations(users, rest, ip, q)))
        == multiset(Others(users, rest, q))
  {
    var ip, rest, n := users[x].ip, Remove(players, x), CountIp(users, players, users[x].ip);
    var others := Others(users, rest, q);
    RemoveDistinct(players, x);
    SameParts(l, Others(users, players, q), ip);
    HitsBound(users, players, q, ip);
    ReplayConcat(p, l, Times(DisconnectReply(ip), n), Presentations(users, rest, ip, q));
    Purge(p, l, ip, n);
    ReplayPresentations(p, Keep(l, ip), users, rest, ip, q);
    KeepWithout(users, players, x, q);
    Partition(others, ip);
  }

  // ----- the view of a member -----

  function View(db: Db, p: Policy, q: Fd): seq<Entry>
    requires q in db.users && q in db.inbox
  {
    var mark := db.users[q].mark;
    Replay(p, [], if mark <= |db.inbox[q]| then db.inbox[q][mark..] else [])
  }

  /** The members of q's group other than q. */
  function FellowMembers(db: Db, q: Fd): seq<Entry>
    requires q in db.users && db.users[q].group.Some? && db.users[q].id.Some?
    requires (db.users[q].id.value.game, db.users[q].group.value) in db.groups
  {
    Others(db.users, db.groups[(db.users[q].id.value.game, db.users[q].group.value)].players, q)
  }

  /** Replaying what was sent to q since it joined gives its fellow members. */
  ghost predicate ViewOk(db: Db, p: Policy, q: Fd)
    requires Linked(db, q) && q in db.inbox
  {
    db.users[q].group.Some? ==>
      && db.users[q].mark <= |db.inbox[q]|
      && multiset(View(db, p, q)) == multiset(FellowMembers(db, q))
  }

  // ----- leaving -----

  /** What the others get when x leaves. */
  lemma LeaveInboxTo(db: Db, x: Fd, players: seq<Fd>, q: Fd)
    requires q in db.inbox && x in db.users && Distinct(players)
    ensures q in LeaveInbox(db, x, players)
    ensures LeaveInbox(db, x, players)[q] == db.inbox[q] + LeavePackets(db, x, players, q)
  {
    var ip, rest := IpOf(db.users, x), Remove(players, x);
    var n := CountIp(db.users, players, ip);
    RemoveDistinct(players, x);
    LeaveNoticesTo(db.inbox, rest, ip, n, q);
    ReconnectsTo(LeaveNotices(db.inbox, rest, ip, n), db.users, rest, rest, ip, q);
    if q in rest {
      Regroup(db.inbox[q], Times(DisconnectReply(ip), n), Presentations(db.users, rest, ip, q));
    }
  }

  function LeavePackets(db: Db, x: Fd, players: seq<Fd>, q: Fd): seq<Reply>
    requires x in db.users
  {
    var ip, rest := db.users[x].ip, Remove(players, x);
    if q in rest then Times(DisconnectReply(ip), CountIp(db.users, players, ip)) + Presentations(db.users, rest, ip, q)
    else []
  }

  /** More packets on the connection are replayed after the earlier ones. */
  lemma ViewAppended(db: Db, db': Db, p: Policy, q: Fd, rs: seq<Reply>)
    requires q in db.users && q in db.inbox && q in db'.users && q in db'.inbox
    requires db'.users[q].mark == db.users[q].mark <= |db.inbox[q]| && db'.inbox[q] == db.inbox[q] + rs
    ensures View(db', p, q) == Replay(p, View(db, p, q), rs)
  {
    var mark := db.users[q].mark;
    assert db'.inbox[q][mark..] == db.inbox[q][mark..] + rs;
    ReplayConcat(p, [], db.inbox[q][mark..], rs);
  }

  lemma {:induction false} OthersFrame(users: map<Fd, User>, users': map<Fd, User>, players: seq<Fd>, q: Fd)
    requires forall u :: u in players ==> EntryOf(users', u) == EntryOf(users, u)
    ensures Others(users', players, q) == Others(users, players, q)
  {
    if players != [] {
      assert players[0] in players && forall u :: u in players[1..] ==> u in players;
      OthersFrame(users, users', players[1..], q);
    }
  }

  lemma MembersNamed(db: Db, key: Key)
    requires DbInv(db) && key in db.groups
    ensures AllNamed(db.users, db.groups[key].players) && Distinct(db.groups[key].players)
  {
    assert GroupOk(db, key);
  }

  lemma FellowsAfterLeave(db: Db, x: Fd, q: Fd)
    requires DbInv(db) && x in db.users && db.users[x].group.Some? && Linked(db, x)
    requires q in db.users && q != x && db.users[q].group.Some? && Linked(db, q) && Linked(LeaveGroup(db, x), q)
    ensures LeaveGroup(db, x).users[q] == db.users[q]
    ensures var players := db.groups[KeyOf(db.users[q])].players;
      FellowMembers(LeaveGroup(db, x), q)
        == Others(db.users, if KeyOf(db.users[q]) == KeyOf(db.users[x]) then Remove(players, x) else players, q)
  {
    LeaveGroupLeft(db, x);
    var key := KeyOf(db.users[x]);
    FellowsOnceLeft(db, LeaveGroup(db, x), x, key, db.groups[key].playercount == 1, q);
  }

  lemma FellowsOnceLeft(db: Db, db': Db, x: Fd, key: Key, freed: bool, q: Fd)
    requires Left(db, db', x, key, freed) && q in db.users && q != x && db.users[q].group.Some?
    requires Linked(db, q) && Linked(db', q)
    ensures db'.users[q] == db.users[q]
    ensures var players := db.groups[KeyOf(db.users[q])].players;
      FellowMembers(db', q) == Others(db.users, if KeyOf(db.users[q]) == key then Remove(players, x) else players, q)
  {
    OthersFrame(db.users, db'.users, db'.groups[KeyOf(db.users[q])].players, q);
  }

  lemma LeaveView(db: Db, p: Policy, x: Fd, q: Fd)
    requires DbInv(db) && Removes(p) && x in db.users && db.users[x].group.Some? && Linked(db, x)
    requires q in db.users && q != x && Linked(db, q) && q in db.inbox && ViewOk(db, p, q)
    requires Linked(LeaveGroup(db, x), q) && q in LeaveGroup(db, x).inbox
    ensures ViewOk(LeaveGroup(db, x), p, q)
  {
    LeaveGroupLeft(db, x);
    LeaveInboxTo(db, x, db.groups[KeyOf(db.users[x])].players, q);
    if db.users[q].group.Some? {
      FellowsAfterLeave(db, x, q);
      LeaveTurnsView(db, p, x, q);
      ViewCarried(db, LeaveGroup(db, x), p, q, LeavePackets(db, x, db.groups[KeyOf(db.users[x])].players, q));
    }
  }

  /** The packets of a leave turn a member's list into its fellow members afterwards. */
  lemma LeaveTurnsView(db: Db, p: Policy, x: Fd, q: Fd)
    requires DbInv(db) && Removes(p) && x in db.users && db.users[x].group.Some? && Linked(db, x)
    requires q in db.users && q != x && db.users[q].group.Some? && Linked(db, q) && q in db.inbox && ViewOk(db, p, q)
    ensures var left, players := db.groups[KeyOf(db.users[x])].players, db.groups[KeyOf(db.users[q])].players;
      multiset(Replay(p, View(db, p, q), LeavePackets(db, x, left, q)))
        == multiset(Others(db.users, if KeyOf(db.users[q]) == KeyOf(db.users[x]) then Remove(players, x) else players, q))
  {
    var key := KeyOf(db.users[x]);
    MembersNamed(db, key);
    MemberOfOwn(db, key, q);
    MemberOfOwn(db, key, x);
    RemoveDistinct(db.groups[key].players, x);
    if KeyOf(db.users[q]) == key {
      LeaveHeard(p, View(db, p, q), db.users, db.groups[key].players, x, q);
    }
  }

  lemma MemberOfOwn(db: Db, key: Key, q: Fd)
    requires DbInv(db) && key in db.groups && q in db.users && db.users[q].group.Some? && Linked(db, q)
    ensures q in db.groups[key].players <==> KeyOf(db.users[q]) == key
  {
    assert GroupOk(db, key);
  }

  // ----- joining -----

  ghost function PlayersBefore(db: Db, key: Key): seq<Fd> {
    if key in db.groups then db.groups[key].players else []
  }

  /** What q gets when x joins. */
  ghost function JoinPackets(db: Db, x: Fd, key: Key, q: Fd): seq<Reply>
    requires x in db.users && db.users[x].id.Some?
  {
    var players := PlayersBefore(db, key);
    if q == x then PresentAll(db.users, players) + [BssidReply(FounderMac(db.users, players, db.users[x].id.value.mac))]
    else if q in players then [Presents(db.users, x)]
    else []
  }

  lemma JoinInboxTo(db: Db, x: Fd, name: Bytes, q: Fd)
    requires Linked(db, x) && db.users[x].id.Some? && q in db.inbox
    requires Distinct(PlayersBefore(db, (db.users[x].id.value.game, name))) && x !in PlayersBefore(db, (db.users[x].id.value.game, name))
    ensures q in JoinGroup(db, x, name).inbox
    ensures JoinGroup(db, x, name).inbox[q] == db.inbox[q] + JoinPackets(db, x, (db.users[x].id.value.game, name), q)
  {
    var players := PlayersBefore(db, (db.users[x].id.value.game, name));
    JoinNoticesTo(db.inbox, db.users, x, players, q);
    if q == x {
      var bssid := [BssidReply(FounderMac(db.users, players, db.users[x].id.value.mac))];
      assert db.inbox[q] + PresentAll(db.users, players) + bssid == db.inbox[q] + (PresentAll(db.users, players) + bssid);
    }
  }

  lemma NewcomerOutside(db: Db, x: Fd, key: Key)
    requires DbInv(db) && x in db.users && db.users[x].group.None?
    ensures Distinct(PlayersBefore(db, key)) && x !in PlayersBefore(db, key)
    ensures AllNamed(db.users, PlayersBefore(db, key))
  {
    if key in db.groups {
      assert GroupOk(db, key);
    }
  }

  lemma JoinViewSelf(db: Db, p: Policy, x: Fd, name: Bytes)
    requires DbInv(db) && x in db.users && Linked(db, x) && db.users[x].id.Some? && db.users[x].group.None?
    requires Linked(JoinGroup(db, x, name), x) && x in JoinGroup(db, x, name).inbox
    ensures ViewOk(JoinGroup(db, x, name), p, x)
  {
    var key, db' := (db.users[x].id.value.game, name), JoinGroup(db, x, name);
    var players := PlayersBefore(db, key);
    NewcomerOutside(db, x, key);
    JoinInboxTo(db, x, name, x);
    var packets := JoinPackets(db, x, key, x);
    assert db'.inbox[x][|db.inbox[x]|..] == packets;
    var bssid := [BssidReply(FounderMac(db.users, players, db.users[x].id.value.mac))];
    ReplayConcat(p, [], PresentAll(db.users, players), bssid);
    assert bssid[1..] == [];
    ReplayPresentAll(p, [], db.users, players, x);
    OthersFrame(db.users, db'.users, players, x);
    assert db'.groups[key].players == [x] + players && ([x] + players)[1..] == players;
  }

  /** A member that hears of a newcomer. */
  lemma JoinHeard(p: Policy, l: seq<Entry>, users: map<Fd, User>, players: seq<Fd>, x: Fd, q: Fd)
    requires x in users && users[x].id.Some? && x != q && multiset(l) == multiset(Others(users, players, q))
    ensures multiset(Replay(p, l, [Presents(users, x)])) == multiset(Others(users, [x] + players, q))
  {
    assert ([x] + players)[1..] == players;
    assert [Presents(users, x)][1..] == [];
  }

  /** Members of the joined group hear of the newcomer, nobody else does. */
  lemma WhoHearsOfJoin(db: Db, x: Fd, key: Key, q: Fd)
    requires DbInv(db) && x in db.users && db.users[x].id.Some?
    requires q in db.users && q != x && db.users[q].group.Some? && Linked(db, q)
    ensures JoinPackets(db, x, key, q) == if KeyOf(db.users[q]) == key then [Presents(db.users, x)] else []
  {
    if key in db.groups {
      assert GroupOk(db, key);
      assert q in db.groups[key].players <==> KeyOf(db.users[q]) == key;
    }
  }

  /** A member whose own record is untouched, and who got packets that turn its list into the
      other players of its group, has the right view. */
  lemma ViewCarried(db: Db, db': Db, p: Policy, q: Fd, rs: seq<Reply>)
    requires Linked(db, q) && q in db.inbox && ViewOk(db, p, q) && db.users[q].group.Some?
    requires Linked(db', q) && q in db'.inbox && db'.users[q] == db.users[q]
    requires db'.inbox[q] == db.inbox[q] + rs
    requires multiset(Replay(p, View(db, p, q), rs)) == multiset(FellowMembers(db', q))
    ensures ViewOk(db', p, q)
  {
    ViewAppended(db, db', p, q, rs);
  }

  lemma FellowsAfterJoin(db: Db, db': Db, x: Fd, key: Key, q: Fd)
    requires Joined(db, db', x, key) && q in db.users && q != x && db.users[q].group.Some?
    requires Linked(db, q) && Linked(db', q)
    ensures db'.users[q] == db.users[q]
    ensures var players := db.groups[KeyOf(db.users[q])].players;
      FellowMembers(db', q) == Others(db.users, if KeyOf(db.users[q]) == key then [x] + players else players, q)
  {
    OthersFrame(db.users, db'.users, db'.groups[KeyOf(db.users[q])].players, q);
  }

  lemma JoinViewOther(db: Db, db': Db, p: Policy, x: Fd, key: Key, q: Fd)
    requires DbInv(db) && Joined(db, db', x, key)
    requires q in db.users && q != x && Linked(db, q) && q in db.inbox && ViewOk(db, p, q)
    requires Linked(db', q) && q in db'.inbox && db'.inbox[q] == db.inbox[q] + JoinPackets(db, x, key, q)
    ensures ViewOk(db', p, q)
  {
    if db.users[q].group.Some? {
      WhoHearsOfJoin(db, x, key, q);
      FellowsAfterJoin(db, db', x, key, q);
      var players := db.groups[KeyOf(db.users[q])].players;
      if KeyOf(db.users[q]) == key {
        JoinHeard(p, View(db, p, q), db.users, players, x, q);
      }
      ViewCarried(db, db', p, q, JoinPackets(db, x, key, q));
    }
  }

  // ----- founders -----

  /** The players of a group stand in the order they joined, newest first. */
  ghost predicate InJoinOrder(users: map<Fd, User>, players: seq<Fd>, clock: nat) {
    && (forall u :: u in players ==> u in users && users[u].stamp < clock)
    && (forall i, j :: 0 <= i < j < |players| ==> users[players[i]].stamp > users[players[j]].stamp)
  }

  ghost predicate OrdersOk(db: Db) {
    forall key :: key in db.groups ==> InJoinOrder(db.users, db.groups[key].players, db.clock)
  }

  /** The member that has been in the group longest. */
  ghost predicate LongestStanding(db: Db, key: Key, u: Fd)
    requires key in db.groups && InJoinOrder(db.users, db.groups[key].players, db.clock)
  {
    && u in db.groups[key].players
    && forall v :: v in db.groups[key].players ==> db.users[u].stamp <= db.users[v].stamp
  }

  lemma LastIsFounder(db: Db, key: Key)
    requires DbInv(db) && OrdersOk(db) && key in db.groups
    ensures db.groups[key].players != []
    ensures LongestStanding(db, key, db.groups[key].players[|db.groups[key].players| - 1])
  {
    assert GroupOk(db, key);
    var players := db.groups[key].players;
    assert InJoinOrder(db.users, players, db.clock);
    forall v | v in players ensures db.users[players[|players| - 1]].stamp <= db.users[v].stamp {
      var i :| 0 <= i < |players| && players[i] == v;
    }
  }

  lemma {:induction false} RemoveInOrder(users: map<Fd, User>, players: seq<Fd>, x: Fd, clock: nat)
    requires InJoinOrder(users, players, clock)
    ensures InJoinOrder(users, Remove(players, x), clock)
    ensures forall u :: u in Remove(players, x) ==> u in players
  {
    if players != [] {
      TailInOrder(users, players, clock);
      if players[0] != x {
        RemoveInOrder(users, players[1..], x, clock);
        HeadInOrder(users, players[0], Remove(players[1..], x), clock);
      }
    }
  }

  lemma TailInOrder(users: map<Fd, User>, players: seq<Fd>, clock: nat)
    requires InJoinOrder(users, players, clock) && players != []
    ensures InJoinOrder(users, players[1..], clock)
    ensures players[0] in users && users[players[0]].stamp < clock
    ensures forall u :: u in players[1..] ==> u in players && users[u].stamp < users[players[0]].stamp
  {
    assert players[0] in players;
    forall u | u in players[1..] ensures u in players && users[u].stamp < users[players[0]].stamp {
      var i :| 0 <= i < |players| - 1 && players[1..][i] == u;
      assert players[i + 1] == u && players[i + 1] in players;
    }
  }

  lemma HeadInOrder(users: map<Fd, User>, u: Fd, rest: seq<Fd>, clock: nat)
    requires InJoinOrder(users, rest, clock) && u in users && users[u].stamp < clock
    requires forall v :: v in rest ==> users[v].stamp < users[u].stamp
    ensures InJoinOrder(users, [u] + rest, clock)
  {
    assert forall i :: 0 <= i < |rest| ==> rest[i] in rest;
  }

  lemma OrderFrame(users: map<Fd, User>, users': map<Fd, User>, players: seq<Fd>, clock: nat)
    requires InJoinOrder(users, players, clock)
    requires forall u :: u in players ==> u in users' && users'[u].stamp == users[u].stamp
    ensures InJoinOrder(users', players, clock)
  {
  }

  lemma LeaveOrders(db: Db, x: Fd)
    requires DbInv(db) && OrdersOk(db) && x in db.users && db.users[x].group.Some? && Linked(db, x)
    ensures OrdersOk(LeaveGroup(db, x))
  {
    var db' := LeaveGroup(db, x);
    LeaveGroupLeft(db, x);
    forall key | key in db'.groups ensures InJoinOrder(db'.users, db'.groups[key].players, db'.clock) {
      assert InJoinOrder(db.users, db.groups[key].players, db.clock);
      RemoveInOrder(db.users, db.groups[key].players, x, db.clock);
      OrderFrame(db.users, db'.users, db'.groups[key].players, db.clock);
    }
  }

  lemma JoinOrders(db: Db, x: Fd, name: Bytes)
    requires DbInv(db) && OrdersOk(db) && x in db.users && Linked(db, x) && db.users[x].id.Some? && db.users[x].group.None?
    ensures OrdersOk(JoinGroup(db, x, name))
  {
    var db', joined := JoinGroup(db, x, name), (db.users[x].id.value.game, name);
    forall key | key in db'.groups ensures InJoinOrder(db'.users, db'.groups[key].players, db'.clock) {
      NewcomerOutside(db, x, key);
      if key in db.groups {
        assert InJoinOrder(db.users, db.groups[key].players, db.clock);
      }
      assert key == joined ==> db'.groups[key].players == [x] + PlayersBefore(db, key);
    }
  }
}
