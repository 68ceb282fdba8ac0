/** What a request does to the database and who is sent what, told without the operations' own
    functions. */
module ServerEffects {
  import opened ServerSpec
  import opened ServerInvariant
  import opened ServerFraming
  import opened ServerViews
  import opened ServerMembership
  import opened ServerWire
  import opened Sequences

  /** Everyone's packets but those of fd are what they were. */
  ghost predicate OnlyTo(db: Db, db': Db, fd: Fd) {
    db'.inbox.Keys == db.inbox.Keys && forall q :: q in db.inbox && q != fd ==> db'.inbox[q] == db.inbox[q]
  }

  /** The players of the group of a user. */
  ghost function PlayersAround(db: Db, u: User): seq<Fd>
    requires u.id.Some? && u.group.Some? && KeyOf(u) in db.groups
  {
    db.groups[KeyOf(u)].players
  }

  // --- Ping ---

  lemma PingEffect(db: Db, links: Crosslinks, fd: Fd, r: RecvResult, now: nat, more: Bytes)
    requires Consistent(db) && Arrived(db, fd, r, now, PingRequest, more)
    ensures fd in db.hist && Linked(db, fd) && TakenOut(db, Turn(db, links, fd, r, now), fd, r, now, more)
  {
    TurnActs(db, links, fd, r, now, PingRequest, more);
  }

  // --- Chat ---

  /** A message of a grouped user reaches each other player of its group once, and nobody else;
      nothing else changes. */
  lemma ChatEffect(db: Db, links: Crosslinks, fd: Fd, r: RecvResult, now: nat, message: Bytes, more: Bytes)
    requires Consistent(db) && Arrived(db, fd, r, now, ChatRequest(message), more) && db.users[fd].group.Some?
    ensures fd in db.hist && Linked(db, fd)
    ensures var db', u := Turn(db, links, fd, r, now), db.users[fd];
      && db'.inbox.Keys == db.inbox.Keys
      && (forall q :: q in db.inbox ==>
            db'.inbox[q] == db.inbox[q] + (if q in PlayersAround(db, u) && q != fd then [ChatReply(message, u.id.value.name)] else []))
      && TakenOut(db, db'.(inbox := db.inbox), fd, r, now, more)
  {
    TurnActs(db, links, fd, r, now, ChatRequest(message), more);
    var db1 := Taken(db, fd, r, now, ChatRequest(message));
    ChatReaches(db1, fd, message);
  }

  lemma ChatReaches(db: Db, fd: Fd, message: Bytes)
    requires Consistent(db) && Linked(db, fd) && db.users[fd].group.Some?
    ensures var db', u := Chat(db, fd, message), db.users[fd];
      && db'.inbox.Keys == db.inbox.Keys && db'.(inbox := db.inbox) == db
      && (forall q :: q in db.inbox ==>
            db'.inbox[q] == db.inbox[q] + (if q in PlayersAround(db, u) && q != fd then [ChatReply(message, u.id.value.name)] else []))
  {
    var players, p := PlayersAround(db, db.users[fd]), ChatReply(message, db.users[fd].id.value.name);
    GroupDistinct(db, KeyOf(db.users[fd]));
    ChatToKeys(db.inbox, fd, players, p);
    forall q | q in db.inbox
      ensures ChatTo(db.inbox, fd, players, p)[q] == db.inbox[q] + (if q in players && q != fd then [p] else [])
    {
      ChatToOne(db.inbox, fd, players, p, q);
    }
  }

  lemma GroupDistinct(db: Db, key: Key)
    requires Consistent(db) && key in db.groups
    ensures Distinct(db.groups[key].players)
    ensures forall f :: f in db.groups[key].players <==> f in db.users && InGroup(db.users[f], key)
  {
    assert DbInv(db);
    assert GroupOk(db, key);
  }

  lemma {:induction false} ChatToOne(inbox: Inbox, fd: Fd, players: seq<Fd>, p: Reply, q: Fd)
    requires q in inbox && Distinct(players)
    ensures q in ChatTo(inbox, fd, players, p)
    ensures ChatTo(inbox, fd, players, p)[q] == if q in players && q != fd then inbox[q] + [p] else inbox[q]
    decreases |players|
  {
    if players != [] {
      assert players == [players[0]] + players[1..] && players[0] !in players[1..];
      ChatToOne(if players[0] == fd then inbox else Post(inbox, players[0], p), fd, players[1..], p, q);
    }
  }

  // --- Scan ---

  /** A scan reports each group of the user's game, with the MAC of the last player of its list, and
      then its end, to the user alone. */
  lemma ScanEffect(db: Db, links: Crosslinks, fd: Fd, r: RecvResult, now: nat, more: Bytes)
    requires Consistent(db) && Arrived(db, fd, r, now, ScanRequest, more) && db.users[fd].group.None?
    ensures fd in db.hist && Linked(db, fd) && fd in db.inbox
    ensures var db', names := Turn(db, links, fd, r, now), db.games[db.users[fd].id.value.game].groups;
      && OnlyTo(db, db', fd) && TakenOut(db, db'.(inbox := db.inbox), fd, r, now, more)
      && |db'.inbox[fd]| == |db.inbox[fd]| + |names| + 1 && db.inbox[fd] <= db'.inbox[fd]
      && db'.inbox[fd][|db'.inbox[fd]| - 1] == ScanCompleteReply
      && (forall i :: 0 <= i < |names| ==>
            ScannedAs(db, (db.users[fd].id.value.game, names[i]), db'.inbox[fd][|db.inbox[fd]| + i]))
  {
    TurnActs(db, links, fd, r, now, ScanRequest, more);
    var db1 := Taken(db, fd, r, now, ScanRequest);
    ScanReports(db1, fd);
    var names := db.games[db.users[fd].id.value.game].groups;
    forall i | 0 <= i < |names|
      ensures ScannedAs(db, (db.users[fd].id.value.game, names[i]), Turn(db, links, fd, r, now).inbox[fd][|db.inbox[fd]| + i])
    {
      assert ScannedAs(db1, (db.users[fd].id.value.game, names[i]), Turn(db, links, fd, r, now).inbox[fd][|db.inbox[fd]| + i]);
    }
  }

  /** A report of a group with the MAC of its last player. */
  ghost predicate ScannedAs(db: Db, key: Key, p: Reply) {
    && key in db.groups && db.groups[key].players != []
    && var last := db.groups[key].players[|db.groups[key].players| - 1];
       last in db.users && db.users[last].id.Some? && p == ScanReply(key.1, db.users[last].id.value.mac)
  }

  lemma ScanReports(db: Db, fd: Fd)
    requires Consistent(db) && Linked(db, fd) && db.users[fd].id.Some? && db.users[fd].group.None?
    ensures fd in db.inbox
    ensures var db', code := Scan(db, fd), db.users[fd].id.value.game;
      var names := db.games[code].groups;
      && OnlyTo(db, db', fd) && db'.(inbox := db.inbox) == db
      && |db'.inbox[fd]| == |db.inbox[fd]| + |names| + 1 && db.inbox[fd] <= db'.inbox[fd]
      && db'.inbox[fd][|db'.inbox[fd]| - 1] == ScanCompleteReply
      && (forall i :: 0 <= i < |names| ==> ScannedAs(db, (code, names[i]), db'.inbox[fd][|db.inbox[fd]| + i]))
  {
    var code := db.users[fd].id.value.game;
    var names := db.games[code].groups;
    var replies := ScanReplies(db, code, names);
    assert DbInv(db);
    PostedAll(db.inbox, fd, replies);
    RepliesAre(db, code, names);
    forall i | 0 <= i < |names| ensures ScannedAs(db, (code, names[i]), replies[i]) {
      GroupOfGame(db, code, names[i]);
    }
  }

  lemma GroupOfGame(db: Db, code: Bytes, name: Bytes)
    requires Consistent(db) && code in db.games && name in db.games[code].groups
    ensures (code, name) in db.groups && db.groups[(code, name)].players != []
    ensures var players := db.groups[(code, name)].players;
      var last := players[|players| - 1]; last in db.users && db.users[last].id.Some?
  {
    assert DbInv(db);
    assert GameOk(db, code) && GroupOk(db, (code, name));
    var players := db.groups[(code, name)].players;
    assert players[|players| - 1] in players;
  }

  lemma {:induction false} PostedAll(inbox: Inbox, fd: Fd, ps: seq<Reply>)
    requires fd in inbox
    ensures var inbox' := PostAll(inbox, fd, ps);
      && inbox'.Keys == inbox.Keys && inbox'[fd] == inbox[fd] + ps
      && forall q :: q in inbox && q != fd ==> inbox'[q] == inbox[q]
    decreases |ps|
  {
    if ps != [] {
      PostedAll(Post(inbox, fd, ps[0]), fd, ps[1..]);
      assert inbox[fd] + [ps[0]] + ps[1..] == inbox[fd] + ps;
    }
  }

  lemma {:induction false} RepliesAre(db: Db, code: Bytes, names: seq<Bytes>)
    ensures var rs := ScanReplies(db, code, names);
      && |rs| == |names| + 1 && rs[|names|] == ScanCompleteReply
      && forall i {:trigger rs[i]} :: 0 <= i < |names| ==>
           var players := if (code, names[i]) in db.groups then db.groups[(code, names[i])].players else [];
           rs[i] == ScanReply(names[i], FounderMac(db.users, players, []))
  {
    if names != [] {
      RepliesAre(db, code, names[1..]);
      var rs, rest := ScanReplies(db, code, names), ScanReplies(db, code, names[1..]);
      assert forall i :: 0 < i < |rs| ==> rs[i] == rest[i - 1];
      assert forall i :: 0 < i < |names| ==> names[i] == names[1..][i - 1];
    }
  }

  // --- Joining ---

  /** The packet that presents a logged-in user. */
  ghost predicate Introduces(db: Db, f: Fd, p: Reply) {
    f in db.users && db.users[f].id.Some?
    && p == ConnectReply(db.users[f].id.value.name, db.users[f].id.value.mac, db.users[f].ip)
  }

  /** The group a user joins, and its players so far. */
  ghost function Hosts(db: Db, key: Key): seq<Fd> {
    if key in db.groups then db.groups[key].players else []
  }

  /** A user that joins comes first on the player list. */
  ghost predicate HasJoined(db: Db, db': Db, fd: Fd, key: Key) {
    && key in db'.groups && db'.groups[key].players == [fd] + Hosts(db, key)
    && (forall k :: k in db.groups && k != key ==> k in db'.groups && db'.groups[k] == db.groups[k])
    && db'.groups.Keys == db.groups.Keys + {key}
    && JoinHeard(db, db'.inbox, fd, Hosts(db, key))
  }

  /** Each player hears of it once, and it hears of each player in list order and then of the group's
      MAC: that of the last player, or its own. */
  ghost predicate JoinHeard(db: Db, inbox: Inbox, fd: Fd, players: seq<Fd>) {
    && fd in db.inbox && inbox.Keys == db.inbox.Keys
    && (forall q :: q in db.inbox && q != fd ==> PlayerHears(db, inbox[q], q, fd, players))
    && NewcomerHears(db, db.inbox[fd], inbox[fd], fd, players)
  }

  ghost predicate PlayerHears(db: Db, told: seq<Reply>, q: Fd, fd: Fd, players: seq<Fd>)
    requires q in db.inbox
  {
    if q in players then
      |told| == |db.inbox[q]| + 1 && db.inbox[q] <= told && Introduces(db, fd, told[|db.inbox[q]|])
    else told == db.inbox[q]
  }

  ghost predicate NewcomerHears(db: Db, before: seq<Reply>, told: seq<Reply>, fd: Fd, players: seq<Fd>) {
    && |told| == |before| + |players| + 1 && before <= told
    && (forall i :: 0 <= i < |players| ==> Introduces(db, players[i], told[|before| + i]))
    && var last := if players == [] then fd else players[|players| - 1];
       last in db.users && db.users[last].id.Some? && told[|told| - 1] == BssidReply(db.users[last].id.value.mac)
  }

  lemma ConnectEffect(db: Db, links: Crosslinks, fd: Fd, r: RecvResult, now: nat, group: Bytes, more: Bytes)
    requires Consistent(db) && Arrived(db, fd, r, now, ConnectRequest(group), more)
    requires db.users[fd].group.None? && Alphanumeric(group)
    ensures fd in db.hist && Linked(db, fd)
    ensures var db', u := Turn(db, links, fd, r, now), db.users[fd];
      && fd in db'.users && db'.users[fd].group == Some(CString(group)) && db'.users[fd].id == u.id && db'.users[fd].rx == more
      && OthersSame(db, db', fd) && HasJoined(db, db', fd, (u.id.value.game, CString(group)))
  {
    TurnActs(db, links, fd, r, now, ConnectRequest(group), more);
    AlphanumericIsValid(group);
    var db1 := Taken(db, fd, r, now, ConnectRequest(group));
    var key := (db.users[fd].id.value.game, CString(group));
    JoinHasJoined(db1, fd, CString(group));
    SameHasJoined(db, db1, JoinGroup(db1, fd, CString(group)), fd, key);
  }

  /** Joining does not look at buffers. */
  lemma SameHasJoined(db: Db, db1: Db, db': Db, fd: Fd, key: Key)
    requires HasJoined(db1, db', fd, key) && fd in db.users && fd in db1.users
    requires db1.users == db.users[fd := db1.users[fd]] && db1.inbox == db.inbox && db1.groups == db.groups
    requires var u, u1 := db.users[fd], db1.users[fd]; u1.id == u.id && u1.ip == u.ip
    ensures HasJoined(db, db', fd, key)
  {
    assert forall f, p :: Introduces(db1, f, p) ==> Introduces(db, f, p);
  }

  lemma JoinHasJoined(db: Db, fd: Fd, name: Bytes)
    requires Consistent(db) && Linked(db, fd) && db.users[fd].id.Some? && db.users[fd].group.None?
    ensures var db', u := JoinGroup(db, fd, name), db.users[fd];
      && fd in db'.users && db'.users[fd].group == Some(name) && db'.users[fd].id == u.id && db'.users[fd].rx == u.rx
      && OthersSame(db, db', fd) && HasJoined(db, db', fd, (u.id.value.game, name))
  {
    var key := (db.users[fd].id.value.game, name);
    JoinConcerns(db, fd, name);
    JoinGroupJoined(db, fd, name);
    JoinSends(db, fd, key);
    assert db.groups.Keys + {key} == db.groups[key := JoinGroup(db, fd, name).groups[key]].Keys;
  }

  lemma JoinSends(db: Db, fd: Fd, key: Key)
    requires Consistent(db) && fd in db.users && db.users[fd].id.Some? && db.users[fd].group.None?
    ensures var players := Hosts(db, key);
      JoinHeard(db, Post(JoinNotices(db.inbox, db.users, fd, players), fd,
                         BssidReply(FounderMac(db.users, players, db.users[fd].id.value.mac))), fd, players)
  {
    var players := Hosts(db, key);
    JoinInbox(db, fd, key, players);
    var notified := JoinNotices(db.inbox, db.users, fd, players);
    forall q | q in db.inbox && q != fd ensures PlayerHears(db, notified[q], q, fd, players) {
      PlayerTold(db, q, fd, players);
    }
    NewcomerTold(db, db.inbox[fd], fd, players);
    JoinHeardAll(db, notified, fd, players, BssidReply(FounderMac(db.users, players, db.users[fd].id.value.mac)));
  }

  lemma JoinHeardAll(db: Db, notified: Inbox, fd: Fd, players: seq<Fd>, bssid: Reply)
    requires fd in db.inbox && notified.Keys == db.inbox.Keys
    requires forall q :: q in db.inbox && q != fd ==> PlayerHears(db, notified[q], q, fd, players)
    requires NewcomerHears(db, db.inbox[fd], notified[fd] + [bssid], fd, players)
    ensures JoinHeard(db, Post(notified, fd, bssid), fd, players)
  {
  }

  lemma PlayerTold(db: Db, q: Fd, fd: Fd, players: seq<Fd>)
    requires q in db.inbox && fd in db.users && db.users[fd].id.Some?
    ensures PlayerHears(db, db.inbox[q] + (if q in players then [Presents(db.users, fd)] else []), q, fd, players)
  {
    assert q !in players ==> db.inbox[q] + [] == db.inbox[q];
  }

  lemma NewcomerTold(db: Db, before: seq<Reply>, fd: Fd, players: seq<Fd>)
    requires fd in db.users && db.users[fd].id.Some?
    requires forall i :: 0 <= i < |players| ==> players[i] in db.users && db.users[players[i]].id.Some?
    ensures NewcomerHears(db, before, before + PresentAll(db.users, players)
      + [BssidReply(FounderMac(db.users, players, db.users[fd].id.value.mac))], fd, players)
  {
    var all, bssid := PresentAll(db.users, players), BssidReply(FounderMac(db.users, players, db.users[fd].id.value.mac));
    PresentedInOrder(db.users, players);
    AllThenOne(before, all, bssid);
    forall i | 0 <= i < |players| ensures Introduces(db, players[i], (before + all + [bssid])[|before| + i]) {
      assert all[i] == Presents(db.users, players[i]);
    }
  }

  lemma AllThenOne<T>(before: seq<T>, all: seq<T>, last: T)
    ensures var s := before + all + [last];
      && |s| == |before| + |all| + 1 && before <= s && s[|s| - 1] == last
      && forall i :: 0 <= i < |all| ==> s[|before| + i] == all[i]
  {
  }

  lemma JoinInbox(db: Db, fd: Fd, key: Key, players: seq<Fd>)
    requires Consistent(db) && fd in db.users && db.users[fd].id.Some? && db.users[fd].group.None? && players == Hosts(db, key)
    ensures fd in db.inbox
    ensures var inbox' := JoinNotices(db.inbox, db.users, fd, players);
      && inbox'.Keys == db.inbox.Keys
      && (forall q :: q in db.inbox && q != fd ==>
            inbox'[q] == db.inbox[q] + (if q in players then [Presents(db.users, fd)] else []))
      && inbox'[fd] == db.inbox[fd] + PresentAll(db.users, players)
      && (forall i :: 0 <= i < |players| ==> players[i] in db.users && db.users[players[i]].id.Some?)
  {
    assert DbInv(db);
    if key in db.groups {
      GroupDistinct(db, key);
      assert forall i :: 0 <= i < |players| ==> players[i] in players;
    }
    JoinNoticesKeys(db.inbox, db.users, fd, players);
    forall q | q in db.inbox
      ensures JoinNotices(db.inbox, db.users, fd, players)[q] == db.inbox[q] +
        (if q == fd then PresentAll(db.users, players) else if q in players then [Presents(db.users, fd)] else [])
    {
      JoinNoticesTo(db.inbox, db.users, fd, players, q);
    }
    PresentedInOrder(db.users, players);
  }

  lemma {:induction false} PresentedInOrder(users: map<Fd, User>, players: seq<Fd>)
    ensures |PresentAll(users, players)| == |players|
    ensures forall i :: 0 <= i < |players| ==> PresentAll(users, players)[i] == Presents(users, players[i])
  {
    if players != [] {
      PresentedInOrder(users, players[1..]);
      assert forall i :: 0 < i < |players| ==> players[i] == players[1..][i - 1];
    }
  }

  // --- Leaving ---

  ghost function AtAddress(users: map<Fd, User>, players: seq<Fd>, ip: nat): set<Fd> {
    set f | f in players && f in users && users[f].ip == ip
  }

  /** The players of the address other than x and q, in list order. */
  ghost function Again(users: map<Fd, User>, players: seq<Fd>, x: Fd, ip: nat, q: Fd): (r: seq<Fd>)
    ensures forall f :: f in r <==> f in AtAddress(users, players, ip) && f != x && f != q
  {
    if players == [] then []
    else
      var f := players[0];
      assert players == [f] + players[1..];
      (if f != x && f != q && f in users && users[f].ip == ip then [f] else []) + Again(users, players[1..], x, ip, q)
  }

  /** A user that leaves is taken off the player list, and an empty group is gone. */
  ghost predicate HasLeft(db: Db, db': Db, fd: Fd, key: Key) {
    && key in db.groups && fd in db.users
    && var players := db.groups[key].players;
    && (key in db'.groups <==> exists f :: f in players && f != fd)
    && (forall k :: k != key ==> (k in db'.groups <==> k in db.groups))
    && (forall k :: k in db.groups && k != key ==> db'.groups[k] == db.groups[k])
    && (key in db'.groups ==>
          exists i :: 0 <= i < |players| && players[i] == fd && db'.groups[key].players == players[..i] + players[i + 1..])
    && AllTold(db, db'.inbox, fd, players)
  }

  /** Nobody else hears of a leave. */
  ghost predicate AllTold(db: Db, inbox: Inbox, fd: Fd, players: seq<Fd>) {
    fd in db.users && inbox.Keys == db.inbox.Keys && forall q :: q in db.inbox ==>
      if q in players && q != fd then LeaveToldTo(db, inbox[q], fd, players, q) else inbox[q] == db.inbox[q]
  }

  /** Each remaining player gets one disconnect packet for each player of the address, the leaving one
      included, and is then presented the others of that address again, in list order. */
  ghost predicate LeaveToldTo(db: Db, told: seq<Reply>, fd: Fd, players: seq<Fd>, q: Fd)
    requires fd in db.users && q in db.inbox
  {
    var ip, before := db.users[fd].ip, |db.inbox[q]|;
    var n, again := |AtAddress(db.users, players, ip)|, Again(db.users, players, fd, ip, q);
    && |told| == before + n + |again| && db.inbox[q] <= told
    && (forall i :: before <= i < before + n ==> told[i] == DisconnectReply(ip))
    && (forall i :: 0 <= i < |again| ==> Introduces(db, again[i], told[before + n + i]))
  }

  lemma {:induction false} AddressCounted(users: map<Fd, User>, players: seq<Fd>, ip: nat)
    requires Distinct(players) && forall f :: f in players ==> f in users
    ensures CountIp(users, players, ip) == |AtAddress(users, players, ip)|
  {
    if players == [] {
      assert AtAddress(users, players, ip) == {};
    } else {
      var f, rest := players[0], players[1..];
      assert players == [f] + rest && f !in rest;
      AddressCounted(users, rest, ip);
      assert AtAddress(users, players, ip) == AtAddress(users, rest, ip) + if users[f].ip == ip then {f} else {};
    }
  }

  lemma {:induction false} PresentedAgain(users: map<Fd, User>, players: seq<Fd>, x: Fd, ip: nat, q: Fd)
    requires Distinct(players) && forall f :: f in players ==> f in users
    ensures Presentations(users, Remove(players, x), ip, q) == PresentAll(users, Again(users, players, x, ip, q))
  {
    if players != [] {
      var f, rest := players[0], players[1..];
      assert players == [f] + rest && f !in rest;
      PresentedAgain(users, rest, x, ip, q);
      var again := Again(users, rest, x, ip, q);
      if f == x {
        RemoveNone(rest, x);
        assert [] + again == again;
      } else {
        var r := Remove(rest, x);
        assert ([f] + r)[0] == f && ([f] + r)[1..] == r;
        if f != q && users[f].ip == ip {
          assert ([f] + again)[0] == f && ([f] + again)[1..] == again;
        } else {
          assert [] + again == again && [] + Presentations(users, r, ip, q) == Presentations(users, r, ip, q);
        }
      }
    }
  }

  lemma {:induction false} RemoveNone<T>(s: seq<T>, x: T)
    requires x !in s
    ensures Remove(s, x) == s
  {
    if s != [] { RemoveNone(s[1..], x); }
  }

  lemma {:induction false} AllTimes(r: Reply, n: nat)
    ensures forall i :: 0 <= i < n ==> Times(r, n)[i] == r
  {
    if n > 0 { AllTimes(r, n - 1); }
  }

  lemma {:induction false} RemoveOne<T>(s: seq<T>, x: T) returns (i: nat)
    requires x in s
    ensures i < |s| && s[i] == x && Remove(s, x) == s[..i] + s[i + 1..]
  {
    if s[0] == x {
      i := 0;
    } else {
      i := RemoveOne(s[1..], x);
      assert s[..i + 1] == [s[0]] + s[1..][..i] && s[1..][i + 1..] == s[i + 2..];
      i := i + 1;
    }
  }

  lemma DisconnectEffect(db: Db, links: Crosslinks, fd: Fd, r: RecvResult, now: nat, more: Bytes)
    requires Consistent(db) && Arrived(db, fd, r, now, DisconnectRequest, more) && db.users[fd].group.Some?
    ensures fd in db.hist && Linked(db, fd)
    ensures var db', u := Turn(db, links, fd, r, now), db.users[fd];
      && fd in db'.users && db'.users[fd].group == None && db'.users[fd].id == u.id && db'.users[fd].rx == more
      && OthersSame(db, db', fd) && HasLeft(db, db', fd, KeyOf(u))
  {
    TurnActs(db, links, fd, r, now, DisconnectRequest, more);
    var db1 := Taken(db, fd, r, now, DisconnectRequest);
    LeaveHasLeft(db1, fd);
    SameHasLeft(db, db1, LeaveGroup(db1, fd), fd, KeyOf(db.users[fd]));
  }

  lemma SameHasLeft(db: Db, db1: Db, db': Db, fd: Fd, key: Key)
    requires HasLeft(db1, db', fd, key) && fd in db.users
    requires db1.users == db.users[fd := db1.users[fd]] && db1.inbox == db.inbox && db1.groups == db.groups
    requires var u, u1 := db.users[fd], db1.users[fd]; u1.id == u.id && u1.ip == u.ip
    ensures HasLeft(db, db', fd, key)
  {
    var players, ip := db.groups[key].players, db.users[fd].ip;
    forall q | q in db.inbox && q in players && q != fd ensures LeaveToldTo(db, db'.inbox[q], fd, players, q) {
      assert LeaveToldTo(db1, db'.inbox[q], fd, players, q);
      SameToldTo(db, db1, db'.inbox[q], fd, players, q);
    }
  }

  lemma SameToldTo(db: Db, db1: Db, told: seq<Reply>, fd: Fd, players: seq<Fd>, q: Fd)
    requires fd in db.users && fd in db1.users && q in db.inbox && db1.inbox == db.inbox
    requires db1.users == db.users[fd := db1.users[fd]]
    requires var u, u1 := db.users[fd], db1.users[fd]; u1.id == u.id && u1.ip == u.ip
    requires LeaveToldTo(db1, told, fd, players, q)
    ensures LeaveToldTo(db, told, fd, players, q)
  {
    var ip := db.users[fd].ip;
    assert AtAddress(db1.users, players, ip) == AtAddress(db.users, players, ip);
    SameAgain(db.users, db1.users, players, fd, ip, q);
    assert forall f, p :: Introduces(db1, f, p) ==> Introduces(db, f, p);
  }

  lemma {:induction false} SameAgain(users: map<Fd, User>, users1: map<Fd, User>, players: seq<Fd>, x: Fd, ip: nat, q: Fd)
    requires x in users && x in users1 && users1 == users[x := users1[x]]
    ensures Again(users1, players, x, ip, q) == Again(users, players, x, ip, q)
  {
    if players != [] { SameAgain(users, users1, players[1..], x, ip, q); }
  }

  lemma LeaveHasLeft(db: Db, fd: Fd)
    requires Consistent(db) && fd in db.users && db.users[fd].group.Some? && Linked(db, fd)
    ensures var db', u := LeaveGroup(db, fd), db.users[fd];
      && fd in db'.users && db'.users[fd].group == None && db'.users[fd].id == u.id && db'.users[fd].rx == u.rx
      && OthersSame(db, db', fd) && HasLeft(db, db', fd, KeyOf(u))
  {
    var key := KeyOf(db.users[fd]);
    LeaveConcerns(db, fd);
    LeaveGroupLeft(db, fd);
    LeaveList(db, fd, key);
    LeaveTellsAll(db, LeaveGroup(db, fd), fd, key);
    LeftHasLeft(db, LeaveGroup(db, fd), fd, key, db.groups[key].playercount == 1);
  }

  lemma LeftHasLeft(db: Db, db': Db, fd: Fd, key: Key, freed: bool)
    requires Left(db, db', fd, key, freed) && AllTold(db, db'.inbox, fd, db.groups[key].players)
    requires var players := db.groups[key].players;
      && (db.groups[key].playercount == 1 <==> !exists f :: f in players && f != fd)
      && (exists i :: 0 <= i < |players| && players[i] == fd && Remove(players, fd) == players[..i] + players[i + 1..])
    ensures HasLeft(db, db', fd, key)
  {
  }

  lemma LeaveTellsAll(db: Db, db': Db, fd: Fd, key: Key)
    requires Consistent(db) && fd in db.users && key in db.groups && InGroup(db.users[fd], key)
    requires db'.inbox == LeaveInbox(db, fd, db.groups[key].players)
    ensures AllTold(db, db'.inbox, fd, db.groups[key].players)
  {
    LeaveInboxKeys(db, fd, db.groups[key].players);
    forall q | q in db.inbox
      ensures var players := db.groups[key].players;
        if q in players && q != fd then LeaveToldTo(db, db'.inbox[q], fd, players, q) else db'.inbox[q] == db.inbox[q]
    {
      LeaveTells(db, fd, key, q);
    }
  }

  lemma LeaveList(db: Db, fd: Fd, key: Key)
    requires Consistent(db) && fd in db.users && key in db.groups && InGroup(db.users[fd], key)
    ensures var players := db.groups[key].players;
      && (db.groups[key].playercount == 1 <==> !exists f :: f in players && f != fd)
      && (exists i :: 0 <= i < |players| && players[i] == fd && Remove(players, fd) == players[..i] + players[i + 1..])
  {
    GroupDistinct(db, key);
    assert DbInv(db);
    assert GroupOk(db, key);
    var players := db.groups[key].players;
    var i := RemoveOne(players, fd);
    if |players| > 1 {
      var other := players[if i == 0 then 1 else 0];
      assert other in players && other != fd;
    }
  }

  lemma LeaveTells(db: Db, fd: Fd, key: Key, q: Fd)
    requires Consistent(db) && fd in db.users && key in db.groups && InGroup(db.users[fd], key) && q in db.inbox
    ensures var players := db.groups[key].players;
      && q in LeaveInbox(db, fd, players)
      && if q in players && q != fd then LeaveToldTo(db, LeaveInbox(db, fd, players)[q], fd, players, q)
         else LeaveInbox(db, fd, players)[q] == db.inbox[q]
  {
    var players, ip := db.groups[key].players, db.users[fd].ip;
    GroupDistinct(db, key);
    LeaveInboxTo(db, fd, players, q);
    RemoveDistinct(players, fd);
    if q in players && q != fd {
      AddressCounted(db.users, players, ip);
      PresentedAgain(db.users, players, fd, ip, q);
      forall f | f in Again(db.users, players, fd, ip, q) ensures f in db.users && db.users[f].id.Some? {
        assert InGroup(db.users[f], key);
      }
      ToldInOrder(db, fd, players, q);
      Regroup(db.inbox[q], Times(DisconnectReply(ip), CountIp(db.users, players, ip)),
              PresentAll(db.users, Again(db.users, players, fd, ip, q)));
    }
  }

  lemma ToldInOrder(db: Db, fd: Fd, players: seq<Fd>, q: Fd)
    requires fd in db.users && q in db.inbox
    requires forall f :: f in Again(db.users, players, fd, db.users[fd].ip, q) ==> f in db.users && db.users[f].id.Some?
    ensures var ip := db.users[fd].ip;
      LeaveToldTo(db, db.inbox[q] + Times(DisconnectReply(ip), |AtAddress(db.users, players, ip)|)
                      + PresentAll(db.users, Again(db.users, players, fd, ip, q)), fd, players, q)
  {
    var ip := db.users[fd].ip;
    AllTimes(DisconnectReply(ip), |AtAddress(db.users, players, ip)|);
    PresentedInOrder(db.users, Again(db.users, players, fd, ip, q));
  }

  // --- Logging in ---

  /** The game a user enters: the text of the code in its packet, or of the first nine characters of
      what that code is linked to. */
  lemma GameEntered(links: Crosslinks, code: Bytes)
    ensures var source, game := if code in links then links[code] else code, GameCode(links, code);
      && game <= source && (forall i :: 0 <= i < |game| ==> game[i] != 0)
      && (code in links ==> |game| <= 9)
      && (|game| < |source| ==> source[|game|] == 0 || (code in links && |game| == 9))
  {
    if code in links {
      TextIsBeginning(if |links[code]| <= PRODUCT_CODE_LENGTH then links[code] else links[code][..PRODUCT_CODE_LENGTH]);
    } else {
      TextIsBeginning(code);
    }
  }

  /** A credible login makes the user a player of its game, which is there from then on. */
  lemma LoginEffect(db: Db, links: Crosslinks, fd: Fd, r: RecvResult, now: nat, data: Identity, more: Bytes)
    requires Consistent(db) && Arrived(db, fd, r, now, LoginRequest(data), more) && Credible(data)
    ensures fd in db.hist && Linked(db, fd)
    ensures var db', code := Turn(db, links, fd, r, now), GameCode(links, data.game);
      && fd in db'.users && db'.users[fd].id == Some(Identity(data.mac, data.name, code))
      && db'.users[fd].group == None && db'.users[fd].rx == more && OthersSame(db, db', fd)
      && code in db'.games && (forall c :: c != code ==> (c in db'.games <==> c in db.games))
      && (forall c :: c in db.games && c != code ==> db'.games[c] == db.games[c])
      && db'.games[code] == (if code in db.games then db.games[code].(playercount := db.games[code].playercount + 1) else Game(1, 0, []))
      && db'.groups == db.groups && db'.inbox == db.inbox
  {
    TurnActs(db, links, fd, r, now, LoginRequest(data), more);
    CredibleIsValid(data);
    var db1 := Taken(db, fd, r, now, LoginRequest(data));
    LoginConcerns(db1, links, fd, data);
  }

  // --- Connecting and shutting down ---

  /** A connection is accepted exactly when there is room and nobody has its address. */
  lemma AcceptedIf(db: Db, fd: Fd, ip: nat, port: nat, now: nat)
    requires Consistent(db)
    ensures LoginStream(db, fd, ip, port, now).Some? <==>
      |db.users| < 1024 && forall f :: f in db.users ==> !(db.users[f].ip == ip && db.users[f].port == port)
  {
    assert DbInv(db);
    DistinctCount(db.userList, db.users.Keys);
    assert |db.users| == |db.users.Keys|;
  }

  /** It stands first on the user list, with nothing received, sent or known about it. */
  lemma AcceptEffect(db: Db, fd: Fd, ip: nat, port: nat, now: nat)
    requires LoginStream(db, fd, ip, port, now).Some?
    ensures var db' := LoginStream(db, fd, ip, port, now).value;
      && db'.users.Keys == db.users.Keys + {fd} && OthersSame(db, db', fd)
      && (var u := db'.users[fd];
          u.ip == ip && u.port == port && u.lastRecv == now && u.rx == [] && u.id == None && u.group == None)
      && db'.userList == [fd] + db.userList && db'.inbox == db.inbox[fd := []]
      && db'.games == db.games && db'.groups == db.groups
  {
    var db' := LoginStream(db, fd, ip, port, now).value;
    assert db'.users - {fd} == db.users - {fd};
  }

  /** The notice of a shutdown reaches every user in a group once, and nobody else. */
  lemma NoticeEffect(db: Db, message: Bytes, q: Fd)
    requires Consistent(db) && q in db.inbox
    ensures var inbox := Notice(db.inbox, db.users, db.userList, message);
      q in inbox && inbox[q] == db.inbox[q] +
        (if q in db.users && db.users[q].group.Some? then [ChatReply(message, [])] else [])
  {
    assert DbInv(db);
    NoticeTo(db.inbox, db.users, db.userList, message, q);
  }

  lemma {:induction false} NoticeTo(inbox: Inbox, users: map<Fd, User>, list: seq<Fd>, message: Bytes, q: Fd)
    requires q in inbox && Distinct(list)
    ensures var inbox' := Notice(inbox, users, list, message);
      q in inbox' && inbox'[q] == inbox[q] +
        (if q in list && q in users && users[q].group.Some? then [ChatReply(message, [])] else [])
    decreases |list|
  {
    if list != [] {
      assert list == [list[0]] + list[1..] && list[0] !in list[1..];
      NoticeTo(if list[0] in users && users[list[0]].group.Some? then Post(inbox, list[0], ChatReply(message, [])) else inbox,
               users, list[1..], message, q);
    }
  }
}
