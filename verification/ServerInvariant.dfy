/** The consistency of the server database over every run: its counters, its lists and the
    links between users, games and groups. */
module ServerInvariant {
  import opened ServerSpec

  ghost predicate Distinct<T>(s: seq<T>) {
    forall i, j :: 0 <= i < j < |s| ==> s[i] != s[j]
  }

  ghost predicate Plays(u: User, code: Bytes) {
    u.id.Some? && u.id.value.game == code
  }

  ghost predicate InGroup(u: User, key: Key) {
    Plays(u, key.0) && u.group == Some(key.1)
  }

  ghost function PlayersOf(users: map<Fd, User>, code: Bytes): set<Fd> {
    set fd | fd in users && Plays(users[fd], code)
  }

  /** The user list holds every user once, at most the maximum, with distinct addresses. */
  ghost predicate UsersOk(db: Db) {
    && |db.userList| == db.userCount <= SERVER_USER_MAXIMUM
    && Distinct(db.userList) && (forall fd :: fd in db.userList <==> fd in db.users)
    && AddressesApart(db.users)
  }

  ghost predicate AddressesApart(users: map<Fd, User>) {
    forall a, b {:trigger SameAddress(users[a], users[b])} ::
      a in users && b in users && a != b ==> !SameAddress(users[a], users[b])
  }

  ghost predicate SameAddress(u: User, v: User) {
    u.ip == v.ip && u.port == v.port
  }

  /** A user in a group plays the game of the group, and both exist. */
  ghost predicate LinksOk(db: Db) {
    forall fd :: fd in db.users ==> UserLinked(db, db.users[fd])
  }

  ghost predicate UserLinked(db: Db, u: User) {
    && (u.id.Some? ==> u.id.value.game in db.games)
    && (u.group.Some? ==> u.id.Some? && (u.id.value.game, u.group.value) in db.groups)
  }

  /** The counters of a game are its real numbers of players and groups, and it has players. */
  ghost predicate GameOk(db: Db, code: Bytes)
    requires code in db.games
  {
    var game := db.games[code];
    && game.playercount == |PlayersOf(db.users, code)| > 0
    && game.groupcount == |game.groups| && Distinct(game.groups)
    && (forall name :: name in game.groups <==> (code, name) in db.groups)
  }

  ghost predicate GamesOk(db: Db) {
    && Distinct(db.gameList) && (forall code :: code in db.gameList <==> code in db.games)
    && (forall code :: code in db.games ==> GameOk(db, code))
  }

  /** The player list of a group holds exactly the users linked to it, once each, and its
      counter is its length, never 0. */
  ghost predicate GroupOk(db: Db, key: Key)
    requires key in db.groups
  {
    var group := db.groups[key];
    && key.0 in db.games
    && group.playercount == |group.players| > 0 && Distinct(group.players)
    && (forall fd :: fd in group.players <==> fd in db.users && InGroup(db.users[fd], key))
  }

  ghost predicate GroupsOk(db: Db) {
    forall key :: key in db.groups ==> GroupOk(db, key)
  }

  ghost predicate StreamsOk(db: Db) {
    && db.inbox.Keys == db.hist.Keys && db.users.Keys <= db.hist.Keys
  }

  ghost predicate DbInv(db: Db) {
    UsersOk(db) && LinksOk(db) && GamesOk(db) && GroupsOk(db) && StreamsOk(db)
  }

  /** The invariant again, for proofs that pass it on without looking into it. */
  ghost predicate Consistent(db: Db) {
    forall v {:trigger DbInv(v)} :: v == db ==> DbInv(v)
  }

  // ----- lists -----

  lemma {:induction false} RemoveDistinct<T>(s: seq<T>, x: T)
    requires Distinct(s)
    ensures Distinct(Remove(s, x))
    ensures forall y :: y in Remove(s, x) <==> y in s && y != x
    ensures |Remove(s, x)| == |s| - (if x in s then 1 else 0)
  {
    if s != [] {
      assert s == [s[0]] + s[1..];
      if s[0] != x {
        RemoveDistinct(s[1..], x);
        var rest := Remove(s[1..], x);
        assert Remove(s, x) == [s[0]] + rest;
        assert forall i :: 0 <= i < |rest| ==> rest[i] in rest;
      } else {
        assert x !in s[1..];
      }
    }
  }

  lemma {:induction false} DistinctCount<T>(s: seq<T>, all: set<T>)
    requires Distinct(s) && forall x :: x in s <==> x in all
    ensures |all| == |s|
  {
    if s == [] {
      assert all == {};
    } else {
      var last := s[|s| - 1];
      assert s == s[..|s| - 1] + [last];
      DistinctCount(s[..|s| - 1], all - {last});
    }
  }

  // ----- sending never touches anything but the inboxes -----

  lemma {:induction false} PostTimesKeys(inbox: Inbox, fd: Fd, p: Reply, n: nat)
    ensures PostTimes(inbox, fd, p, n).Keys == inbox.Keys
  {
    if n > 0 { PostTimesKeys(Post(inbox, fd, p), fd, p, n - 1); }
  }

  lemma {:induction false} LeaveNoticesKeys(inbox: Inbox, players: seq<Fd>, ip: nat, n: nat)
    ensures LeaveNotices(inbox, players, ip, n).Keys == inbox.Keys
    decreases |players|
  {
    if players != [] {
      PostTimesKeys(inbox, players[0], DisconnectReply(ip), n);
      LeaveNoticesKeys(PostTimes(inbox, players[0], DisconnectReply(ip), n), players[1..], ip, n);
    }
  }

  lemma {:induction false} PresentToKeys(inbox: Inbox, users: map<Fd, User>, fd: Fd, players: seq<Fd>)
    ensures PresentTo(inbox, users, fd, players).Keys == inbox.Keys
    decreases |players|
  {
    if players != [] {
      PresentToKeys(if players[0] != fd then Post(inbox, players[0], Presents(users, fd)) else inbox, users, fd, players[1..]);
    }
  }

  lemma {:induction false} ReconnectsKeys(inbox: Inbox, users: map<Fd, User>, players: seq<Fd>, todo: seq<Fd>, ip: nat)
    ensures Reconnects(inbox, users, players, todo, ip).Keys == inbox.Keys
    decreases |todo|
  {
    if todo != [] {
      PresentToKeys(inbox, users, todo[0], players);
      ReconnectsKeys(if IpOf(users, todo[0]) == ip then PresentTo(inbox, users, todo[0], players) else inbox,
                     users, players, todo[1..], ip);
    }
  }

  lemma {:induction false} JoinNoticesKeys(inbox: Inbox, users: map<Fd, User>, fd: Fd, players: seq<Fd>)
    ensures JoinNotices(inbox, users, fd, players).Keys == inbox.Keys
    decreases |players|
  {
    if players != [] {
      JoinNoticesKeys(Post(Post(inbox, players[0], Presents(users, fd)), fd, Presents(users, players[0])), users, fd, players[1..]);
    }
  }

  lemma {:induction false} PostAllKeys(inbox: Inbox, fd: Fd, ps: seq<Reply>)
    ensures PostAll(inbox, fd, ps).Keys == inbox.Keys
    decreases |ps|
  {
    if ps != [] { PostAllKeys(Post(inbox, fd, ps[0]), fd, ps[1..]); }
  }

  lemma {:induction false} ChatToKeys(inbox: Inbox, fd: Fd, players: seq<Fd>, p: Reply)
    ensures ChatTo(inbox, fd, players, p).Keys == inbox.Keys
    decreases |players|
  {
    if players != [] { ChatToKeys(if players[0] == fd then inbox else Post(inbox, players[0], p), fd, players[1..], p); }
  }

  lemma {:induction false} NoticeKeys(inbox: Inbox, users: map<Fd, User>, list: seq<Fd>, message: Bytes)
    ensures Notice(inbox, users, list, message).Keys == inbox.Keys
    decreases |list|
  {
    if list != [] {
      NoticeKeys(if list[0] in users && users[list[0]].group.Some? then Post(inbox, list[0], ChatReply(message, [])) else inbox,
                 users, list[1..], message);
    }
  }

  // ----- operations -----

  /** A change of a user that keeps its address, game and group. */
  ghost predicate SameLinks(u: User, u': User) {
    u'.ip == u.ip && u'.port == u.port && u'.id == u.id && u'.group == u.group
  }

  lemma UserChangeUsers(db: Db, fd: Fd, u: User)
    requires UsersOk(db) && fd in db.users && SameLinks(db.users[fd], u)
    ensures UsersOk(db.(users := db.users[fd := u]))
  {
    SameAddresses(db.users, fd, u);
  }

  lemma SameAddresses(users: map<Fd, User>, fd: Fd, u: User)
    requires AddressesApart(users) && fd in users && SameAddress(users[fd], u)
    ensures AddressesApart(users[fd := u])
  {
    var users' := users[fd := u];
    forall a, b | a in users' && b in users' && a != b ensures !SameAddress(users'[a], users'[b]) {
      assert !SameAddress(users[a], users[b]);
    }
  }

  lemma UserChangeLinks(db: Db, fd: Fd, u: User)
    requires LinksOk(db) && GamesOk(db) && GroupsOk(db) && fd in db.users && SameLinks(db.users[fd], u)
    ensures var db' := db.(users := db.users[fd := u]); LinksOk(db') && GamesOk(db') && GroupsOk(db')
  {
    var db' := db.(users := db.users[fd := u]);
    forall code | code in db'.games ensures GameOk(db', code) {
      assert GameOk(db, code);
      assert PlayersOf(db'.users, code) == PlayersOf(db.users, code);
    }
    forall key | key in db'.groups ensures GroupOk(db', key) {
      assert GroupOk(db, key);
    }
    forall f | f in db'.users ensures UserLinked(db', db'.users[f]) {
      assert UserLinked(db, db.users[f]);
    }
  }

  lemma UserChangeKeeps(db: Db, fd: Fd, u: User)
    requires DbInv(db) && fd in db.users && SameLinks(db.users[fd], u)
    ensures DbInv(db.(users := db.users[fd := u]))
  {
    UserChangeUsers(db, fd, u);
    UserChangeLinks(db, fd, u);
  }

  lemma LoginStreamKeeps(db: Db, fd: Fd, ip: nat, port: nat, now: nat)
    requires DbInv(db) && fd !in db.hist && LoginStream(db, fd, ip, port, now).Some?
    ensures DbInv(LoginStream(db, fd, ip, port, now).value)
  {
    var db' := LoginStream(db, fd, ip, port, now).value;
    forall code | code in db'.games ensures GameOk(db', code) {
      assert GameOk(db, code);
      assert PlayersOf(db'.users, code) == PlayersOf(db.users, code);
    }
    forall key | key in db'.groups ensures GroupOk(db', key) {
      assert GroupOk(db, key);
    }
    forall f | f in db'.users ensures UserLinked(db', db'.users[f]) {
      assert f != fd ==> UserLinked(db, db.users[f]);
    }
  }

  lemma Found(db: Db, fd: Fd)
    requires DbInv(db) && fd in db.users
    ensures Linked(db, fd)
  {
    assert UserLinked(db, db.users[fd]);
  }

  // ----- leaving a group -----

  ghost function KeyOf(u: User): Key
    requires u.id.Some? && u.group.Some?
  {
    (u.id.value.game, u.group.value)
  }

  lemma LeaveInboxKeys(db: Db, fd: Fd, players: seq<Fd>)
    ensures LeaveInbox(db, fd, players).Keys == db.inbox.Keys
  {
    var ip, rest := IpOf(db.users, fd), Remove(players, fd);
    LeaveNoticesKeys(db.inbox, rest, ip, CountIp(db.users, players, ip));
    ReconnectsKeys(LeaveNotices(db.inbox, rest, ip, CountIp(db.users, players, ip)), db.users, rest, rest, ip);
  }

  lemma SamePlayers(users: map<Fd, User>, fd: Fd, u: User)
    requires fd in users && u.id == users[fd].id
    ensures forall code :: PlayersOf(users[fd := u], code) == PlayersOf(users, code)
  {
    forall code ensures PlayersOf(users[fd := u], code) == PlayersOf(users, code) {
    }
  }

  /** The database after user fd has left group key; `freed` when it was the last one. */
  ghost predicate Left(db: Db, db': Db, fd: Fd, key: Key, freed: bool) {
    && fd in db.users && InGroup(db.users[fd], key) && key in db.groups && key.0 in db.games
    && db'.users == db.users[fd := db.users[fd].(group := None)]
    && db'.userList == db.userList && db'.userCount == db.userCount
    && db'.gameList == db.gameList && db'.hist == db.hist && db'.inbox.Keys == db.inbox.Keys
    && db'.clock == db.clock
    && freed == (db.groups[key].playercount == 1)
    && var game := db.games[key.0];
       if freed then
         && db'.groups == db.groups - {key}
         && db'.games == db.games[key.0 := game.(groups := Remove(game.groups, key.1), groupcount := game.groupcount - 1)]
       else
         && db'.groups == db.groups[key := Group(db.groups[key].playercount - 1, Remove(db.groups[key].players, fd))]
         && db'.games == db.games
  }

  lemma LeaveGroupLeft(db: Db, fd: Fd)
    requires DbInv(db) && fd in db.users && db.users[fd].group.Some?
    ensures Linked(db, fd)
    ensures Left(db, LeaveGroup(db, fd), fd, KeyOf(db.users[fd]), db.groups[KeyOf(db.users[fd])].playercount == 1)
  {
    Found(db, fd);
    LeaveInboxKeys(db, fd, db.groups[KeyOf(db.users[fd])].players);
  }

  lemma LeftGames(db: Db, db': Db, fd: Fd, key: Key, freed: bool)
    requires DbInv(db) && Left(db, db', fd, key, freed)
    ensures GamesOk(db')
  {
    SamePlayers(db.users, fd, db.users[fd].(group := None));
    assert GroupOk(db, key) && GameOk(db, key.0);
    RemoveDistinct(db.games[key.0].groups, key.1);
    forall code | code in db'.games ensures GameOk(db', code) {
      assert GameOk(db, code);
    }
  }

  lemma LeftGroup(db: Db, db': Db, fd: Fd, key: Key, freed: bool, k: Key)
    requires DbInv(db) && Left(db, db', fd, key, freed) && k in db'.groups
    ensures GroupOk(db', k)
  {
    assert GroupOk(db, k);
    RemoveDistinct(db.groups[key].players, fd);
  }

  lemma LeftLinks(db: Db, db': Db, fd: Fd, key: Key, freed: bool)
    requires DbInv(db) && Left(db, db', fd, key, freed)
    ensures LinksOk(db')
  {
    assert GroupOk(db, key);
    var players := db.groups[key].players;
    assert fd in players;
    assert freed ==> players == [fd];
    forall f | f in db'.users ensures UserLinked(db', db'.users[f]) {
      assert UserLinked(db, db.users[f]);
    }
  }

  lemma LeaveGroupKeeps(db: Db, fd: Fd)
    requires DbInv(db) && fd in db.users && db.users[fd].group.Some?
    ensures Linked(db, fd) && DbInv(LeaveGroup(db, fd))
    ensures LeaveGroup(db, fd).users == db.users[fd := db.users[fd].(group := None)]
  {
    LeaveGroupLeft(db, fd);
    var key, db' := KeyOf(db.users[fd]), LeaveGroup(db, fd);
    var freed := db.groups[key].playercount == 1;
    LeftGames(db, db', fd, key, freed);
    LeftLinks(db, db', fd, key, freed);
    forall k | k in db'.groups ensures GroupOk(db', k) {
      LeftGroup(db, db', fd, key, freed, k);
    }
    LeftUsers(db, db', fd, key, freed);
  }

  lemma LeftUsers(db: Db, db': Db, fd: Fd, key: Key, freed: bool)
    requires UsersOk(db) && StreamsOk(db) && Left(db, db', fd, key, freed)
    ensures UsersOk(db') && StreamsOk(db')
  {
    SameAddresses(db.users, fd, db'.users[fd]);
  }

  // ----- logging out -----

  lemma PlayersWithout(users: map<Fd, User>, fd: Fd, code: Bytes)
    requires fd in users
    ensures PlayersOf(users - {fd}, code) == PlayersOf(users, code) - {fd}
    ensures |PlayersOf(users - {fd}, code)| == |PlayersOf(users, code)| - (if Plays(users[fd], code) then 1 else 0)
  {
    assert PlayersOf(users - {fd}, code) == PlayersOf(users, code) - {fd};
    assert Plays(users[fd], code) ==> fd in PlayersOf(users, code);
  }

  lemma DropUserUsers(db: Db, fd: Fd)
    requires DbInv(db) && fd in db.users && Linked(db, fd)
    ensures UsersOk(DropUser(db, fd)) && StreamsOk(DropUser(db, fd))
  {
    RemoveDistinct(db.userList, fd);
  }

  lemma DropUserGame(db: Db, fd: Fd, code: Bytes)
    requires DbInv(db) && fd in db.users && Linked(db, fd)
    requires code in DropUser(db, fd).games
    ensures code in db.games && GameOk(DropUser(db, fd), code)
  {
    GameWithout(db, DropUser(db, fd), fd, code);
  }

  lemma GameWithout(db: Db, db': Db, fd: Fd, code: Bytes)
    requires GamesOk(db) && fd in db.users && code in db.games && code in db'.games
    requires db'.users == db.users - {fd} && db'.groups == db.groups
    requires var game, left := db.games[code], if Plays(db.users[fd], code) then 1 else 0;
      game.playercount - left != 0 && db'.games[code] == game.(playercount := game.playercount - left)
    ensures GameOk(db', code)
  {
    assert GameOk(db, code);
    PlayersWithout(db.users, fd, code);
  }

  lemma DropUserGroup(db: Db, fd: Fd, key: Key)
    requires DbInv(db) && fd in db.users && Linked(db, fd) && db.users[fd].group.None?
    requires key in db.groups
    ensures GroupOk(DropUser(db, fd), key)
  {
    assert GroupOk(db, key);
    GameStays(db, fd, key);
  }

  /** The game of a group has a player besides a user in no group. */
  lemma GameStays(db: Db, fd: Fd, key: Key)
    requires GamesOk(db) && key in db.groups && GroupOk(db, key) && fd in db.users && db.users[fd].group.None?
    ensures key.0 in db.games
    ensures Plays(db.users[fd], key.0) ==> db.games[key.0].playercount > 1
  {
    assert GameOk(db, key.0);
    var first := db.groups[key].players[0];
    assert first in db.groups[key].players;
    PlayersWithout(db.users, fd, key.0);
    assert first in PlayersOf(db.users - {fd}, key.0);
  }

  lemma DropUserLink(db: Db, fd: Fd, f: Fd)
    requires DbInv(db) && fd in db.users && Linked(db, fd) && f in db.users && f != fd
    ensures UserLinked(DropUser(db, fd), db.users[f])
  {
    assert UserLinked(db, db.users[f]);
    if db.users[f].id.Some? {
      var code := db.users[f].id.value.game;
      assert GameOk(db, code);
      PlayersWithout(db.users, fd, code);
      assert f in PlayersOf(db.users - {fd}, code);
    }
  }

  /** User fd is gone, the others and the histories are as they were. */
  ghost predicate Gone(db: Db, db': Db, fd: Fd) {
    && db'.users == db.users - {fd} && db'.userList == Remove(db.userList, fd)
    && db'.hist == db.hist && db'.clock == db.clock
  }

  lemma DropUserKeeps(db: Db, fd: Fd)
    requires DbInv(db) && fd in db.users && db.users[fd].group.None?
    ensures Linked(db, fd) && DbInv(DropUser(db, fd))
  {
    Found(db, fd);
    DropUserUsers(db, fd);
    DropUserGames(db, fd);
    DropUserGroups(db, fd);
  }

  lemma DropUserGames(db: Db, fd: Fd)
    requires DbInv(db) && fd in db.users && Linked(db, fd)
    ensures GamesOk(DropUser(db, fd))
  {
    var db' := DropUser(db, fd);
    if db.users[fd].id.Some? {
      RemoveDistinct(db.gameList, db.users[fd].id.value.game);
    }
    forall code | code in db'.games ensures GameOk(db', code) {
      DropUserGame(db, fd, code);
    }
  }

  lemma DropUserGroups(db: Db, fd: Fd)
    requires DbInv(db) && fd in db.users && Linked(db, fd) && db.users[fd].group.None?
    ensures GroupsOk(DropUser(db, fd)) && LinksOk(DropUser(db, fd))
  {
    var db' := DropUser(db, fd);
    forall key | key in db'.groups ensures GroupOk(db', key) {
      DropUserGroup(db, fd, key);
    }
    forall f | f in db'.users ensures UserLinked(db', db'.users[f]) {
      DropUserLink(db, fd, f);
    }
  }

  lemma DropUserGone(db: Db, fd: Fd)
    requires Linked(db, fd)
    ensures Gone(db, DropUser(db, fd), fd)
  {
  }

  lemma LogoutGone(db: Db, fd: Fd)
    requires DbInv(db) && fd in db.users
    ensures Linked(db, fd) && Gone(db, Logout(db, fd), fd)
  {
    Found(db, fd);
    if db.users[fd].group.Some? {
      LeaveGroupLeft(db, fd);
      var db1 := LeaveGroup(db, fd);
      assert Linked(db1, fd) by {
        LeaveGroupKeeps(db, fd);
        Found(db1, fd);
      }
      DropUserGone(db1, fd);
      assert db.users[fd := db.users[fd].(group := None)] - {fd} == db.users - {fd};
    } else {
      DropUserGone(db, fd);
    }
  }

  lemma LogoutKeeps(db: Db, fd: Fd)
    requires DbInv(db) && fd in db.users
    ensures Linked(db, fd) && DbInv(Logout(db, fd))
  {
    Found(db, fd);
    if db.users[fd].group.Some? {
      LeaveGroupKeeps(db, fd);
      DropUserKeeps(LeaveGroup(db, fd), fd);
    } else {
      DropUserKeeps(db, fd);
    }
  }

  // ----- logging in -----

  lemma PlayersWith(users: map<Fd, User>, fd: Fd, u: User, code: Bytes)
    requires fd in users && users[fd].id.None?
    ensures PlayersOf(users[fd := u], code) == PlayersOf(users, code) + (if Plays(u, code) then {fd} else {})
    ensures |PlayersOf(users[fd := u], code)| == |PlayersOf(users, code)| + (if Plays(u, code) then 1 else 0)
  {
    assert PlayersOf(users[fd := u], code) == PlayersOf(users, code) + (if Plays(u, code) then {fd} else {});
    assert fd !in PlayersOf(users, code);
  }

  lemma NoPlayersYet(db: Db, code: Bytes)
    requires DbInv(db) && code !in db.games
    ensures PlayersOf(db.users, code) == {} && forall key :: key in db.groups ==> key.0 != code
  {
    forall fd | fd in db.users ensures !Plays(db.users[fd], code) {
      assert UserLinked(db, db.users[fd]);
    }
    forall key | key in db.groups ensures key.0 != code {
      assert GroupOk(db, key);
    }
  }

  lemma LoginDataGame(db: Db, links: Crosslinks, fd: Fd, data: Identity, code: Bytes)
    requires DbInv(db) && fd in db.users && Linked(db, fd) && db.users[fd].id.None? && ValidLogin(data)
    requires code in LoginData(db, links, fd, data).games
    ensures GameOk(LoginData(db, links, fd, data), code)
  {
    var joined := GameCode(links, data.game);
    PlayersWith(db.users, fd, db.users[fd].(id := Some(data.(game := joined))), code);
    if code in db.games {
      assert GameOk(db, code);
    } else {
      NoPlayersYet(db, code);
    }
  }

  lemma LoginDataKeeps(db: Db, links: Crosslinks, fd: Fd, data: Identity)
    requires DbInv(db) && fd in db.users && db.users[fd].id.None?
    ensures Linked(db, fd) && DbInv(LoginData(db, links, fd, data))
  {
    Found(db, fd);
    if ValidLogin(data) {
      var db' := LoginData(db, links, fd, data);
      LoginDataUsers(db, links, fd, data);
      forall code | code in db'.games ensures GameOk(db', code) {
        LoginDataGame(db, links, fd, data, code);
      }
      LoginDataLinks(db, links, fd, data);
    } else {
      LogoutKeeps(db, fd);
    }
  }

  lemma LoginDataLinks(db: Db, links: Crosslinks, fd: Fd, data: Identity)
    requires DbInv(db) && fd in db.users && Linked(db, fd) && db.users[fd].id.None? && ValidLogin(data)
    ensures GroupsOk(LoginData(db, links, fd, data)) && LinksOk(LoginData(db, links, fd, data))
  {
    var db' := LoginData(db, links, fd, data);
    assert db.users[fd].group.None?;
    assert db.games.Keys <= db'.games.Keys && db'.groups == db.groups;
    assert forall f :: f in db.users && f != fd ==> db'.users[f] == db.users[f];
    forall key | key in db'.groups ensures GroupOk(db', key) {
      assert GroupOk(db, key);
    }
    forall f | f in db'.users ensures UserLinked(db', db'.users[f]) {
      assert UserLinked(db, db.users[f]);
    }
  }

  lemma LoginDataUsers(db: Db, links: Crosslinks, fd: Fd, data: Identity)
    requires DbInv(db) && fd in db.users && Linked(db, fd) && ValidLogin(data)
    ensures var db' := LoginData(db, links, fd, data);
      && UsersOk(db') && StreamsOk(db')
      && Distinct(db'.gameList) && (forall code :: code in db'.gameList <==> code in db'.games)
  {
    SameAddresses(db.users, fd, LoginData(db, links, fd, data).users[fd]);
  }

  // ----- joining a group -----

  /** The database after user fd has joined group key. */
  ghost predicate Joined(db: Db, db': Db, fd: Fd, key: Key) {
    && fd in db.users && db.users[fd].group.None? && Plays(db.users[fd], key.0) && key.0 in db.games
    && fd in db'.users && db'.users == db.users[fd := db'.users[fd]]
    && db'.users[fd].ip == db.users[fd].ip && db'.users[fd].port == db.users[fd].port
    && db'.users[fd].id == db.users[fd].id && db'.users[fd].group == Some(key.1)
    && db'.userList == db.userList && db'.userCount == db.userCount
    && db'.gameList == db.gameList && db'.hist == db.hist && db'.inbox.Keys == db.inbox.Keys
    && var game := db.games[key.0];
       if key in db.groups then
         && db'.games == db.games
         && db'.groups == db.groups[key := Group(db.groups[key].playercount + 1, [fd] + db.groups[key].players)]
       else
         && db'.games == db.games[key.0 := game.(groups := [key.1] + game.groups, groupcount := game.groupcount + 1)]
         && db'.groups == db.groups[key := Group(1, [fd])]
  }

  lemma JoinGroupJoined(db: Db, fd: Fd, name: Bytes)
    requires Linked(db, fd) && db.users[fd].id.Some? && db.users[fd].group.None?
    ensures Joined(db, JoinGroup(db, fd, name), fd, (db.users[fd].id.value.game, name))
  {
    var key := (db.users[fd].id.value.game, name);
    JoinNoticesKeys(db.inbox, db.users, fd, if key in db.groups then db.groups[key].players else []);
    assert [fd] + [] == [fd];
  }

  lemma JoinedGame(db: Db, db': Db, fd: Fd, key: Key, code: Bytes)
    requires DbInv(db) && Joined(db, db', fd, key) && code in db'.games
    ensures GameOk(db', code)
  {
    assert GameOk(db, code);
    SamePlayers(db.users, fd, db'.users[fd]);
    assert key !in db.groups ==> key.1 !in db.games[key.0].groups by { assert GameOk(db, key.0); }
  }

  lemma JoinedGroup(db: Db, db': Db, fd: Fd, key: Key, k: Key)
    requires DbInv(db) && Joined(db, db', fd, key) && k in db'.groups
    ensures GroupOk(db', k)
  {
    assert k in db.groups ==> GroupOk(db, k);
    if k == key && key !in db.groups {
      forall f | f in db.users ensures !InGroup(db.users[f], key) {
        assert UserLinked(db, db.users[f]);
      }
    }
  }

  lemma JoinGroupKeeps(db: Db, fd: Fd, name: Bytes)
    requires DbInv(db) && fd in db.users && Linked(db, fd) && db.users[fd].id.Some? && db.users[fd].group.None?
    ensures DbInv(JoinGroup(db, fd, name))
  {
    var db', key := JoinGroup(db, fd, name), (db.users[fd].id.value.game, name);
    JoinGroupJoined(db, fd, name);
    JoinedKeeps(db, db', fd, key);
  }

  lemma JoinedKeeps(db: Db, db': Db, fd: Fd, key: Key)
    requires DbInv(db) && Joined(db, db', fd, key)
    ensures DbInv(db')
  {
    JoinedUsers(db, db', fd, key);
    forall code | code in db'.games ensures GameOk(db', code) {
      JoinedGame(db, db', fd, key, code);
    }
    forall k | k in db'.groups ensures GroupOk(db', k) {
      JoinedGroup(db, db', fd, key, k);
    }
  }

  lemma JoinedUsers(db: Db, db': Db, fd: Fd, key: Key)
    requires DbInv(db) && Joined(db, db', fd, key)
    ensures UsersOk(db') && StreamsOk(db') && LinksOk(db')
  {
    assert db.games.Keys <= db'.games.Keys && db.groups.Keys <= db'.groups.Keys;
    SameAddresses(db.users, fd, db'.users[fd]);
    forall f | f in db'.users ensures UserLinked(db', db'.users[f]) {
      assert UserLinked(db, db.users[f]);
    }
  }

  lemma ConnectKeeps(db: Db, fd: Fd, groupname: Bytes)
    requires DbInv(db) && fd in db.users && db.users[fd].id.Some?
    ensures Linked(db, fd) && DbInv(Connect(db, fd, groupname))
  {
    Found(db, fd);
    if !ValidGroupName(groupname) || db.users[fd].group.Some? {
      LogoutKeeps(db, fd);
    } else {
      JoinGroupKeeps(db, fd, CString(groupname));
    }
  }

  // ----- the turn of a connection, and runs -----

  /** New inboxes for the same connections change nothing else. */
  lemma InboxChangeKeeps(db: Db, inbox: Inbox)
    requires DbInv(db) && inbox.Keys == db.inbox.Keys
    ensures DbInv(db.(inbox := inbox))
  {
    var db' := db.(inbox := inbox);
    forall code | code in db'.games ensures GameOk(db', code) { assert GameOk(db, code); }
    forall key | key in db'.groups ensures GroupOk(db', key) { assert GroupOk(db, key); }
    forall f | f in db'.users ensures UserLinked(db', db'.users[f]) { assert UserLinked(db, db.users[f]); }
  }

  lemma HistChangeKeeps(db: Db, hist: map<Fd, History>)
    requires DbInv(db) && hist.Keys == db.hist.Keys
    ensures DbInv(db.(hist := hist))
  {
    var db' := db.(hist := hist);
    forall code | code in db'.games ensures GameOk(db', code) { assert GameOk(db, code); }
    forall key | key in db'.groups ensures GroupOk(db', key) { assert GroupOk(db, key); }
    forall f | f in db'.users ensures UserLinked(db', db'.users[f]) { assert UserLinked(db, db.users[f]); }
  }

  lemma ScanKeeps(db: Db, fd: Fd)
    requires DbInv(db) && fd in db.users && db.users[fd].id.Some?
    ensures Linked(db, fd) && DbInv(Scan(db, fd))
  {
    Found(db, fd);
    if db.users[fd].group.None? {
      var ps := ScanReplies(db, db.users[fd].id.value.game, db.games[db.users[fd].id.value.game].groups);
      PostAllKeys(db.inbox, fd, ps);
      InboxChangeKeeps(db, PostAll(db.inbox, fd, ps));
    } else {
      LogoutKeeps(db, fd);
    }
  }

  lemma ChatKeeps(db: Db, fd: Fd, message: Bytes)
    requires DbInv(db) && fd in db.users && db.users[fd].id.Some?
    ensures Linked(db, fd) && DbInv(Chat(db, fd, message))
  {
    Found(db, fd);
    if db.users[fd].group.Some? {
      var players, p := db.groups[KeyOf(db.users[fd])].players, ChatReply(message, db.users[fd].id.value.name);
      ChatToKeys(db.inbox, fd, players, p);
      InboxChangeKeeps(db, ChatTo(db.inbox, fd, players, p));
    } else {
      LogoutKeeps(db, fd);
    }
  }

  lemma ActKeeps(db: Db, links: Crosslinks, fd: Fd, r: Request)
    requires DbInv(db) && fd in db.users && (r.LoginRequest? <==> db.users[fd].id.None?)
    ensures Linked(db, fd) && DbInv(Act(db, links, fd, r))
  {
    Found(db, fd);
    match r
    case PingRequest =>
    case LoginRequest(data) => LoginDataKeeps(db, links, fd, data);
    case ConnectRequest(group) => ConnectKeeps(db, fd, group);
    case DisconnectRequest =>
      if db.users[fd].group.Some? { LeaveGroupKeeps(db, fd); } else { LogoutKeeps(db, fd); }
    case ScanRequest => ScanKeeps(db, fd);
    case ChatRequest(message) => ChatKeeps(db, fd, message);
  }

  lemma ReceivedKeeps(db: Db, fd: Fd, bytes: Bytes, now: nat)
    requires DbInv(db) && fd in db.users
    ensures fd in db.hist && DbInv(Received(db, fd, bytes, now))
  {
    var u := db.users[fd];
    UserChangeKeeps(db, fd, u.(rx := u.rx + bytes, lastRecv := now));
    HistChangeKeeps(db.(users := db.users[fd := u.(rx := u.rx + bytes, lastRecv := now)]),
                    db.hist[fd := db.hist[fd].(received := db.hist[fd].received + bytes)]);
  }

  lemma ConsumedKeeps(db: Db, fd: Fd, size: nat)
    requires DbInv(db) && fd in db.users && size <= |db.users[fd].rx|
    ensures fd in db.hist && DbInv(Consumed(db, fd, size))
  {
    var u := db.users[fd];
    UserChangeKeeps(db, fd, u.(rx := u.rx[size..]));
    HistChangeKeeps(db.(users := db.users[fd := u.(rx := u.rx[size..])]),
                    db.hist[fd := db.hist[fd].(handled := db.hist[fd].handled + [u.rx[..size]])]);
  }

  lemma PacketKeeps(db: Db, links: Crosslinks, fd: Fd, request: Request, size: nat)
    requires DbInv(db) && fd in db.users && size <= |db.users[fd].rx|
    requires request.LoginRequest? <==> db.users[fd].id.None?
    ensures fd in db.hist && Linked(Consumed(db, fd, size), fd)
    ensures DbInv(Act(Consumed(db, fd, size), links, fd, request))
  {
    ConsumedKeeps(db, fd, size);
    ActKeeps(Consumed(db, fd, size), links, fd, request);
  }

  lemma HandleFrontKeeps(db: Db, links: Crosslinks, fd: Fd)
    requires DbInv(db) && fd in db.users
    ensures Linked(db, fd) && fd in db.hist && DbInv(HandleFront(db, links, fd))
  {
    Found(db, fd);
    var u := db.users[fd];
    if u.rx != [] {
      match FrontPacket(u.id.Some?, u.rx)
      case Incomplete =>
      case BadOpcode => LogoutKeeps(db, fd);
      case Complete(request, size) => PacketKeeps(db, links, fd, request, size);
    }
  }

  lemma StepKeeps(db: Db, links: Crosslinks, e: Event)
    requires DbInv(db)
    ensures DbInv(Step(db, links, e))
  {
    match e
    case Accepted(fd, ip, port, now) =>
      if fd !in db.hist && LoginStream(db, fd, ip, port, now).Some? {
        LoginStreamKeeps(db, fd, ip, port, now);
      }
    case Turned(fd, r, now) =>
      if Linked(db, fd) && fd in db.hist && Possible(db.users[fd], r) {
        if r == Closed || r == Failed || now - db.users[fd].lastRecv >= SERVER_USER_TIMEOUT {
          LogoutKeeps(db, fd);
        } else {
          var bytes := if r.Data? then r.bytes else [];
          ReceivedKeeps(db, fd, bytes, now);
          HandleFrontKeeps(Received(db, fd, bytes, now), links, fd);
        }
      }
  }

  /** The database invariant holds after every run. */
  lemma {:induction false} RunConsistent(links: Crosslinks, events: seq<Event>)
    ensures DbInv(Run(links, events))
  {
    if events != [] {
      RunConsistent(links, events[..|events| - 1]);
      StepKeeps(Run(links, events[..|events| - 1]), links, events[|events| - 1]);
    }
  }

  /** Games, groups and a positive user count need a user. */
  lemma NothingWithoutUsers(db: Db)
    requires DbInv(db)
    ensures db.games != map[] || db.groups != map[] || db.userCount != 0 ==> exists fd :: fd in db.users
  {
    if code :| code in db.games {
      assert GameOk(db, code);
      var fd :| fd in PlayersOf(db.users, code);
    }
    if key :| key in db.groups {
      assert GroupOk(db, key);
      assert db.groups[key].players[0] in db.groups[key].players;
    }
    if db.userList != [] {
      assert db.userList[0] in db.userList;
    }
  }

  lemma {:induction false} LogoutAllEmpties(db: Db, list: seq<Fd>)
    requires DbInv(db) && Distinct(list) && forall fd :: fd in list <==> fd in db.users
    ensures LogoutAll(db, list).users == map[] && LogoutAll(db, list).games == map[]
    ensures LogoutAll(db, list).userCount == 0 && LogoutAll(db, list).groups == map[]
    decreases |list|
  {
    if list == [] {
      NothingWithoutUsers(db);
    } else {
      Found(db, list[0]);
      LogoutKeeps(db, list[0]);
      LogoutGone(db, list[0]);
      assert list == [list[0]] + list[1..];
      LogoutAllEmpties(Logout(db, list[0]), list[1..]);
    }
  }

  /** `free_database` ends with no users, no games and no groups. */
  lemma FreeDatabaseEmpties(links: Crosslinks, events: seq<Event>, message: Bytes)
    ensures var db := FreeDatabase(Run(links, events), message);
      db.users == map[] && db.games == map[] && db.groups == map[] && db.userCount == 0
  {
    var db := Run(links, events);
    RunConsistent(links, events);
    NoticeKeys(db.inbox, db.users, db.userList, message);
    InboxChangeKeeps(db, Notice(db.inbox, db.users, db.userList, message));
    LogoutAllEmpties(if db.userCount > 0 then db.(inbox := Notice(db.inbox, db.users, db.userList, message)) else db, db.userList);
  }
}
