/** The database of the group server as user.c changes it: loops over its lists, and counters
    and links assigned in place. Every operation does what the function of ServerSpec does, and
    keeps the database consistent. */
module ServerDatabase {
  import opened ServerSpec
  import opened ServerInvariant
  import opened LinkedLists

  // --- Checks ---

  /** The loop over the product code of a login packet. */
  method IsProductCode(code: Bytes) returns (valid: bool)
    ensures valid == ValidProductCode(code)
  {
    valid := true;
    var i := 0;
    while i < |code| && valid
      invariant i <= |code|
      invariant valid ==> forall j :: 0 <= j < i ==> Upper(code[j]) || Digit(code[j])
      invariant !valid ==> exists j :: 0 <= j < |code| && !(Upper(code[j]) || Digit(code[j]))
    {
      if !(Upper(code[i]) || Digit(code[i])) {
        valid := false;
      }
      i := i + 1;
    }
  }

  lemma {:induction false} CStringStops(s: Bytes, i: nat)
    requires i <= |s| && (forall j :: 0 <= j < i ==> s[j] != 0) && (i < |s| ==> s[i] == 0)
    ensures CString(s) == s[..i]
  {
    if i > 0 {
      CStringStops(s[1..], i - 1);
      assert s[..i] == [s[0]] + s[1..][..i - 1];
    }
  }

  lemma {:induction false} CStringHolds(s: Bytes, i: nat)
    requires i < |s| && (forall j :: 0 <= j <= i ==> s[j] != 0)
    ensures i < |CString(s)| && CString(s)[i] == s[i]
  {
    if i > 0 { CStringHolds(s[1..], i - 1); }
  }

  predicate NameSymbol(b: nat) { Upper(b) || Lower(b) || Digit(b) }

  /** The loop over a group name, up to its terminator. */
  method IsGroupName(name: Bytes) returns (valid: bool)
    ensures valid == ValidGroupName(name)
  {
    var i := 0;
    while i < |name|
      invariant i <= |name|
      invariant forall j :: 0 <= j < i ==> name[j] != 0 && NameSymbol(name[j])
    {
      if name[i] == 0 {
        break;
      }
      if !NameSymbol(name[i]) {
        CStringHolds(name, i);
        return false;
      }
      i := i + 1;
    }
    CStringStops(name, i);
    valid := true;
  }

  lemma ScanNext(inbox: Inbox, db: Db, fd: Fd, code: Bytes, names: seq<Bytes>, i: nat)
    requires i < |names|
    ensures var players := if (code, names[i]) in db.groups then db.groups[(code, names[i])].players else [];
      PostAll(inbox, fd, ScanReplies(db, code, names[i..]))
        == PostAll(Post(inbox, fd, ScanReply(names[i], FounderMac(db.users, players, []))), fd, ScanReplies(db, code, names[i + 1..]))
  {
    var rest := names[i..];
    assert rest[1..] == names[i + 1..];
    assert ScanReplies(db, code, rest)[1..] == ScanReplies(db, code, rest[1..]);
  }

  /** The first of the list logs out: the others stay in their order. */
  lemma FirstOut(db: Db, list: seq<Fd>)
    requires DbInv(db) && list != [] && db.userList == list
    ensures Linked(db, list[0]) && Logout(db, list[0]).userList == list[1..]
  {
    assert list[0] in list;
    Found(db, list[0]);
  }

  lemma NobodyLeft(db: Db)
    requires DbInv(db) && db.userList == []
    ensures db.users == map[] && db.games == map[] && db.groups == map[]
  {
    assert forall fd :: fd !in db.users;
    NothingWithoutUsers(db);
  }

  /** The lists that a user stands on. */
  lemma Listed(db: Db, fd: Fd)
    requires DbInv(db) && fd in db.users
    ensures Linked(db, fd) && fd in db.userList
    ensures db.users[fd].id.Some? ==> db.users[fd].id.value.game in db.gameList
    ensures db.users[fd].group.Some? ==>
      var u := db.users[fd];
      fd in db.groups[KeyOf(u)].players && u.group.value in db.games[u.id.value.game].groups
  {
    Found(db, fd);
    var u := db.users[fd];
    if u.group.Some? {
      assert GroupOk(db, KeyOf(u)) && GameOk(db, u.id.value.game);
    }
  }

  lemma NotListed(db: Db, fd: Fd, key: Key)
    requires DbInv(db) && fd in db.users && db.users[fd].group.None? && key in db.groups
    ensures fd !in db.groups[key].players
  {
    assert GroupOk(db, key);
  }

  // --- Nodes of games and groups ---

  /** `SceNetAdhocctlGameNode` and `SceNetAdhocctlGroupNode` */
  datatype GameNode = GameNode(playercount: int, groupcount: int, groups: LinkedList<Bytes>)
  datatype GroupNode = GroupNode(playercount: int, players: LinkedList<Fd>)

  ghost predicate GameAs(node: GameNode, game: Game) {
    WellLinked(node.groups) && game == Game(node.playercount, node.groupcount, Order(node.groups))
  }

  ghost predicate GroupAs(node: GroupNode, group: Group) {
    WellLinked(node.players) && group == Group(node.playercount, Order(node.players))
  }

  ghost predicate GamesAs(games: map<Bytes, GameNode>, as': map<Bytes, Game>) {
    games.Keys == as'.Keys && forall code :: code in games ==> GameAs(games[code], as'[code])
  }

  ghost predicate GroupsAs(groups: map<Key, GroupNode>, as': map<Key, Group>) {
    groups.Keys == as'.Keys && forall key :: key in groups ==> GroupAs(groups[key], as'[key])
  }

  class Database {
    var users: map<Fd, User>
    var userList: LinkedList<Fd>
    var userCount: int
    var games: map<Bytes, GameNode>
    var gameList: LinkedList<Bytes>
    var groups: map<Key, GroupNode>
    /** What the nodes of the games and of the groups stand for. */
    ghost var gamesAs: map<Bytes, Game>
    ghost var groupsAs: map<Key, Group>
    /** What was sent on each connection, and the history of each connection. */
    var inbox: Inbox
    var hist: map<Fd, History>
    var clock: nat

    constructor ()
      ensures View() == EMPTY && Valid()
    {
      EmptyLists();
      users, userList, userCount := map[], NO_USERS, 0;
      games, gameList, groups := map[], NO_NAMES, map[];
      gamesAs, groupsAs := map[], map[];
      inbox, hist, clock := map[], map[], 0;
    }

    ghost function View(): Db
      reads this
    {
      Db(users, Order(userList), userCount, gamesAs, Order(gameList), groupsAs, inbox, hist, clock)
    }

    /** The links of every list agree in both directions. */
    ghost predicate Linking()
      reads this
    {
      WellLinked(userList) && WellLinked(gameList) && GamesAs(games, gamesAs) && GroupsAs(groups, groupsAs)
    }

    ghost predicate Valid()
      reads this
    {
      Linking() && Consistent(View())
    }

    method Send(fd: Fd, p: Reply)
      modifies this`inbox
      ensures inbox == Post(old(inbox), fd, p)
    {
      if fd in inbox {
        inbox := inbox[fd := inbox[fd] + [p]];
      }
    }

    // --- Nodes ---

    method PutGame(code: Bytes, game: GameNode)
      requires Linking() && WellLinked(game.groups)
      modifies this`games, this`gamesAs
      ensures Linking() && games == old(games)[code := game]
      ensures gamesAs == old(gamesAs)[code := Game(game.playercount, game.groupcount, Order(game.groups))]
    {
      games := games[code := game];
      gamesAs := gamesAs[code := Game(game.playercount, game.groupcount, Order(game.groups))];
    }

    method FreeGame(code: Bytes)
      requires Linking()
      modifies this`games, this`gamesAs
      ensures Linking() && games == old(games) - {code} && gamesAs == old(gamesAs) - {code}
    {
      games, gamesAs := games - {code}, gamesAs - {code};
    }

    method PutGroup(key: Key, group: GroupNode)
      requires Linking() && WellLinked(group.players)
      modifies this`groups, this`groupsAs
      ensures Linking() && groups == old(groups)[key := group]
      ensures groupsAs == old(groupsAs)[key := Group(group.playercount, Order(group.players))]
    {
      groups := groups[key := group];
      groupsAs := groupsAs[key := Group(group.playercount, Order(group.players))];
    }

    method FreeGroup(key: Key)
      requires Linking()
      modifies this`groups, this`groupsAs
      ensures Linking() && groups == old(groups) - {key} && groupsAs == old(groupsAs) - {key}
    {
      groups, groupsAs := groups - {key}, groupsAs - {key};
    }

    // --- Connections ---

    /** Whether another connection has this address. */
    method HasAddress(ip: nat, port: nat) returns (found: bool)
      requires WellLinked(userList) && UsersOk(View())
      ensures found <==> exists u :: u in users && users[u].ip == ip && users[u].port == port
    {
      ghost var list, i := Order(userList), 0;
      FromStart(userList);
      var u := userList.first;
      while u.Some?
        invariant i <= |list| && u == Place(list, i)
        invariant forall j :: 0 <= j < i ==> list[j] in users && (users[list[j]].ip != ip || users[list[j]].port != port)
        decreases |list| - i
      {
        NextInside(userList, i);
        assert list[i] in list;
        if users[u.value].ip == ip && users[u.value].port == port {
          return true;
        }
        u := userList.links[u.value].next;
        i := i + 1;
      }
      forall f | f in users ensures users[f].ip != ip || users[f].port != port {
        assert f in list;
      }
      found := false;
    }

    /** `login_user_stream`: false if the connection is closed at once. */
    method LoginUserStream(fd: Fd, ip: nat, port: nat, now: nat) returns (accepted: bool)
      requires Valid() && fd !in hist
      modifies this
      ensures Valid()
      ensures LoginStream(old(View()), fd, ip, port, now) == if accepted then Some(View()) else None
      ensures !accepted ==> View() == old(View())
      ensures accepted ==> users.Keys == old(users).Keys + {fd} && users[fd].rx == []
      ensures accepted ==> users - {fd} == old(users) - {fd}
    {
      accepted := false;
      if userCount < SERVER_USER_MAXIMUM {
        assert DbInv(View());
        var duplicate := HasAddress(ip, port);
        if !duplicate {
          Admit(fd, ip, port, now);
          accepted := true;
        }
      }
    }

    method Admit(fd: Fd, ip: nat, port: nat, now: nat)
      requires Valid() && fd !in hist && LoginStream(View(), fd, ip, port, now).Some?
      modifies this
      ensures Valid() && LoginStream(old(View()), fd, ip, port, now) == Some(View())
      ensures users == old(users)[fd := User(ip, port, now, [], None, None, 0, 0)]
    {
      LoginStreamKeeps(View(), fd, ip, port, now);
      AddUser(fd, ip, port, now);
    }

    method AddUser(fd: Fd, ip: nat, port: nat, now: nat)
      requires Linking() && fd !in Order(userList)
      modifies this`users, this`userList, this`userCount, this`inbox, this`hist
      ensures Linking() && users == old(users)[fd := User(ip, port, now, [], None, None, 0, 0)]
      ensures Order(userList) == [fd] + old(Order(userList)) && userCount == old(userCount) + 1
      ensures inbox == old(inbox)[fd := []] && hist == old(hist)[fd := History([], [])]
    {
      users := users[fd := User(ip, port, now, [], None, None, 0, 0)];
      userList := PushFront(userList, fd);
      userCount := userCount + 1;
      inbox, hist := inbox[fd := []], hist[fd := History([], [])];
    }

    /** Walking the game list. */
    method HasGame(code: Bytes) returns (found: bool)
      requires Linking() && GamesOk(View())
      ensures found == (code in games)
    {
      found := Contains(gameList, code);
    }

    /** `login_user_data` */
    method LoginUserData(links: Crosslinks, fd: Fd, data: Identity)
      requires Valid() && fd in users && users[fd].id.None? && users[fd].group.None?
      modifies this
      ensures Valid() && Linked(old(View()), fd) && View() == LoginData(old(View()), links, fd, data)
    {
      Found(View(), fd);
      LoginDataKeeps(View(), links, fd, data);
      var code := IsProductCode(data.game);
      if code && data.mac != Repeated(0xFF, MAC_LEN) && data.mac != Repeated(0, MAC_LEN) && HasName(data.name) {
        EnterGame(GameCode(links, data.game), fd, data);
      } else {
        LogoutUser(fd);
      }
    }

    predicate HasName(name: Bytes) {
      name != [] && name[0] != 0
    }

    method EnterGame(code: Bytes, fd: Fd, data: Identity)
      requires Linking() && GamesOk(View()) && fd in users
      modifies this
      ensures Linking() && View() == Entered(old(View()), code, fd, data)
    {
      FindOrCreateGame(code);
      var game := games[code].(playercount := games[code].playercount + 1);
      PutGame(code, game);
      users := users[fd := users[fd].(id := Some(data.(game := code)))];
    }

    method FindOrCreateGame(code: Bytes)
      requires Linking() && GamesOk(View())
      modifies this`games, this`gamesAs, this`gameList
      ensures Linking() && code in games
      ensures var db := old(View());
        gamesAs == (if code in db.games then db.games else db.games[code := Game(0, 0, [])])
        && Order(gameList) == if code in db.games then db.gameList else [code] + db.gameList
    {
      var known := HasGame(code);
      if !known {
        EmptyLists();
        PutGame(code, GameNode(0, 0, NO_NAMES));
        gameList := PushFront(gameList, code);
      }
    }

    /** `logout_user` */
    method LogoutUser(fd: Fd)
      requires Valid() && fd in users
      modifies this
      ensures Valid() && Linked(old(View()), fd) && View() == Logout(old(View()), fd)
    {
      Listed(View(), fd);
      LogoutKeeps(View(), fd);
      if users[fd].group.Some? {
        LeaveTheGroup(fd);
      }
      FreeUser(fd);
    }

    method FreeUser(fd: Fd)
      requires Linking() && Linked(View(), fd) && users[fd].group.None?
      requires fd in Order(userList) && (users[fd].id.Some? ==> users[fd].id.value.game in Order(gameList))
      modifies this
      ensures Linking() && View() == DropUser(old(View()), fd)
    {
      userList := Unlink(userList, fd);
      if users[fd].id.Some? {
        LeaveGame(users[fd].id.value.game);
      }
      users := users - {fd};
      userCount := userCount - 1;
    }

    method LeaveGame(code: Bytes)
      requires Linking() && code in games && code in Order(gameList)
      modifies this`games, this`gamesAs, this`gameList
      ensures Linking()
      ensures var game := old(gamesAs)[code];
        gamesAs == if game.playercount - 1 == 0 then old(gamesAs) - {code}
                            else old(gamesAs)[code := game.(playercount := game.playercount - 1)]
      ensures Order(gameList) == if old(games)[code].playercount - 1 == 0 then Remove(old(Order(gameList)), code)
                                 else old(Order(gameList))
    {
      var game := games[code].(playercount := games[code].playercount - 1);
      if game.playercount == 0 {
        gameList := Unlink(gameList, code);
        FreeGame(code);
      } else {
        PutGame(code, game);
      }
    }

    // --- Groups ---

    /** `get_num_group_players_with_same_ip` */
    method CountSameIp(players: LinkedList<Fd>, ip: nat) returns (num: nat)
      requires WellLinked(players)
      ensures num == CountIp(users, Order(players), ip)
    {
      num := 0;
      ghost var all, i := Order(players), 0;
      FromStart(players);
      var cur := players.first;
      while cur.Some?
        invariant i <= |all| && cur == Place(all, i)
        invariant num + CountIp(users, all[i..], ip) == CountIp(users, all, ip)
        decreases |all| - i
      {
        NextInside(players, i);
        if IpOf(users, cur.value) == ip {
          num := num + 1;
        }
        cur := players.links[cur.value].next;
        i := i + 1;
      }
    }

    /** n disconnect packets to each remaining player. */
    method SendLeaves(players: LinkedList<Fd>, ip: nat, n: nat)
      requires WellLinked(players)
      modifies this`inbox
      ensures inbox == LeaveNotices(old(inbox), Order(players), ip, n)
    {
      ghost var all, i := Order(players), 0;
      FromStart(players);
      var peer := players.first;
      while peer.Some?
        invariant i <= |all| && peer == Place(all, i)
        invariant LeaveNotices(inbox, all[i..], ip, n) == LeaveNotices(old(inbox), all, ip, n)
        decreases |all| - i
      {
        NextInside(players, i);
        SendTimes(peer.value, DisconnectReply(ip), n);
        peer := players.links[peer.value].next;
        i := i + 1;
      }
    }

    method SendTimes(fd: Fd, p: Reply, n: nat)
      modifies this`inbox
      ensures inbox == PostTimes(old(inbox), fd, p, n)
    {
      for i := 0 to n
        invariant PostTimes(inbox, fd, p, n - i) == PostTimes(old(inbox), fd, p, n)
      {
        Send(fd, p);
      }
    }

    /** `reconnect_players_with_ip` */
    method ReconnectPlayers(players: LinkedList<Fd>, ip: nat)
      requires WellLinked(players)
      modifies this`inbox
      ensures inbox == Reconnects(old(inbox), users, Order(players), Order(players), ip)
    {
      ghost var all, i := Order(players), 0;
      FromStart(players);
      var cur := players.first;
      while cur.Some?
        invariant i <= |all| && cur == Place(all, i)
        invariant Reconnects(inbox, users, all, all[i..], ip) == Reconnects(old(inbox), users, all, all, ip)
        decreases |all| - i
      {
        NextInside(players, i);
        if IpOf(users, cur.value) == ip {
          SendPresence(cur.value, players);
        }
        cur := players.links[cur.value].next;
        i := i + 1;
      }
    }

    method SendPresence(fd: Fd, players: LinkedList<Fd>)
      requires WellLinked(players)
      modifies this`inbox
      ensures inbox == PresentTo(old(inbox), users, fd, Order(players))
    {
      ghost var all, i := Order(players), 0;
      FromStart(players);
      var to := players.first;
      while to.Some?
        invariant i <= |all| && to == Place(all, i)
        invariant PresentTo(inbox, users, fd, all[i..]) == PresentTo(old(inbox), users, fd, all)
        decreases |all| - i
      {
        NextInside(players, i);
        if to.value != fd {
          Send(to.value, Presents(users, fd));
        }
        to := players.links[to.value].next;
        i := i + 1;
      }
    }

    /** `disconnect_user` for a user in a group. */
    method LeaveTheGroup(fd: Fd)
      requires Linking() && Linked(View(), fd) && users[fd].group.Some?
      requires fd in View().groups[KeyOf(users[fd])].players
      requires users[fd].group.value in View().games[users[fd].id.value.game].groups
      modifies this
      ensures Linking() && View() == LeaveGroup(old(View()), fd)
    {
      var u := users[fd];
      var code, name := u.id.value.game, u.group.value;
      var same := CountSameIp(groups[(code, name)].players, u.ip);
      var rest := Unlink(groups[(code, name)].players, fd);
      SendLeaves(rest, u.ip, same);
      ReconnectPlayers(rest, u.ip);
      UnlinkGroup(fd, code, name, rest);
    }

    /** The group without a player; an empty group is taken out of its game and freed. */
    method UnlinkGroup(fd: Fd, code: Bytes, name: Bytes, rest: LinkedList<Fd>)
      requires Linking() && WellLinked(rest)
      requires fd in users && code in games && (code, name) in groups && name in Order(games[code].groups)
      modifies this`users, this`games, this`groups, this`gamesAs, this`groupsAs
      ensures Linking() && users == old(users)[fd := old(users)[fd].(group := None)]
      ensures var db, count := old(View()), old(groups)[(code, name)].playercount - 1;
        && groupsAs == (if count == 0 then db.groups - {(code, name)}
                                  else db.groups[(code, name) := Group(count, Order(rest))])
        && gamesAs == (if count == 0 then db.games[code := WithoutGroup(db.games[code], name)] else db.games)
    {
      var key := (code, name);
      var group := GroupNode(groups[key].playercount - 1, rest);
      if group.playercount == 0 {
        var left := Unlink(games[code].groups, name);
        var game := games[code].(groups := left, groupcount := games[code].groupcount - 1);
        PutGame(code, game);
        FreeGroup(key);
      } else {
        PutGroup(key, group);
      }
      users := users[fd := users[fd].(group := None)];
    }

    /** `disconnect_user` */
    method DisconnectUser(fd: Fd)
      requires Valid() && fd in users
      modifies this
      ensures Valid() && Linked(old(View()), fd) && View() == Disconnect(old(View()), fd)
    {
      Listed(View(), fd);
      if users[fd].group.Some? {
        LeaveGroupKeeps(View(), fd);
        LeaveTheGroup(fd);
      } else {
        LogoutUser(fd);
      }
    }

    /** Walking the group list of a game, and the players of the group if it is there. */
    method FindGroup(code: Bytes, name: Bytes) returns (found: bool, players: LinkedList<Fd>)
      requires Linking() && GamesOk(View()) && code in games
      ensures found == ((code, name) in groups) == (name in Order(games[code].groups))
      ensures WellLinked(players) && (if found then players == groups[(code, name)].players else Order(players) == [])
    {
      assert GameOk(View(), code);
      EmptyLists();
      found := Contains(games[code].groups, name);
      players := if found then groups[(code, name)].players else NO_USERS;
    }

    /** The newcomer is presented to each player and each player to the newcomer; the last of
        them gives the BSSID. */
    method SendJoins(fd: Fd, players: LinkedList<Fd>, mac: Bytes) returns (bssid: Bytes)
      requires WellLinked(players)
      modifies this`inbox
      ensures inbox == JoinNotices(old(inbox), users, fd, Order(players)) && bssid == FounderMac(users, Order(players), mac)
    {
      bssid := mac;
      ghost var all, i := Order(players), 0;
      FromStart(players);
      var peer := players.first;
      while peer.Some?
        invariant i <= |all| && peer == Place(all, i)
        invariant JoinNotices(inbox, users, fd, all[i..]) == JoinNotices(old(inbox), users, fd, all)
        invariant bssid == if i < |all| then mac else FounderMac(users, all, mac)
        decreases |all| - i
      {
        NextInside(players, i);
        Send(peer.value, Presents(users, fd));
        Send(fd, Presents(users, peer.value));
        if players.links[peer.value].next == None && peer.value in users && users[peer.value].id.Some? {
          bssid := users[peer.value].id.value.mac;
        }
        peer := players.links[peer.value].next;
        i := i + 1;
      }
    }

    /** `connect_user` */
    method ConnectUser(fd: Fd, groupname: Bytes)
      requires Valid() && fd in users && users[fd].id.Some?
      modifies this
      ensures Valid() && Linked(old(View()), fd) && View() == Connect(old(View()), fd, groupname)
    {
      Found(View(), fd);
      ConnectKeeps(View(), fd, groupname);
      var valid := IsGroupName(groupname);
      if valid && users[fd].group.None? {
        if (users[fd].id.value.game, CString(groupname)) in groups {
          NotListed(View(), fd, (users[fd].id.value.game, CString(groupname)));
        }
        EnterGroup(fd, CString(groupname));
      } else {
        LogoutUser(fd);
      }
    }

    method EnterGroup(fd: Fd, name: Bytes)
      requires Linking() && GamesOk(View()) && Linked(View(), fd) && users[fd].id.Some?
      requires (users[fd].id.value.game, name) in groups ==> fd !in View().groups[(users[fd].id.value.game, name)].players
      modifies this
      ensures Linking() && View() == JoinGroup(old(View()), fd, name)
    {
      var u := users[fd];
      var code := u.id.value.game;
      var known, players := FindGroup(code, name);
      var before := if fd in inbox then |inbox[fd]| else 0;
      AnnounceJoin(fd, players, u.id.value.mac);
      LinkGroup(fd, code, name, known, before);
    }

    method AnnounceJoin(fd: Fd, players: LinkedList<Fd>, mac: Bytes)
      requires WellLinked(players)
      modifies this`inbox
      ensures inbox == Post(JoinNotices(old(inbox), users, fd, Order(players)), fd, BssidReply(FounderMac(users, Order(players), mac)))
    {
      var bssid := SendJoins(fd, players, mac);
      Send(fd, BssidReply(bssid));
    }

    method LinkGroup(fd: Fd, code: Bytes, name: Bytes, known: bool, before: nat)
      requires Linking() && fd in users && code in games && known == ((code, name) in groups)
      requires if known then fd !in Order(groups[(code, name)].players) else name !in Order(games[code].groups)
      modifies this`users, this`games, this`groups, this`gamesAs, this`groupsAs, this`clock
      ensures Linking()
      ensures var db := old(View());
        && gamesAs == (if known then db.games else db.games[code := WithGroup(db.games[code], name)])
        && groupsAs == var group := if known then db.groups[(code, name)] else Group(0, []);
             db.groups[(code, name) := Group(group.playercount + 1, [fd] + group.players)]
      ensures users == old(users)[fd := old(users)[fd].(group := Some(name), mark := before, stamp := old(clock))]
      ensures clock == old(clock) + 1
    {
      var key := (code, name);
      if !known {
        CreateGroup(code, name);
      }
      var players := PushFront(groups[key].players, fd);
      var group := GroupNode(groups[key].playercount + 1, players);
      PutGroup(key, group);
      users := users[fd := users[fd].(group := Some(name), mark := before, stamp := clock)];
      clock := clock + 1;
    }

    method CreateGroup(code: Bytes, name: Bytes)
      requires Linking() && code in games && (code, name) !in groups && name !in Order(games[code].groups)
      modifies this`games, this`groups, this`gamesAs, this`groupsAs
      ensures Linking() && (code, name) in groups && Order(groups[(code, name)].players) == []
      ensures var db := old(View());
        && gamesAs == db.games[code := WithGroup(db.games[code], name)]
        && groupsAs == db.groups[(code, name) := Group(0, [])]
    {
      EmptyLists();
      var names := PushFront(games[code].groups, name);
      var game := games[code].(groups := names, groupcount := games[code].groupcount + 1);
      PutGame(code, game);
      PutGroup((code, name), GroupNode(0, NO_USERS));
    }

    // --- Scans and messages ---

    /** The MAC of the last player of a group. */
    method FindFounder(players: LinkedList<Fd>, mac: Bytes) returns (founder: Bytes)
      requires WellLinked(players)
      ensures founder == FounderMac(users, Order(players), mac)
    {
      founder := mac;
      ghost var all, i := Order(players), 0;
      FromStart(players);
      var peer := players.first;
      while peer.Some?
        invariant i <= |all| && peer == Place(all, i)
        invariant founder == if i < |all| then mac else FounderMac(users, all, mac)
        decreases |all| - i
      {
        NextInside(players, i);
        if players.links[peer.value].next == None && peer.value in users && users[peer.value].id.Some? {
          founder := users[peer.value].id.value.mac;
        }
        peer := players.links[peer.value].next;
        i := i + 1;
      }
    }

    /** `send_scan_results` */
    method SendScanResults(fd: Fd)
      requires Valid() && fd in users && users[fd].id.Some?
      modifies this
      ensures Valid() && Linked(old(View()), fd) && View() == Scan(old(View()), fd)
    {
      Found(View(), fd);
      ScanKeeps(View(), fd);
      if users[fd].group.None? {
        SendScan(fd, users[fd].id.value.game);
      } else {
        LogoutUser(fd);
      }
    }

    method SendScan(fd: Fd, code: Bytes)
      requires Linking() && code in games
      modifies this`inbox
      ensures inbox == PostAll(old(inbox), fd, ScanReplies(old(View()), code, Order(games[code].groups)))
    {
      ghost var names, i, db := Order(games[code].groups), 0, View();
      FromStart(games[code].groups);
      var group := games[code].groups.first;
      while group.Some?
        invariant i <= |names| && group == Place(names, i)
        invariant PostAll(inbox, fd, ScanReplies(db, code, names[i..])) == PostAll(old(inbox), fd, ScanReplies(db, code, names))
        decreases |names| - i
      {
        NextInside(games[code].groups, i);
        ScanNext(inbox, db, fd, code, names, i);
        SendScanned(fd, code, group.value);
        group := games[code].groups.links[group.value].next;
        i := i + 1;
      }
      Send(fd, ScanCompleteReply);
      assert [ScanCompleteReply][1..] == [];
    }

    method SendScanned(fd: Fd, code: Bytes, name: Bytes)
      requires Linking()
      modifies this`inbox
      ensures var all := old(View()).groups;
        var players := if (code, name) in all then all[(code, name)].players else [];
        inbox == Post(old(inbox), fd, ScanReply(name, FounderMac(users, players, [])))
    {
      EmptyLists();
      var players := if (code, name) in groups then groups[(code, name)].players else NO_USERS;
      var mac := FindFounder(players, []);
      Send(fd, ScanReply(name, mac));
    }

    /** `spread_message` of a user. */
    method SpreadMessage(fd: Fd, message: Bytes)
      requires Valid() && fd in users && users[fd].id.Some?
      modifies this
      ensures Valid() && Linked(old(View()), fd) && View() == Chat(old(View()), fd, message)
    {
      Found(View(), fd);
      ChatKeeps(View(), fd, message);
      if users[fd].group.Some? {
        var u := users[fd];
        SendChat(fd, groups[(u.id.value.game, u.group.value)].players, ChatReply(message, u.id.value.name));
      } else {
        LogoutUser(fd);
      }
    }

    method SendChat(fd: Fd, players: LinkedList<Fd>, p: Reply)
      requires WellLinked(players)
      modifies this`inbox
      ensures inbox == ChatTo(old(inbox), fd, Order(players), p)
    {
      ghost var all, i := Order(players), 0;
      FromStart(players);
      var peer := players.first;
      while peer.Some?
        invariant i <= |all| && peer == Place(all, i)
        invariant ChatTo(inbox, fd, all[i..], p) == ChatTo(old(inbox), fd, all, p)
        decreases |all| - i
      {
        NextInside(players, i);
        if peer.value != fd {
          Send(peer.value, p);
        }
        peer := players.links[peer.value].next;
        i := i + 1;
      }
    }

    /** `spread_message` without a sender. */
    method SpreadNotice(message: Bytes)
      requires WellLinked(userList)
      modifies this`inbox
      ensures inbox == Notice(old(inbox), users, Order(userList), message)
    {
      ghost var all, i := Order(userList), 0;
      FromStart(userList);
      var user := userList.first;
      while user.Some?
        invariant i <= |all| && user == Place(all, i)
        invariant Notice(inbox, users, all[i..], message) == Notice(old(inbox), users, all, message)
        decreases |all| - i
      {
        NextInside(userList, i);
        if user.value in users && users[user.value].group.Some? {
          Send(user.value, ChatReply(message, []));
        }
        user := userList.links[user.value].next;
        i := i + 1;
      }
    }

    /** `free_database`: nobody is left, and with them no game and no group. */
    method Free(message: Bytes)
      requires Valid()
      modifies this
      ensures Valid() && View() == FreeDatabase(old(View()), message)
      ensures users == map[] && games == map[] && groups == map[]
    {
      if userCount > 0 {
        NoticeKeys(inbox, users, Order(userList), message);
        InboxChangeKeeps(View(), Notice(inbox, users, Order(userList), message));
        SpreadNotice(message);
      }
      FreeUsers();
      NobodyLeft(View());
    }

    /** The next user is saved before a logout and is the first one after it. */
    method FreeUsers()
      requires Valid()
      modifies this
      ensures Valid() && Order(userList) == [] && View() == LogoutAll(old(View()), old(Order(userList)))
    {
      ghost var db, list, i := View(), Order(userList), 0;
      FromStart(userList);
      var user := userList.first;
      while user.Some?
        invariant i <= |list| && Valid() && Order(userList) == list[i..] && user == Place(list, i)
        invariant LogoutAll(View(), list[i..]) == LogoutAll(db, list)
        decreases |list| - i
      {
        user := FreeNext(list, user.value, i);
        i := i + 1;
      }
    }

    /** The first user that is left. */
    method FreeNext(ghost list: seq<Fd>, fd: Fd, ghost i: nat) returns (next: Option<Fd>)
      requires Valid() && i < |list| && Order(userList) == list[i..] && fd == list[i]
      modifies this
      ensures Valid() && Order(userList) == list[i + 1..] && next == Place(list, i + 1)
      ensures LogoutAll(View(), list[i + 1..]) == LogoutAll(old(View()), list[i..])
    {
      assert list[i..][0] == fd && list[i..][1..] == list[i + 1..];
      NextInside(userList, 0);
      next := userList.links[fd].next;
      FirstOut(View(), list[i..]);
      LogoutUser(fd);
    }

    // --- The server loop ---

    /** Taking a handled packet out of the buffer. */
    method Consume(fd: Fd, size: nat)
      requires fd in users && fd in hist && size <= |users[fd].rx|
      modifies this`users, this`hist
      ensures View() == Consumed(old(View()), fd, size)
    {
      hist := hist[fd := hist[fd].(handled := hist[fd].handled + [users[fd].rx[..size]])];
      users := users[fd := users[fd].(rx := users[fd].rx[size..])];
    }

    /** Acting on a request. */
    method Dispatch(links: Crosslinks, fd: Fd, request: Request)
      requires Valid() && fd in users && (request.LoginRequest? <==> users[fd].id.None?)
      modifies this
      ensures Valid() && Linked(old(View()), fd) && View() == Act(old(View()), links, fd, request)
    {
      Found(View(), fd);
      match request {
        case PingRequest =>
        case LoginRequest(data) => LoginUserData(links, fd, data);
        case ConnectRequest(group) => ConnectUser(fd, group);
        case DisconnectRequest => DisconnectUser(fd);
        case ScanRequest => SendScanResults(fd);
        case ChatRequest(message) => SpreadMessage(fd, message);
      }
    }

    method ServePacket(links: Crosslinks, fd: Fd, request: Request, size: nat)
      requires Valid() && fd in users && fd in hist && size <= |users[fd].rx|
      requires request.LoginRequest? <==> users[fd].id.None?
      requires Linked(Consumed(View(), fd, size), fd)
      modifies this
      ensures Valid() && View() == Act(Consumed(old(View()), fd, size), links, fd, request)
    {
      ConsumedKeeps(View(), fd, size);
      Consume(fd, size);
      Dispatch(links, fd, request);
    }

    method Receive(fd: Fd, bytes: Bytes, now: nat)
      requires Valid() && fd in users && fd in hist
      modifies this`users, this`hist
      ensures Valid() && View() == Received(old(View()), fd, bytes, now)
    {
      ReceivedKeeps(View(), fd, bytes, now);
      if bytes != [] {
        users := users[fd := users[fd].(rx := users[fd].rx + bytes, lastRecv := now)];
        hist := hist[fd := hist[fd].(received := hist[fd].received + bytes)];
      }
    }
  }
}
