/** The group server: its database of users, games and groups, the packets it sends, and the
    handling of one connection in the server loop, as functions on values.

    A connection number stands for a socket together with its user node and is never used
    again; a product code stands for its game node and a pair of product code and group name
    for its group node. Lists are kept in the order of the source, newest node first. */
module ServerSpec {

  type Bytes = seq<nat>
  type Fd = nat
  type Key = (Bytes, Bytes)

  datatype Option<+T> = None | Some(value: T)

  const SERVER_USER_MAXIMUM: nat := 1024
  const SERVER_USER_TIMEOUT: nat := 15
  const RX_SIZE: nat := 1024
  const PRODUCT_CODE_LENGTH: nat := 9
  const GROUPNAME_LEN: nat := 8
  const NICKNAME_LEN: nat := 128
  const MAC_LEN: nat := 6
  const CHAT_LEN: nat := 64

  const LOGIN_SIZE: nat := 1 + MAC_LEN + NICKNAME_LEN + PRODUCT_CODE_LENGTH
  const CONNECT_SIZE: nat := 1 + GROUPNAME_LEN
  const CHAT_SIZE: nat := 1 + CHAT_LEN

  // ----- data -----

  /** What a login packet says about a user; `game` is the code after the product override. */
  datatype Identity = Identity(mac: Bytes, name: Bytes, game: Bytes)

  /** `mark` and `stamp` are history: the length of the inbox and the clock when the user
      joined its group. */
  datatype User = User(
    ip: nat, port: nat, lastRecv: nat, rx: Bytes, id: Option<Identity>, group: Option<Bytes>,
    mark: nat, stamp: nat)

  datatype Game = Game(playercount: int, groupcount: int, groups: seq<Bytes>)

  datatype Group = Group(playercount: int, players: seq<Fd>)

  /** Packets to clients. */
  datatype Reply =
    | ConnectReply(name: Bytes, mac: Bytes, ip: nat)
    | DisconnectReply(ip: nat)
    | ScanReply(group: Bytes, mac: Bytes)
    | ScanCompleteReply
    | BssidReply(mac: Bytes)
    | ChatReply(message: Bytes, name: Bytes)

  /** Everything sent on a connection so far. */
  type Inbox = map<Fd, seq<Reply>>

  /** History of a connection: the bytes received and the packets acted on. */
  datatype History = History(received: Bytes, handled: seq<Bytes>)

  datatype Db = Db(
    users: map<Fd, User>, userList: seq<Fd>, userCount: int,
    games: map<Bytes, Game>, gameList: seq<Bytes>,
    groups: map<Key, Group>,
    inbox: Inbox, hist: map<Fd, History>, clock: nat)

  const EMPTY: Db := Db(map[], [], 0, map[], [], map[], map[], map[], 0)

  // ----- lists and strings -----

  function Remove<T(==)>(s: seq<T>, x: T): seq<T> {
    if s == [] then [] else if s[0] == x then s[1..] else [s[0]] + Remove(s[1..], x)
  }

  /** The characters before the terminator: what `strncmp` compares. */
  function CString(s: Bytes): (r: Bytes)
    ensures |r| <= |s|
  {
    if s == [] || s[0] == 0 then [] else [s[0]] + CString(s[1..])
  }

  predicate Upper(b: nat) { 0x41 <= b <= 0x5A }
  predicate Lower(b: nat) { 0x61 <= b <= 0x7A }
  predicate Digit(b: nat) { 0x30 <= b <= 0x39 }

  predicate ValidProductCode(code: Bytes) {
    forall i :: 0 <= i < |code| ==> Upper(code[i]) || Digit(code[i])
  }

  /** The check stops at the terminator. */
  predicate ValidGroupName(name: Bytes) {
    forall i :: 0 <= i < |CString(name)| ==> Upper(CString(name)[i]) || Lower(CString(name)[i]) || Digit(CString(name)[i])
  }

  function Repeated(b: nat, n: nat): Bytes { seq(n, i => b) }

  predicate ValidLogin(data: Identity) {
    && ValidProductCode(data.game)
    && data.mac != Repeated(0xFF, MAC_LEN) && data.mac != Repeated(0, MAC_LEN)
    && CString(data.name) != []
  }

  /** The crosslinks of the product database. */
  type Crosslinks = map<Bytes, Bytes>

  function GameCode(links: Crosslinks, code: Bytes): Bytes {
    if code in links then
      CString(if |links[code]| <= PRODUCT_CODE_LENGTH then links[code] else links[code][..PRODUCT_CODE_LENGTH])
    else CString(code)
  }

  // ----- sending -----

  function Post(inbox: Inbox, fd: Fd, p: Reply): Inbox {
    if fd in inbox then inbox[fd := inbox[fd] + [p]] else inbox
  }

  function PostTimes(inbox: Inbox, fd: Fd, p: Reply, n: nat): Inbox {
    if n == 0 then inbox else PostTimes(Post(inbox, fd, p), fd, p, n - 1)
  }

  /** The connect packet that presents a user. */
  function Presents(users: map<Fd, User>, fd: Fd): Reply {
    if fd in users && users[fd].id.Some? then
      ConnectReply(users[fd].id.value.name, users[fd].id.value.mac, users[fd].ip)
    else ConnectReply([], [], 0)
  }

  /** Every player hears of the newcomer, and the newcomer of every player. */
  function JoinNotices(inbox: Inbox, users: map<Fd, User>, fd: Fd, players: seq<Fd>): Inbox
    decreases |players|
  {
    if players == [] then inbox
    else JoinNotices(Post(Post(inbox, players[0], Presents(users, fd)), fd, Presents(users, players[0])), users, fd, players[1..])
  }

  function IpOf(users: map<Fd, User>, fd: Fd): nat {
    if fd in users then users[fd].ip else 0
  }

  /** `get_num_group_players_with_same_ip` */
  function CountIp(users: map<Fd, User>, players: seq<Fd>, ip: nat): nat {
    if players == [] then 0
    else (if IpOf(users, players[0]) == ip then 1 else 0) + CountIp(users, players[1..], ip)
  }

  /** Each remaining player gets n disconnect packets for the address. */
  function LeaveNotices(inbox: Inbox, players: seq<Fd>, ip: nat, n: nat): Inbox
    decreases |players|
  {
    if players == [] then inbox
    else LeaveNotices(PostTimes(inbox, players[0], DisconnectReply(ip), n), players[1..], ip, n)
  }

  function PresentTo(inbox: Inbox, users: map<Fd, User>, fd: Fd, players: seq<Fd>): Inbox
    decreases |players|
  {
    if players == [] then inbox
    else PresentTo(if players[0] != fd then Post(inbox, players[0], Presents(users, fd)) else inbox, users, fd, players[1..])
  }

  /** `reconnect_players_with_ip`: the players of the address are presented again. */
  function Reconnects(inbox: Inbox, users: map<Fd, User>, players: seq<Fd>, todo: seq<Fd>, ip: nat): Inbox
    decreases |todo|
  {
    if todo == [] then inbox
    else Reconnects(if IpOf(users, todo[0]) == ip then PresentTo(inbox, users, todo[0], players) else inbox,
                    users, players, todo[1..], ip)
  }

  /** The founder of a group is the last of its player list. */
  function FounderMac(users: map<Fd, User>, players: seq<Fd>, default': Bytes): Bytes {
    if players == [] then default'
    else
      var fd := players[|players| - 1];
      if fd in users && users[fd].id.Some? then users[fd].id.value.mac else default'
  }

  // ----- database operations -----

  /** `login_user_stream`: None when the connection is refused and closed. */
  function LoginStream(db: Db, fd: Fd, ip: nat, port: nat, now: nat): Option<Db> {
    if db.userCount < SERVER_USER_MAXIMUM
       && (forall u :: u in db.users ==> db.users[u].ip != ip || db.users[u].port != port) then
      Some(db.(
        users := db.users[fd := User(ip, port, now, [], None, None, 0, 0)],
        userList := [fd] + db.userList,
        userCount := db.userCount + 1,
        inbox := db.inbox[fd := []],
        hist := db.hist[fd := History([], [])]))
    else None
  }

  /** Frees an empty group. */
  function DropGroup(db: Db, code: Bytes, name: Bytes): Db
    requires code in db.games
  {
    var game := db.games[code];
    db.(
      groups := db.groups - {(code, name)},
      games := db.games[code := WithoutGroup(game, name)])
  }

  function WithGroup(game: Game, name: Bytes): Game {
    game.(groups := [name] + game.groups, groupcount := game.groupcount + 1)
  }

  function WithoutGroup(game: Game, name: Bytes): Game {
    game.(groups := Remove(game.groups, name), groupcount := game.groupcount - 1)
  }

  /** The packets of `disconnect_user`. */
  function LeaveInbox(db: Db, fd: Fd, players: seq<Fd>): Inbox {
    var ip, rest := IpOf(db.users, fd), Remove(players, fd);
    Reconnects(LeaveNotices(db.inbox, rest, ip, CountIp(db.users, players, ip)), db.users, rest, rest, ip)
  }

  /** `disconnect_user` for a user in a group. */
  function LeaveGroup(db: Db, fd: Fd): Db
    requires fd in db.users && db.users[fd].id.Some? && db.users[fd].group.Some?
    requires (db.users[fd].id.value.game, db.users[fd].group.value) in db.groups
    requires db.users[fd].id.value.game in db.games
  {
    var u := db.users[fd];
    var code, name := u.id.value.game, u.group.value;
    var group := db.groups[(code, name)];
    var db1 := db.(inbox := LeaveInbox(db, fd, group.players), users := db.users[fd := u.(group := None)]);
    if group.playercount - 1 == 0 then DropGroup(db1, code, name)
    else db1.(groups := db.groups[(code, name) := Group(group.playercount - 1, Remove(group.players, fd))])
  }

  predicate Linked(db: Db, fd: Fd) {
    && fd in db.users
    && (db.users[fd].group.Some? ==>
          && db.users[fd].id.Some?
          && (db.users[fd].id.value.game, db.users[fd].group.value) in db.groups)
    && (db.users[fd].id.Some? ==> db.users[fd].id.value.game in db.games)
  }

  /** The rest of `logout_user`, for a user that is in no group. */
  function DropUser(db: Db, fd: Fd): Db
    requires Linked(db, fd)
  {
    var u := db.users[fd];
    var db1 :=
      if u.id.Some? then
        var code := u.id.value.game;
        var game := db.games[code];
        if game.playercount - 1 == 0 then
          db.(games := db.games - {code}, gameList := Remove(db.gameList, code))
        else db.(games := db.games[code := game.(playercount := game.playercount - 1)])
      else db;
    db1.(users := db.users - {fd}, userList := Remove(db.userList, fd), userCount := db.userCount - 1)
  }

  /** `logout_user` */
  function Logout(db: Db, fd: Fd): Db
    requires Linked(db, fd)
  {
    if db.users[fd].group.Some? then DropUser(LeaveGroup(db, fd), fd) else DropUser(db, fd)
  }

  /** `login_user_data` */
  function LoginData(db: Db, links: Crosslinks, fd: Fd, data: Identity): Db
    requires Linked(db, fd)
  {
    if ValidLogin(data) then Entered(db, GameCode(links, data.game), fd, data) else Logout(db, fd)
  }

  function Entered(db: Db, code: Bytes, fd: Fd, data: Identity): Db
    requires fd in db.users
  {
    var known := code in db.games;
    var game := if known then db.games[code] else Game(0, 0, []);
    db.(
      gameList := if known then db.gameList else [code] + db.gameList,
      games := db.games[code := game.(playercount := game.playercount + 1)],
      users := db.users[fd := db.users[fd].(id := Some(data.(game := code)))])
  }

  /** `connect_user` for a user in no group and a valid name. */
  function JoinGroup(db: Db, fd: Fd, name: Bytes): Db
    requires Linked(db, fd) && db.users[fd].id.Some?
  {
    var u := db.users[fd];
    var code := u.id.value.game;
    var game := db.games[code];
    var known := (code, name) in db.groups;
    var group := if known then db.groups[(code, name)] else Group(0, []);
    var notified := JoinNotices(db.inbox, db.users, fd, group.players);
    var mac := FounderMac(db.users, group.players, u.id.value.mac);
    db.(
      games := if known then db.games
               else db.games[code := WithGroup(game, name)],
      groups := db.groups[(code, name) := Group(group.playercount + 1, [fd] + group.players)],
      users := db.users[fd := u.(group := Some(name), mark := if fd in db.inbox then |db.inbox[fd]| else 0, stamp := db.clock)],
      clock := db.clock + 1,
      inbox := Post(notified, fd, BssidReply(mac)))
  }

  /** `connect_user` */
  function Connect(db: Db, fd: Fd, groupname: Bytes): Db
    requires Linked(db, fd) && db.users[fd].id.Some?
  {
    if !ValidGroupName(groupname) || db.users[fd].group.Some? then Logout(db, fd)
    else JoinGroup(db, fd, CString(groupname))
  }

  /** `disconnect_user` */
  function Disconnect(db: Db, fd: Fd): Db
    requires Linked(db, fd)
  {
    if db.users[fd].group.Some? then LeaveGroup(db, fd) else Logout(db, fd)
  }

  function ScanReplies(db: Db, code: Bytes, names: seq<Bytes>): seq<Reply> {
    if names == [] then [ScanCompleteReply]
    else
      var players := if (code, names[0]) in db.groups then db.groups[(code, names[0])].players else [];
      [ScanReply(names[0], FounderMac(db.users, players, []))] + ScanReplies(db, code, names[1..])
  }

  function PostAll(inbox: Inbox, fd: Fd, ps: seq<Reply>): Inbox
    decreases |ps|
  {
    if ps == [] then inbox else PostAll(Post(inbox, fd, ps[0]), fd, ps[1..])
  }

  /** `send_scan_results` */
  function Scan(db: Db, fd: Fd): Db
    requires Linked(db, fd) && db.users[fd].id.Some?
  {
    var code := db.users[fd].id.value.game;
    if db.users[fd].group.None? then
      db.(inbox := PostAll(db.inbox, fd, ScanReplies(db, code, db.games[code].groups)))
    else Logout(db, fd)
  }

  function ChatTo(inbox: Inbox, fd: Fd, players: seq<Fd>, p: Reply): Inbox
    decreases |players|
  {
    if players == [] then inbox
    else ChatTo(if players[0] == fd then inbox else Post(inbox, players[0], p), fd, players[1..], p)
  }

  /** `spread_message` from a user. */
  function Chat(db: Db, fd: Fd, message: Bytes): Db
    requires Linked(db, fd) && db.users[fd].id.Some?
  {
    var u := db.users[fd];
    if u.group.Some? then
      db.(inbox := ChatTo(db.inbox, fd, db.groups[(u.id.value.game, u.group.value)].players,
                          ChatReply(message, u.id.value.name)))
    else Logout(db, fd)
  }

  /** `spread_message` from the server: everybody in a group gets it. */
  function Notice(inbox: Inbox, users: map<Fd, User>, list: seq<Fd>, message: Bytes): Inbox
    decreases |list|
  {
    if list == [] then inbox
    else
      Notice(if list[0] in users && users[list[0]].group.Some? then Post(inbox, list[0], ChatReply(message, [])) else inbox,
             users, list[1..], message)
  }

  function LogoutAll(db: Db, list: seq<Fd>): Db
    decreases |list|
  {
    if list == [] then db
    else LogoutAll(if Linked(db, list[0]) then Logout(db, list[0]) else db, list[1..])
  }

  /** `free_database` */
  function FreeDatabase(db: Db, message: Bytes): Db {
    LogoutAll(if db.userCount > 0 then db.(inbox := Notice(db.inbox, db.users, db.userList, message)) else db, db.userList)
  }

  // ----- one connection in the server loop -----

  datatype RecvResult = Closed | Failed | WouldBlock | Data(bytes: Bytes)

  datatype Request = PingRequest | LoginRequest(data: Identity) | ConnectRequest(group: Bytes)
                   | DisconnectRequest | ScanRequest | ChatRequest(message: Bytes)

  datatype Framing = Incomplete | BadOpcode | Complete(request: Request, size: nat)

  function ParseLogin(rx: Bytes): Identity
    requires |rx| >= LOGIN_SIZE
  {
    Identity(rx[1..7], rx[7..135], rx[135..144])
  }

  /** The packet at the front of the buffer of a user that has (or has not) logged in. */
  function FrontPacket(loggedIn: bool, rx: Bytes): Framing
    requires rx != []
  {
    if !loggedIn then
      if rx[0] == 1 then
        if |rx| >= LOGIN_SIZE then Complete(LoginRequest(ParseLogin(rx)), LOGIN_SIZE) else Incomplete
      else BadOpcode
    else if rx[0] == 0 then Complete(PingRequest, 1)
    else if rx[0] == 2 then
      if |rx| >= CONNECT_SIZE then Complete(ConnectRequest(rx[1..CONNECT_SIZE]), CONNECT_SIZE) else Incomplete
    else if rx[0] == 3 then Complete(DisconnectRequest, 1)
    else if rx[0] == 4 then Complete(ScanRequest, 1)
    else if rx[0] == 7 then
      if |rx| >= CHAT_SIZE then Complete(ChatRequest(CString(rx[1..CHAT_SIZE - 1])), CHAT_SIZE) else Incomplete
    else BadOpcode
  }

  function Act(db: Db, links: Crosslinks, fd: Fd, r: Request): Db
    requires Linked(db, fd) && (!r.LoginRequest? ==> db.users[fd].id.Some?)
  {
    match r
    case PingRequest => db
    case LoginRequest(data) => LoginData(db, links, fd, data)
    case ConnectRequest(group) => Connect(db, fd, group)
    case DisconnectRequest => Disconnect(db, fd)
    case ScanRequest => Scan(db, fd)
    case ChatRequest(message) => Chat(db, fd, message)
  }

  /** The receive buffer and the clock of the connection after `recv`. */
  function Received(db: Db, fd: Fd, bytes: Bytes, now: nat): Db
    requires fd in db.users && fd in db.hist
  {
    var u := db.users[fd];
    if bytes == [] then db
    else
      db.(
        users := db.users[fd := u.(rx := u.rx + bytes, lastRecv := now)],
        hist := db.hist[fd := db.hist[fd].(received := db.hist[fd].received + bytes)])
  }

  /** `clear_user_rxbuf` for a packet of the given size, recorded as acted on. */
  function Consumed(db: Db, fd: Fd, size: nat): Db
    requires fd in db.users && fd in db.hist && size <= |db.users[fd].rx|
  {
    var u := db.users[fd];
    db.(
      users := db.users[fd := u.(rx := u.rx[size..])],
      hist := db.hist[fd := db.hist[fd].(handled := db.hist[fd].handled + [u.rx[..size]])])
  }

  /** At most one packet per connection and turn. */
  function HandleFront(db: Db, links: Crosslinks, fd: Fd): Db
    requires Linked(db, fd) && fd in db.hist
  {
    var u := db.users[fd];
    if u.rx == [] then db
    else match FrontPacket(u.id.Some?, u.rx)
      case Incomplete => db
      case BadOpcode => Logout(db, fd)
      case Complete(request, size) => Act(Consumed(db, fd, size), links, fd, request)
  }

  /** The turn of one connection in the server loop. */
  function Turn(db: Db, links: Crosslinks, fd: Fd, r: RecvResult, now: nat): Db
    requires Linked(db, fd) && fd in db.hist
  {
    if r == Closed || r == Failed || now - db.users[fd].lastRecv >= SERVER_USER_TIMEOUT then Logout(db, fd)
    else HandleFront(Received(db, fd, if r.Data? then r.bytes else [], now), links, fd)
  }

  // ----- runs -----

  datatype Event =
    | Accepted(fd: Fd, ip: nat, port: nat, now: nat)
    | Turned(fd: Fd, r: RecvResult, now: nat)

  /** What `recv` can return: as many bytes as the buffer has room for, and 0 when it has none. */
  predicate Possible(u: User, r: RecvResult) {
    r.Data? ==> 0 < |r.bytes| <= RX_SIZE - |u.rx|
  }

  function Step(db: Db, links: Crosslinks, e: Event): Db {
    match e
    case Accepted(fd, ip, port, now) =>
      if fd in db.hist then db
      else (match LoginStream(db, fd, ip, port, now) case None => db case Some(db') => db')
    case Turned(fd, r, now) =>
      if Linked(db, fd) && fd in db.hist && Possible(db.users[fd], r) then Turn(db, links, fd, r, now) else db
  }

  function Run(links: Crosslinks, events: seq<Event>): Db {
    if events == [] then EMPTY else Step(Run(links, events[..|events| - 1]), links, events[|events| - 1])
  }
}
