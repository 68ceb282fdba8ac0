/** View agreement and founder agreement after every run. */
module ServerRuns {
  import opened ServerSpec
  import opened ServerInvariant
  import opened ServerViews
  import opened ServerMembership

  // ----- packets that do not concern membership -----

  ghost predicate Silent(rs: seq<Reply>) {
    forall i :: 0 <= i < |rs| ==> !rs[i].ConnectReply? && !rs[i].DisconnectReply?
  }

  lemma {:induction false} ReplaySilent(p: Policy, l: seq<Entry>, rs: seq<Reply>)
    requires Silent(rs)
    ensures Replay(p, l, rs) == l
    decreases |rs|
  {
    if rs != [] { ReplaySilent(p, l, rs[1..]); }
  }

  /** More packets, none of which concerns membership. */
  ghost predicate SilentlyMore(a: seq<Reply>, b: seq<Reply>) {
    |a| <= |b| && b[..|a|] == a && Silent(b[|a|..])
  }

  ghost predicate OnlySilent(inbox: Inbox, inbox': Inbox) {
    inbox.Keys <= inbox'.Keys && forall q :: q in inbox ==> SilentlyMore(inbox[q], inbox'[q])
  }

  lemma PostSilent(inbox: Inbox, fd: Fd, r: Reply)
    requires !r.ConnectReply? && !r.DisconnectReply?
    ensures OnlySilent(inbox, Post(inbox, fd, r))
  {
    forall q | q in inbox ensures SilentlyMore(inbox[q], Post(inbox, fd, r)[q]) {
      if q == fd { assert (inbox[q] + [r])[..|inbox[q]|] == inbox[q]; }
    }
  }

  lemma SilentChain(a: Inbox, b: Inbox, c: Inbox)
    requires OnlySilent(a, b) && OnlySilent(b, c)
    ensures OnlySilent(a, c)
  {
    forall q | q in a ensures SilentlyMore(a[q], c[q]) {
      SilentThrough(a[q], b[q], c[q]);
    }
  }

  lemma SilentThrough(a: seq<Reply>, b: seq<Reply>, c: seq<Reply>)
    requires SilentlyMore(a, b) && SilentlyMore(b, c)
    ensures SilentlyMore(a, c)
  {
    assert c[..|a|] == c[..|b|][..|a|];
    assert c[|a|..] == b[|a|..] + c[|b|..];
  }

  lemma {:induction false} ScanSilent(inbox: Inbox, fd: Fd, rs: seq<Reply>)
    requires Silent(rs)
    ensures OnlySilent(inbox, PostAll(inbox, fd, rs))
    decreases |rs|
  {
    if rs == [] {
      forall q | q in inbox ensures SilentlyMore(inbox[q], inbox[q]) { }
    } else {
      PostSilent(inbox, fd, rs[0]);
      ScanSilent(Post(inbox, fd, rs[0]), fd, rs[1..]);
      SilentChain(inbox, Post(inbox, fd, rs[0]), PostAll(inbox, fd, rs));
    }
  }

  lemma {:induction false} ChatSilent(inbox: Inbox, fd: Fd, players: seq<Fd>, r: Reply)
    requires r.ChatReply?
    ensures OnlySilent(inbox, ChatTo(inbox, fd, players, r))
    decreases |players|
  {
    if players == [] {
      forall q | q in inbox ensures SilentlyMore(inbox[q], inbox[q]) { }
    } else {
      var inbox' := if players[0] == fd then inbox else Post(inbox, players[0], r);
      PostSilent(inbox, players[0], r);
      ChatSilent(inbox', fd, players[1..], r);
      if players[0] != fd { SilentChain(inbox, inbox', ChatTo(inbox, fd, players, r)); }
    }
  }

  lemma {:induction false} ScanRepliesSilent(db: Db, code: Bytes, names: seq<Bytes>)
    ensures Silent(ScanReplies(db, code, names))
  {
    if names != [] { ScanRepliesSilent(db, code, names[1..]); }
  }

  // ----- the invariant -----

  ghost predicate MemberView(db: Db, p: Policy, q: Fd) {
    Linked(db, q) && q in db.inbox && ViewOk(db, p, q)
  }

  ghost predicate ViewInv(db: Db, p: Policy) {
    && DbInv(db) && OrdersOk(db)
    && forall q :: q in db.users ==> MemberView(db, p, q)
  }

  /** Nothing changes for users in groups: not their records as members, not their groups, and
      they get only packets that do not concern membership. */
  ghost predicate GroupsUntouched(db: Db, db': Db) {
    && db'.groups == db.groups && db'.clock == db.clock && OnlySilent(db.inbox, db'.inbox)
    && (forall q :: q in db'.users && db'.users[q].group.Some? ==> q in db.users && db.users[q].group.Some?)
    && (forall q :: q in db.users && db.users[q].group.Some? ==> q in db'.users && SameMember(db.users[q], db'.users[q]))
  }

  ghost predicate SameMember(u: User, u': User) {
    u'.ip == u.ip && u'.id == u.id && u'.group == u.group && u'.mark == u.mark && u'.stamp == u.stamp
  }

  lemma UntouchedView(db: Db, db': Db, p: Policy, q: Fd)
    requires DbInv(db) && DbInv(db') && GroupsUntouched(db, db') && q in db'.users
    requires q in db.users ==> MemberView(db, p, q)
    ensures MemberView(db', p, q)
  {
    Found(db', q);
    if db'.users[q].group.Some? {
      var key := KeyOf(db'.users[q]);
      assert GroupOk(db, key);
      var rs := db'.inbox[q][|db.inbox[q]|..];
      assert db'.inbox[q] == db'.inbox[q][..|db.inbox[q]|] + rs;
      OthersFrame(db.users, db'.users, db.groups[key].players, q);
      ReplaySilent(p, View(db, p, q), rs);
      ViewAppended(db, db', p, q, rs);
    }
  }

  lemma UntouchedKeeps(db: Db, db': Db, p: Policy)
    requires ViewInv(db, p) && DbInv(db') && GroupsUntouched(db, db')
    ensures ViewInv(db', p)
  {
    forall q | q in db'.users ensures MemberView(db', p, q) {
      UntouchedView(db, db', p, q);
    }
    forall key | key in db'.groups ensures InJoinOrder(db'.users, db'.groups[key].players, db'.clock) {
      assert GroupOk(db, key) && InJoinOrder(db.users, db.groups[key].players, db.clock);
      OrderFrame(db.users, db'.users, db.groups[key].players, db.clock);
    }
  }

  lemma NothingSent(inbox: Inbox)
    ensures OnlySilent(inbox, inbox)
  {
    forall q | q in inbox ensures SilentlyMore(inbox[q], inbox[q]) { }
  }

  // ----- operations -----

  lemma LeaveViews(db: Db, p: Policy, x: Fd)
    requires ViewInv(db, p) && Removes(p) && x in db.users && db.users[x].group.Some?
    ensures Linked(db, x) && ViewInv(LeaveGroup(db, x), p)
  {
    LeaveGroupKeeps(db, x);
    LeaveOrders(db, x);
    var db' := LeaveGroup(db, x);
    forall q | q in db'.users ensures MemberView(db', p, q) {
      Found(db', q);
      if q != x {
        assert MemberView(db, p, q);
        LeaveView(db, p, x, q);
      }
    }
  }

  lemma JoinViews(db: Db, p: Policy, x: Fd, name: Bytes)
    requires ViewInv(db, p) && x in db.users && db.users[x].id.Some? && db.users[x].group.None?
    ensures Linked(db, x) && ViewInv(JoinGroup(db, x, name), p)
  {
    Found(db, x);
    var key, db' := (db.users[x].id.value.game, name), JoinGroup(db, x, name);
    JoinGroupKeeps(db, x, name);
    JoinGroupJoined(db, x, name);
    JoinOrders(db, x, name);
    NewcomerOutside(db, x, key);
    forall q | q in db'.users ensures MemberView(db', p, q) {
      Found(db', q);
      if q == x {
        JoinViewSelf(db, p, x, name);
      } else {
        assert MemberView(db, p, q);
        JoinInboxTo(db, x, name, q);
        JoinViewOther(db, db', p, x, key, q);
      }
    }
  }

  lemma DropUntouched(db: Db, x: Fd)
    requires Linked(db, x) && db.users[x].group.None?
    ensures GroupsUntouched(db, DropUser(db, x))
  {
    NothingSent(db.inbox);
  }

  lemma DropViews(db: Db, p: Policy, x: Fd)
    requires ViewInv(db, p) && x in db.users && db.users[x].group.None?
    ensures Linked(db, x) && ViewInv(DropUser(db, x), p)
  {
    DropUserKeeps(db, x);
    DropUntouched(db, x);
    UntouchedKeeps(db, DropUser(db, x), p);
  }

  lemma LogoutViews(db: Db, p: Policy, x: Fd)
    requires ViewInv(db, p) && Removes(p) && x in db.users
    ensures Linked(db, x) && ViewInv(Logout(db, x), p)
  {
    Found(db, x);
    if db.users[x].group.Some? {
      LeaveViews(db, p, x);
      LeaveGroupKeeps(db, x);
      DropViews(LeaveGroup(db, x), p, x);
    } else {
      DropViews(db, p, x);
    }
  }

  lemma LoginUntouched(db: Db, links: Crosslinks, x: Fd, data: Identity)
    requires Linked(db, x) && db.users[x].id.None? && ValidLogin(data)
    ensures GroupsUntouched(db, LoginData(db, links, x, data))
  {
    NothingSent(db.inbox);
  }

  lemma LoginDataViews(db: Db, links: Crosslinks, p: Policy, x: Fd, data: Identity)
    requires ViewInv(db, p) && Removes(p) && x in db.users && db.users[x].id.None?
    ensures Linked(db, x) && ViewInv(LoginData(db, links, x, data), p)
  {
    LoginDataKeeps(db, links, x, data);
    if ValidLogin(data) {
      LoginUntouched(db, links, x, data);
      UntouchedKeeps(db, LoginData(db, links, x, data), p);
    } else {
      LogoutViews(db, p, x);
    }
  }

  lemma SentUntouched(db: Db, inbox: Inbox)
    requires OnlySilent(db.inbox, inbox)
    ensures GroupsUntouched(db, db.(inbox := inbox))
  {
  }

  lemma ScanViews(db: Db, p: Policy, x: Fd)
    requires ViewInv(db, p) && Removes(p) && x in db.users && db.users[x].id.Some?
    ensures Linked(db, x) && ViewInv(Scan(db, x), p)
  {
    ScanKeeps(db, x);
    if db.users[x].group.None? {
      var code := db.users[x].id.value.game;
      var rs := ScanReplies(db, code, db.games[code].groups);
      ScanRepliesSilent(db, code, db.games[code].groups);
      ScanSilent(db.inbox, x, rs);
      SentUntouched(db, PostAll(db.inbox, x, rs));
      UntouchedKeeps(db, Scan(db, x), p);
    } else {
      LogoutViews(db, p, x);
    }
  }

  lemma ChatViews(db: Db, p: Policy, x: Fd, message: Bytes)
    requires ViewInv(db, p) && Removes(p) && x in db.users && db.users[x].id.Some?
    ensures Linked(db, x) && ViewInv(Chat(db, x, message), p)
  {
    ChatKeeps(db, x, message);
    if db.users[x].group.Some? {
      var players, r := db.groups[KeyOf(db.users[x])].players, ChatReply(message, db.users[x].id.value.name);
      ChatSilent(db.inbox, x, players, r);
      SentUntouched(db, ChatTo(db.inbox, x, players, r));
      UntouchedKeeps(db, Chat(db, x, message), p);
    } else {
      LogoutViews(db, p, x);
    }
  }

  lemma ActViews(db: Db, links: Crosslinks, p: Policy, x: Fd, r: Request)
    requires ViewInv(db, p) && Removes(p) && x in db.users && (r.LoginRequest? <==> db.users[x].id.None?)
    ensures Linked(db, x) && ViewInv(Act(db, links, x, r), p)
  {
    Found(db, x);
    match r
    case PingRequest =>
    case LoginRequest(data) => LoginDataViews(db, links, p, x, data);
    case ConnectRequest(group) =>
      if !ValidGroupName(group) || db.users[x].group.Some? {
        LogoutViews(db, p, x);
      } else {
        JoinViews(db, p, x, CString(group));
      }
    case DisconnectRequest =>
      if db.users[x].group.Some? { LeaveViews(db, p, x); } else { LogoutViews(db, p, x); }
    case ScanRequest => ScanViews(db, p, x);
    case ChatRequest(message) => ChatViews(db, p, x, message);
  }

  lemma RecordUntouched(db: Db, db': Db, x: Fd)
    requires x in db.users && x in db'.users && db'.users == db.users[x := db'.users[x]]
    requires SameMember(db.users[x], db'.users[x])
    requires db'.groups == db.groups && db'.clock == db.clock && db'.inbox == db.inbox
    ensures GroupsUntouched(db, db')
  {
    NothingSent(db.inbox);
  }

  lemma RecordViews(db: Db, db': Db, p: Policy, x: Fd)
    requires ViewInv(db, p) && DbInv(db') && x in db.users && x in db'.users
    requires db'.users == db.users[x := db'.users[x]] && SameMember(db.users[x], db'.users[x])
    requires db'.groups == db.groups && db'.clock == db.clock && db'.inbox == db.inbox
    ensures ViewInv(db', p)
  {
    RecordUntouched(db, db', x);
    UntouchedKeeps(db, db', p);
  }

  lemma ReceivedViews(db: Db, p: Policy, x: Fd, bytes: Bytes, now: nat)
    requires ViewInv(db, p) && x in db.users
    ensures x in db.hist && ViewInv(Received(db, x, bytes, now), p)
  {
    ReceivedKeeps(db, x, bytes, now);
    RecordViews(db, Received(db, x, bytes, now), p, x);
  }

  lemma ConsumedViews(db: Db, p: Policy, x: Fd, size: nat)
    requires ViewInv(db, p) && x in db.users && size <= |db.users[x].rx|
    ensures x in db.hist && ViewInv(Consumed(db, x, size), p)
  {
    ConsumedKeeps(db, x, size);
    RecordViews(db, Consumed(db, x, size), p, x);
  }

  lemma PacketViews(db: Db, links: Crosslinks, p: Policy, x: Fd, request: Request, size: nat)
    requires ViewInv(db, p) && Removes(p) && x in db.users && size <= |db.users[x].rx|
    requires request.LoginRequest? <==> db.users[x].id.None?
    ensures x in db.hist && Linked(Consumed(db, x, size), x)
    ensures ViewInv(Act(Consumed(db, x, size), links, x, request), p)
  {
    ConsumedViews(db, p, x, size);
    ActViews(Consumed(db, x, size), links, p, x, request);
  }

  lemma HandleFrontViews(db: Db, links: Crosslinks, p: Policy, x: Fd)
    requires ViewInv(db, p) && Removes(p) && x in db.users
    ensures Linked(db, x) && x in db.hist && ViewInv(HandleFront(db, links, x), p)
  {
    Found(db, x);
    var u := db.users[x];
    if u.rx != [] {
      match FrontPacket(u.id.Some?, u.rx)
      case Incomplete =>
      case BadOpcode => LogoutViews(db, p, x);
      case Complete(request, size) => PacketViews(db, links, p, x, request, size);
    }
  }

  lemma NewUntouched(db: Db, fd: Fd, ip: nat, port: nat, now: nat)
    requires fd !in db.users && fd !in db.inbox && LoginStream(db, fd, ip, port, now).Some?
    ensures GroupsUntouched(db, LoginStream(db, fd, ip, port, now).value)
  {
    NothingSent(db.inbox);
  }

  lemma AcceptViews(db: Db, p: Policy, fd: Fd, ip: nat, port: nat, now: nat)
    requires ViewInv(db, p) && fd !in db.hist && LoginStream(db, fd, ip, port, now).Some?
    ensures ViewInv(LoginStream(db, fd, ip, port, now).value, p)
  {
    LoginStreamKeeps(db, fd, ip, port, now);
    NewUntouched(db, fd, ip, port, now);
    UntouchedKeeps(db, LoginStream(db, fd, ip, port, now).value, p);
  }

  lemma TurnViews(db: Db, links: Crosslinks, p: Policy, fd: Fd, r: RecvResult, now: nat)
    requires ViewInv(db, p) && Removes(p) && Linked(db, fd) && fd in db.hist
    ensures ViewInv(Turn(db, links, fd, r, now), p)
  {
    if r == Closed || r == Failed || now - db.users[fd].lastRecv >= SERVER_USER_TIMEOUT {
      LogoutViews(db, p, fd);
    } else {
      var bytes := if r.Data? then r.bytes else [];
      ReceivedViews(db, p, fd, bytes, now);
      HandleFrontViews(Received(db, fd, bytes, now), links, p, fd);
    }
  }

  lemma StepViews(db: Db, links: Crosslinks, p: Policy, e: Event)
    requires ViewInv(db, p) && Removes(p)
    ensures ViewInv(Step(db, links, e), p)
  {
    match e
    case Accepted(fd, ip, port, now) =>
      if fd !in db.hist && LoginStream(db, fd, ip, port, now).Some? {
        AcceptViews(db, p, fd, ip, port, now);
      }
    case Turned(fd, r, now) =>
      if Linked(db, fd) && fd in db.hist && Possible(db.users[fd], r) {
        TurnViews(db, links, p, fd, r, now);
      }
  }

  lemma {:induction false} RunViews(links: Crosslinks, p: Policy, events: seq<Event>)
    requires Removes(p)
    ensures ViewInv(Run(links, events), p)
  {
    if events != [] {
      RunViews(links, p, events[..|events| - 1]);
      StepViews(Run(links, events[..|events| - 1]), links, p, events[|events| - 1]);
    }
  }

  // ----- main results -----

  /** View agreement: for a member of a group, replaying the packets sent to it since it joined
      gives exactly the other current members, whatever removal policy its client has. */
  lemma ViewAgreement(links: Crosslinks, p: Policy, events: seq<Event>, q: Fd)
    requires Removes(p) && q in Run(links, events).users && Run(links, events).users[q].group.Some?
    ensures var db := Run(links, events);
      && Linked(db, q) && q in db.inbox && db.users[q].mark <= |db.inbox[q]|
      && multiset(Replay(p, [], db.inbox[q][db.users[q].mark..])) == multiset(FellowMembers(db, q))
  {
    RunViews(links, p, events);
    assert MemberView(Run(links, events), p, q);
  }

  /** Founder agreement, joining: the address sent to a joiner is that of the longest-standing
      member of its group after the join, which is the joiner itself when the group is new. */
  lemma BssidIsFounder(links: Crosslinks, events: seq<Event>, x: Fd, name: Bytes)
    requires x in Run(links, events).users && Run(links, events).users[x].id.Some? && Run(links, events).users[x].group.None?
    ensures var db := Run(links, events);
      && Linked(db, x)
      && var db', key := JoinGroup(db, x, name), (db.users[x].id.value.game, name);
      && x in db'.inbox && db'.inbox[x] != [] && key in db'.groups
      && InJoinOrder(db'.users, db'.groups[key].players, db'.clock)
      && exists f :: LongestStanding(db', key, f) && f in db'.users && db'.users[f].id.Some?
           && db'.inbox[x][|db'.inbox[x]| - 1] == BssidReply(db'.users[f].id.value.mac)
           && (key !in db.groups ==> f == x)
  {
    KnownPolicies();
    RunViews(links, Keep, events);
    var db := Run(links, events);
    Found(db, x);
    JoinViews(db, Keep, x, name);
    var db', key := JoinGroup(db, x, name), (db.users[x].id.value.game, name);
    NewcomerOutside(db, x, key);
    JoinInboxTo(db, x, name, x);
    LastIsFounder(db', key);
    var players := PlayersBefore(db, key);
    var all := db'.groups[key].players;
    assert all == [x] + players;
    var f := all[|all| - 1];
    assert players != [] ==> f == players[|players| - 1] && f in players;
    assert LongestStanding(db', key, f);
  }

  ghost predicate ReportedAs(db: Db, r: Reply, name: Bytes, f: Fd) {
    f in db.users && db.users[f].id.Some? && r == ScanReply(name, db.users[f].id.value.mac)
  }

  /** Founder agreement, scanning: a scan reports for each group of the game, in list order,
      the address of its longest-standing member. */
  lemma {:induction false} ScanReportsFounders(db: Db, code: Bytes, names: seq<Bytes>, i: nat)
    requires DbInv(db) && OrdersOk(db) && i < |names| && (code, names[i]) in db.groups
    ensures i < |ScanReplies(db, code, names)|
    ensures InJoinOrder(db.users, db.groups[(code, names[i])].players, db.clock)
    ensures exists f :: LongestStanding(db, (code, names[i]), f) && ReportedAs(db, ScanReplies(db, code, names)[i], names[i], f)
  {
    if i > 0 {
      ScanReportsFounders(db, code, names[1..], i - 1);
    } else {
      var key := (code, names[0]);
      LastIsFounder(db, key);
      MembersNamed(db, key);
      var players := db.groups[key].players;
      var f := players[|players| - 1];
      assert f in players && LongestStanding(db, key, f);
    }
  }

  /** In every run, a scan of a game reports the longest-standing member of each of its groups. */
  lemma ScanAgreement(links: Crosslinks, events: seq<Event>, code: Bytes, i: nat)
    requires code in Run(links, events).games && i < |Run(links, events).games[code].groups|
    ensures var db := Run(links, events);
      var names := db.games[code].groups;
      var key := (code, names[i]);
      && key in db.groups && InJoinOrder(db.users, db.groups[key].players, db.clock)
      && i < |ScanReplies(db, code, names)|
      && exists f :: LongestStanding(db, key, f) && ReportedAs(db, ScanReplies(db, code, names)[i], names[i], f)
  {
    KnownPolicies();
    RunViews(links, Keep, events);
    var db := Run(links, events);
    assert GameOk(db, code);
    assert db.games[code].groups[i] in db.games[code].groups;
    ScanReportsFounders(db, code, db.games[code].groups, i);
  }
}
