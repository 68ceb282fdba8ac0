/** The user counts that `update_status` of status.c writes for each game. */
module ServerStatus {
  import opened ServerSpec
  import opened ServerInvariant

  /** The counters of some groups of a game, added up. */
  function ActiveCount(db: Db, code: Bytes, names: seq<Bytes>): int {
    if names == [] then 0
    else
      (if (code, names[|names| - 1]) in db.groups then db.groups[(code, names[|names| - 1])].playercount else 0)
      + ActiveCount(db, code, names[..|names| - 1])
  }

  /** The players of a game that are in one of the named groups. */
  ghost function InGroups(users: map<Fd, User>, code: Bytes, names: seq<Bytes>): set<Fd> {
    set fd | fd in users && Plays(users[fd], code) && users[fd].group.Some? && users[fd].group.value in names
  }

  ghost function Groupless(users: map<Fd, User>, code: Bytes): set<Fd> {
    set fd | fd in users && Plays(users[fd], code) && users[fd].group.None?
  }

  lemma GroupPlayers(db: Db, code: Bytes, name: Bytes)
    requires DbInv(db) && (code, name) in db.groups
    ensures db.groups[(code, name)].playercount == |InGroups(db.users, code, [name])|
  {
    assert GroupOk(db, (code, name));
    DistinctCount(db.groups[(code, name)].players, InGroups(db.users, code, [name]));
  }

  lemma InGroupsGrows(users: map<Fd, User>, code: Bytes, names: seq<Bytes>, name: Bytes)
    requires name !in names
    ensures |InGroups(users, code, names + [name])| == |InGroups(users, code, names)| + |InGroups(users, code, [name])|
  {
    var before, more := InGroups(users, code, names), InGroups(users, code, [name]);
    assert InGroups(users, code, names + [name]) == before + more;
    assert before !! more;
  }

  lemma {:induction false} ActiveAreGrouped(db: Db, code: Bytes, names: seq<Bytes>)
    requires DbInv(db) && Distinct(names) && forall name :: name in names ==> (code, name) in db.groups
    ensures ActiveCount(db, code, names) == |InGroups(db.users, code, names)|
  {
    if names == [] {
      assert InGroups(db.users, code, names) == {};
    } else {
      var rest, last := names[..|names| - 1], names[|names| - 1];
      assert names == rest + [last] && last in names;
      ActiveAreGrouped(db, code, rest);
      GroupPlayers(db, code, last);
      InGroupsGrows(db.users, code, rest, last);
    }
  }

  lemma PlayersSplit(db: Db, code: Bytes, names: seq<Bytes>)
    requires DbInv(db) && code in db.games && names == db.games[code].groups
    ensures |PlayersOf(db.users, code)| == |InGroups(db.users, code, names)| + |Groupless(db.users, code)|
  {
    assert GameOk(db, code);
    forall fd | fd in db.users && Plays(db.users[fd], code) && db.users[fd].group.Some?
      ensures db.users[fd].group.value in names
    {
      assert UserLinked(db, db.users[fd]);
    }
    var grouped, others := InGroups(db.users, code, names), Groupless(db.users, code);
    assert PlayersOf(db.users, code) == grouped + others;
    assert grouped !! others;
  }

  /** In every run, what is left of a game's counter after its groups is the number of its
      players in no group; the subtraction never goes below zero. */
  lemma GrouplessCount(links: Crosslinks, events: seq<Event>, code: Bytes)
    requires code in Run(links, events).games
    ensures var db := Run(links, events);
      db.games[code].playercount - ActiveCount(db, code, db.games[code].groups) == |Groupless(db.users, code)|
  {
    RunConsistent(links, events);
    var db := Run(links, events);
    assert GameOk(db, code);
    var names := db.games[code].groups;
    ActiveAreGrouped(db, code, names);
    PlayersSplit(db, code, names);
  }

  /** The loop over the groups of a game, and the count that is written behind them. */
  method CountGroupless(db: Db, code: Bytes) returns (activecount: int, groupless: int)
    requires DbInv(db) && code in db.games
    ensures activecount == ActiveCount(db, code, db.games[code].groups)
    ensures groupless == if db.games[code].playercount > activecount then db.games[code].playercount - activecount else 0
  {
    activecount := 0;
    var names := db.games[code].groups;
    for group := 0 to |names|
      invariant activecount == ActiveCount(db, code, names[..group])
    {
      assert names[..group + 1][..group] == names[..group];
      if (code, names[group]) in db.groups {
        activecount := activecount + db.groups[(code, names[group])].playercount;
      }
    }
    assert names[..|names|] == names;
    groupless := if db.games[code].playercount > activecount then db.games[code].playercount - activecount else 0;
  }
}
