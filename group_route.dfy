/** The group time-series endpoint: it reads a comma-separated list of
    usernames and a skill name from the query string, looks the players up,
    loads all their snapshots oldest first, groups them per player and
    answers, for each requested username that has a player id, one point per
    snapshot with that skill's xp, level and rank. The two database queries
    are modelled as filters over the player and snapshot tables, which are
    passed in (the snapshot table in the order the database returns it when
    asked for ascending `recordedAt`). */
module GroupRoute {
  import opened Wrappers
  import opened JsText

  /** One skill's numbers inside a snapshot's JSON; a null or absent value is `None`. */
  datatype SkillData = SkillData(xp: Option<int>, level: Option<int>, rank: Option<int>)

  /** A player row as selected by the first query. */
  datatype PlayerRec = PlayerRec(id: int, username: string)

  /** A snapshot row: its owner, when it was recorded (milliseconds since the
      epoch) and the `skills` object of its JSON data, if it has one. */
  datatype Snapshot = Snapshot(playerId: int, recordedAt: int, skills: Option<map<string, SkillData>>)

  /** One point of a series; `timestamp` is `recordedAt` (its ISO rendering is not modelled). */
  datatype Point = Point(timestamp: int, exp: int, level: int, rank: Option<int>)

  datatype Body = Error(message: string) | SeriesBody(series: map<string, seq<Point>>)

  /** The JSON response and its HTTP status. */
  datatype Response = Response(status: int, body: Body)

  const MissingParams: string := "players and skill are required"

  // ---------------------------------------------------------------------
  // Query parameters
  // ---------------------------------------------------------------------

  /** A parameter is rejected when it is absent or empty (both are falsy). */
  predicate Missing(p: Option<string>) {
    p.None? || p.value == ""
  }

  lemma TrimKeeps(s: string, c: char)
    ensures c in Trim(s) ==> c in s
  {
    var t := TrimStart(s);
    assert t == s[|s| - |t|..];
    assert Trim(s) == TrimEnd(t) == t[..|TrimEnd(t)|];
  }

  /** `.map((u) => u.trim())`. */
  function TrimAll(pieces: seq<string>): (r: seq<string>)
    ensures |r| == |pieces|
    ensures forall i :: 0 <= i < |r| ==> Trimmed(r[i]) && r[i] == Trim(pieces[i])
  {
    seq(|pieces|, i requires 0 <= i < |pieces| => Trim(pieces[i]))
  }

  /** `.filter(Boolean)` on strings: drops the empty ones, keeping the order. */
  function KeepNonEmpty(pieces: seq<string>): (r: seq<string>)
    ensures |r| <= |pieces|
    ensures "" !in r
    ensures "" !in pieces ==> r == pieces
  {
    if pieces == [] then []
    else (if pieces[0] == "" then [] else [pieces[0]]) + KeepNonEmpty(pieces[1..])
  }

  /** The filter works piece by piece, so the kept pieces stay in their
      original order with their multiplicity. */
  lemma {:induction false} KeepNonEmptyAppend(a: seq<string>, b: seq<string>)
    ensures KeepNonEmpty(a + b) == KeepNonEmpty(a) + KeepNonEmpty(b)
  {
    if a != [] {
      var head: seq<string> := if a[0] == "" then [] else [a[0]];
      assert (a + b)[0] == a[0];
      assert (a + b)[1..] == a[1..] + b;
      assert KeepNonEmpty(a + b) == head + KeepNonEmpty(a[1..] + b);
      KeepNonEmptyAppend(a[1..], b);
      assert KeepNonEmpty(a) == head + KeepNonEmpty(a[1..]);
    } else {
      assert a + b == b;
    }
  }

  lemma {:induction false} KeepNonEmptyMember(pieces: seq<string>, x: string)
    ensures x in KeepNonEmpty(pieces) <==> x in pieces && x != ""
  {
    if pieces != [] {
      KeepNonEmptyMember(pieces[1..], x);
      assert pieces == [pieces[0]] + pieces[1..];
    }
  }

  /** A usable username: nonempty, no surrounding whitespace, no comma. */
  predicate CleanName(x: string) {
    x != "" && Trimmed(x) && ',' !in x
  }

  /** The username list: the comma-separated pieces, trimmed, empty ones dropped. */
  function ParseUsernames(param: string): (r: seq<string>)
    ensures forall i :: 0 <= i < |r| ==> CleanName(r[i])
  {
    var pieces := Split(param, ',');
    var t := TrimAll(pieces);
    var r := KeepNonEmpty(t);
    forall i | 0 <= i < |r|
      ensures CleanName(r[i])
    {
      KeepNonEmptyMember(t, r[i]);
      var j :| 0 <= j < |t| && t[j] == r[i];
      TrimKeeps(pieces[j], ',');
    }
    r
  }

  /** A name is parsed exactly when it is the nonempty trim of one of the comma-separated pieces. */
  lemma ParsedUsernames(param: string, x: string)
    ensures x in ParseUsernames(param) <==> x != "" && exists p :: p in Split(param, ',') && Trim(p) == x
  {
    var pieces := Split(param, ',');
    KeepNonEmptyMember(TrimAll(pieces), x);
    TrimAllMember(pieces, x);
  }

  lemma TrimAllMember(pieces: seq<string>, x: string)
    ensures x in TrimAll(pieces) <==> exists p :: p in pieces && Trim(p) == x
  {
    var t := TrimAll(pieces);
    if x in t {
      var j :| 0 <= j < |t| && t[j] == x;
      assert pieces[j] in pieces;
    }
    if exists p :: p in pieces && Trim(p) == x {
      var p :| p in pieces && Trim(p) == x;
      var j :| 0 <= j < |pieces| && pieces[j] == p;
      assert t[j] == x;
    }
  }

  lemma {:induction false} KeepNonEmptyAll(names: seq<string>)
    requires forall i :: 0 <= i < |names| ==> names[i] != ""
    ensures KeepNonEmpty(names) == names
  {
    if names != [] {
      KeepNonEmptyAll(names[1..]);
    }
  }

  /** Joining clean usernames with commas and parsing gives them back, in order. */
  lemma UsernamesRoundTrip(names: seq<string>)
    requires forall i :: 0 <= i < |names| ==> CleanName(names[i])
    ensures ParseUsernames(Join(names, ',')) == names
  {
    if names == [] {
      EmptyParamParses();
      return;
    }
    SplitJoin(names, ',');
    forall i | 0 <= i < |names|
      ensures Trim(names[i]) == names[i]
    {
      TrimOfTrimmed(names[i]);
    }
    assert TrimAll(names) == names;
    KeepNonEmptyAll(names);
  }

  /** An empty list parameter names nobody. */
  lemma EmptyParamParses()
    ensures ParseUsernames("") == []
  {
    SplitHead("", ',', "");
    TrimOfTrimmed("");
    assert TrimAll(Split("", ',')) == [""];
  }

  /** Parsing is idempotent on its own output re-joined with commas. */
  lemma UsernamesStable(param: string)
    ensures ParseUsernames(Join(ParseUsernames(param), ',')) == ParseUsernames(param)
  {
    UsernamesRoundTrip(ParseUsernames(param));
  }

  // ---------------------------------------------------------------------
  // The two queries and the username-to-id map
  // ---------------------------------------------------------------------

  /** `player.findMany({ where: { username: { in: usernames } } })`, keeping the table's order. */
  function FindPlayers(table: seq<PlayerRec>, usernames: seq<string>): (r: seq<PlayerRec>)
    ensures |r| <= |table|
  {
    if table == [] then []
    else
      var n := |table| - 1;
      FindPlayers(table[..n], usernames) + (if table[n].username in usernames then [table[n]] else [])
  }

  /** The first query returns exactly the rows whose username was asked for. */
  lemma {:induction false} FoundPlayers(table: seq<PlayerRec>, usernames: seq<string>, p: PlayerRec)
    ensures p in FindPlayers(table, usernames) <==> p in table && p.username in usernames
  {
    if table != [] {
      var n := |table| - 1;
      assert table == table[..n] + [table[n]];
      FoundPlayers(table[..n], usernames, p);
    }
  }

  function IdSet(players: seq<PlayerRec>): set<int> {
    set p | p in players :: p.id
  }

  /** `snapshot.findMany({ where: { playerId: { in: ids } } })`, keeping the table's order. */
  function FindSnapshots(table: seq<Snapshot>, ids: set<int>): (r: seq<Snapshot>)
    ensures |r| <= |table|
  {
    if table == [] then []
    else
      var n := |table| - 1;
      FindSnapshots(table[..n], ids) + (if table[n].playerId in ids then [table[n]] else [])
  }

  /** `new Map(players.map((p) => [p.username, p.id]))`: a later row overwrites an earlier one. */
  function IdMap(players: seq<PlayerRec>): (m: map<string, int>)
    ensures |m| <= |players|
  {
    if players == [] then map[]
    else
      var n := |players| - 1;
      IdMap(players[..n])[players[n].username := players[n].id]
  }

  /** A username is in the map exactly when some row carries it. */
  lemma {:induction false} IdMapKeys(players: seq<PlayerRec>, u: string)
    ensures u in IdMap(players) <==> exists p :: p in players && p.username == u
  {
    if players != [] {
      var n := |players| - 1;
      assert players == players[..n] + [players[n]];
      IdMapKeys(players[..n], u);
    }
  }

  /** The id kept for a username is that of the last row carrying it. */
  lemma {:induction false} IdMapLastWins(players: seq<PlayerRec>, i: int)
    requires 0 <= i < |players|
    requires forall j :: i < j < |players| ==> players[j].username != players[i].username
    ensures players[i].username in IdMap(players)
    ensures IdMap(players)[players[i].username] == players[i].id
  {
    var n := |players| - 1;
    if i < n {
      assert players[..n][i] == players[i];
      IdMapLastWins(players[..n], i);
    }
  }

  /** Every id in the map belongs to a row with that username. */
  lemma {:induction false} IdMapFromRow(players: seq<PlayerRec>, u: string)
    requires u in IdMap(players)
    ensures exists p :: p in players && p.username == u && p.id == IdMap(players)[u]
  {
    var n := |players| - 1;
    if players[n].username != u {
      IdMapFromRow(players[..n], u);
      var p :| p in players[..n] && p.username == u && p.id == IdMap(players[..n])[u];
      assert p in players;
    } else {
      assert players[n] in players;
    }
  }

  // ---------------------------------------------------------------------
  // Grouping snapshots per player
  // ---------------------------------------------------------------------

  /** The snapshots of one player, in their original order. */
  function SnapsOf(snaps: seq<Snapshot>, id: int): (r: seq<Snapshot>)
    ensures |r| <= |snaps|
  {
    if snaps == [] then []
    else
      var n := |snaps| - 1;
      SnapsOf(snaps[..n], id) + (if snaps[n].playerId == id then [snaps[n]] else [])
  }

  /** Each snapshot lands in its own player's group exactly as many times as it occurs, and in no other. */
  lemma {:induction false} SnapsOfCounts(snaps: seq<Snapshot>, id: int, s: Snapshot)
    ensures multiset(SnapsOf(snaps, id))[s] == if s.playerId == id then multiset(snaps)[s] else 0
  {
    if snaps != [] {
      var n := |snaps| - 1;
      assert snaps == snaps[..n] + [snaps[n]];
      SnapsOfCounts(snaps[..n], id, s);
    }
  }

  lemma SnapsOfMember(snaps: seq<Snapshot>, id: int, s: Snapshot)
    ensures s in SnapsOf(snaps, id) <==> s in snaps && s.playerId == id
  {
    SnapsOfCounts(snaps, id, s);
  }

  function PlayerIds(snaps: seq<Snapshot>): set<int> {
    set s | s in snaps :: s.playerId
  }

  /** A player with no snapshot has an empty group. */
  lemma SnapsOfAbsent(snaps: seq<Snapshot>, id: int)
    requires id !in PlayerIds(snaps)
    ensures SnapsOf(snaps, id) == []
  {
    if SnapsOf(snaps, id) != [] {
      SnapsOfMember(snaps, id, SnapsOf(snaps, id)[0]);
    }
  }

  /** The grouping the loop below builds: one entry per player id present. */
  function GroupSpec(snaps: seq<Snapshot>): map<int, seq<Snapshot>> {
    map id | id in PlayerIds(snaps) :: SnapsOf(snaps, id)
  }

  /** The `snapsByPlayerId` loop: appends each snapshot to its player's list. */
  method GroupByPlayer(snaps: seq<Snapshot>) returns (groups: map<int, seq<Snapshot>>)
    ensures groups.Keys == PlayerIds(snaps)
    ensures forall id :: id in groups ==> groups[id] == SnapsOf(snaps, id)
    ensures groups == GroupSpec(snaps)
  {
    groups := map[];
    var i := 0;
    while i < |snaps|
      invariant 0 <= i <= |snaps|
      invariant groups.Keys == PlayerIds(snaps[..i])
      invariant forall id :: id in groups ==> groups[id] == SnapsOf(snaps[..i], id)
    {
      var snap := snaps[i];
      assert snaps[..i + 1][..i] == snaps[..i];
      assert snaps[..i + 1] == snaps[..i] + [snap];
      if snap.playerId in groups {
        groups := groups[snap.playerId := groups[snap.playerId] + [snap]];
      } else {
        SnapsOfAbsent(snaps[..i], snap.playerId);
        groups := groups[snap.playerId := [snap]];
      }
      i := i + 1;
    }
    assert snaps[..i] == snaps;
    assert groups == GroupSpec(snaps);
  }

  predicate Ascending(snaps: seq<Snapshot>) {
    forall i, j :: 0 <= i < j < |snaps| ==> snaps[i].recordedAt <= snaps[j].recordedAt
  }

  /** A group taken from a time-ordered list is time-ordered. */
  lemma {:induction false} SnapsOfAscending(snaps: seq<Snapshot>, id: int)
    requires Ascending(snaps)
    ensures Ascending(SnapsOf(snaps, id))
  {
    if snaps != [] {
      var n := |snaps| - 1;
      var front := snaps[..n];
      assert Ascending(front);
      SnapsOfAscending(front, id);
      var g := SnapsOf(front, id);
      forall k | 0 <= k < |g|
        ensures g[k].recordedAt <= snaps[n].recordedAt
      {
        SnapsOfMember(front, id, g[k]);
        var j :| 0 <= j < n && front[j] == g[k];
      }
    }
  }

  /** Filtering the table by a set of ids and then by one of them is filtering by that one. */
  lemma {:induction false} SnapsOfFind(table: seq<Snapshot>, ids: set<int>, id: int)
    requires id in ids
    ensures SnapsOf(FindSnapshots(table, ids), id) == SnapsOf(table, id)
  {
    if table != [] {
      var n := |table| - 1;
      var f := FindSnapshots(table[..n], ids);
      SnapsOfFind(table[..n], ids, id);
      var last := if table[n].playerId == id then [table[n]] else [];
      assert SnapsOf(table, id) == SnapsOf(table[..n], id) + last;
      if table[n].playerId in ids {
        var g := f + [table[n]];
        assert FindSnapshots(table, ids) == g;
        assert g[..|g| - 1] == f;
        assert SnapsOf(g, id) == SnapsOf(f, id) + last;
      } else {
        assert FindSnapshots(table, ids) == f + [] == f;
        assert last == [] && SnapsOf(table[..n], id) + last == SnapsOf(table[..n], id);
      }
    }
  }

  // ---------------------------------------------------------------------
  // Points and series
  // ---------------------------------------------------------------------

  /** `data.skills?.[skill]`. */
  function SkillOf(snap: Snapshot, skill: string): (r: Option<SkillData>)
    ensures r.Some? <==> snap.skills.Some? && skill in snap.skills.value
    ensures r.Some? ==> r.value == snap.skills.value[skill]
  {
    match snap.skills
    case None => None
    case Some(m) => if skill in m then Some(m[skill]) else None
  }

  /** One snapshot as a point of the series for `skill`. */
  function ToPoint(snap: Snapshot, skill: string): (p: Point)
    ensures p.timestamp == snap.recordedAt
    ensures SkillOf(snap, skill).None? ==> p == Point(snap.recordedAt, 0, 1, None)
    ensures SkillOf(snap, skill).Some? ==> p.rank == SkillOf(snap, skill).value.rank
    ensures SkillOf(snap, skill).Some? && SkillOf(snap, skill).value.xp.Some? ==>
              p.exp == SkillOf(snap, skill).value.xp.value
    ensures SkillOf(snap, skill).Some? && SkillOf(snap, skill).value.level.Some? ==>
              p.level == SkillOf(snap, skill).value.level.value
    ensures SkillOf(snap, skill).Some? && SkillOf(snap, skill).value.xp.None? ==> p.exp == 0
    ensures SkillOf(snap, skill).Some? && SkillOf(snap, skill).value.level.None? ==> p.level == 1
  {
    var d := SkillOf(snap, skill).GetOr(SkillData(None, None, None));
    Point(snap.recordedAt, d.xp.GetOr(0), d.level.GetOr(1), d.rank)
  }

  /** A skill stored with all three numbers reads back as exactly those numbers,
      whatever their sign (an unranked `-1` stays `-1`). */
  lemma StoredSkillReadsBack(id: int, t: int, m: map<string, SkillData>, skill: string, rank: int, level: int, xp: int)
    requires skill in m && m[skill] == SkillData(Some(xp), Some(level), Some(rank))
    ensures ToPoint(Snapshot(id, t, Some(m)), skill) == Point(t, xp, level, Some(rank))
  {
  }

  /** `snaps.map(...)`. */
  function Points(snaps: seq<Snapshot>, skill: string): (r: seq<Point>)
    ensures |r| == |snaps|
  {
    seq(|snaps|, i requires 0 <= i < |snaps| => ToPoint(snaps[i], skill))
  }

  /** A username gets a series when the map has an id for it that is truthy (nonzero). */
  predicate HasId(ids: map<string, int>, u: string) {
    u in ids && ids[u] != 0
  }

  /** `snapsByPlayerId.get(id) ?? []`. */
  function GroupOf(groups: map<int, seq<Snapshot>>, id: int): seq<Snapshot> {
    if id in groups then groups[id] else []
  }

  /** The series the loop below builds. */
  function SeriesSpec(usernames: seq<string>, ids: map<string, int>, groups: map<int, seq<Snapshot>>, skill: string): map<string, seq<Point>> {
    map u | u in usernames && HasId(ids, u) :: Points(GroupOf(groups, ids[u]), skill)
  }

  /** The `for (const username of usernames)` loop filling `series`. */
  method BuildSeries(usernames: seq<string>, ids: map<string, int>, groups: map<int, seq<Snapshot>>, skill: string)
    returns (series: map<string, seq<Point>>)
    ensures series.Keys == set u | u in usernames && HasId(ids, u)
    ensures forall u :: u in series ==> series[u] == Points(GroupOf(groups, ids[u]), skill)
    ensures series == SeriesSpec(usernames, ids, groups, skill)
  {
    series := map[];
    var i := 0;
    while i < |usernames|
      invariant 0 <= i <= |usernames|
      invariant series == SeriesSpec(usernames[..i], ids, groups, skill)
    {
      var u := usernames[i];
      assert usernames[..i + 1] == usernames[..i] + [u];
      if HasId(ids, u) {
        series := series[u := Points(GroupOf(groups, ids[u]), skill)];
      }
      i := i + 1;
    }
    assert usernames[..i] == usernames;
  }

  // ---------------------------------------------------------------------
  // The handler
  // ---------------------------------------------------------------------

  /** The series for a nonempty username list and a nonempty player match. */
  function SeriesFor(usernames: seq<string>, found: seq<PlayerRec>, snapshotTable: seq<Snapshot>, skill: string): map<string, seq<Point>> {
    SeriesSpec(usernames, IdMap(found), GroupSpec(FindSnapshots(snapshotTable, IdSet(found))), skill)
  }

  /** What `GET` answers, as a function of the query and the two tables:
      the 400 answer comes exactly when a parameter is absent or empty, and
      every other answer is a 200 series. */
  function RouteSpec(players: Option<string>, skill: Option<string>, playerTable: seq<PlayerRec>, snapshotTable: seq<Snapshot>): (r: Response)
    ensures r.status == 400 <==> Missing(players) || Missing(skill)
    ensures r.status == 400 <==> r.body == Error(MissingParams)
    ensures r.status != 400 ==> r.status == 200 && r.body.SeriesBody?
  {
    if Missing(players) || Missing(skill) then Response(400, Error(MissingParams))
    else
      var usernames := ParseUsernames(players.value);
      if usernames == [] then Response(200, SeriesBody(map[]))
      else
        var found := FindPlayers(playerTable, usernames);
        if found == [] then Response(200, SeriesBody(map[]))
        else Response(200, SeriesBody(SeriesFor(usernames, found, snapshotTable, skill.value)))
  }

  /** `GET /api/timeseries/group?players=…&skill=…`. */
  method Get(players: Option<string>, skill: Option<string>, playerTable: seq<PlayerRec>, snapshotTable: seq<Snapshot>)
    returns (r: Response)
    ensures r == RouteSpec(players, skill, playerTable, snapshotTable)
  {
    if Missing(players) || Missing(skill) {
      return Response(400, Error(MissingParams));
    }
    var usernames := ParseUsernames(players.value);
    if |usernames| == 0 {
      return Response(200, SeriesBody(map[]));
    }
    var found := FindPlayers(playerTable, usernames);
    if |found| == 0 {
      return Response(200, SeriesBody(map[]));
    }
    var ids := IdMap(found);
    var snapshots := FindSnapshots(snapshotTable, IdSet(found));
    var groups := GroupByPlayer(snapshots);
    var series := BuildSeries(usernames, ids, groups, skill.value);
    return Response(200, SeriesBody(series));
  }

  /** No usable username, or no player row for any of them, gives an empty series. */
  lemma EmptySeries(players: string, skill: string, playerTable: seq<PlayerRec>, snapshotTable: seq<Snapshot>)
    requires players != "" && skill != ""
    requires forall p :: p in playerTable ==> p.username !in ParseUsernames(players)
    ensures RouteSpec(Some(players), Some(skill), playerTable, snapshotTable) == Response(200, SeriesBody(map[]))
  {
    var usernames := ParseUsernames(players);
    var found := FindPlayers(playerTable, usernames);
    if found != [] {
      FoundPlayers(playerTable, usernames, found[0]);
    }
  }

  /** The series keys are exactly the requested usernames whose player id is nonzero. */
  lemma SeriesKeys(usernames: seq<string>, found: seq<PlayerRec>, snapshotTable: seq<Snapshot>, skill: string, u: string)
    ensures u in SeriesFor(usernames, found, snapshotTable, skill) <==> u in usernames && HasId(IdMap(found), u)
  {
  }

  /** When every player id is positive (database ids are), a requested
      username is a key exactly when some player row carries it. */
  lemma SeriesKeysPositiveIds(players: string, skill: string, playerTable: seq<PlayerRec>, snapshotTable: seq<Snapshot>, u: string)
    requires players != "" && skill != ""
    requires forall p :: p in playerTable ==> p.id > 0
    ensures var r := RouteSpec(Some(players), Some(skill), playerTable, snapshotTable);
            r.body.SeriesBody? &&
            (u in r.body.series <==> u in ParseUsernames(players) && exists p :: p in playerTable && p.username == u)
  {
    var usernames := ParseUsernames(players);
    var found := FindPlayers(playerTable, usernames);
    FoundIdPositive(playerTable, usernames, u);
    if found != [] && usernames != [] {
      SeriesKeys(usernames, found, snapshotTable, skill, u);
    }
  }

  /** With positive ids, a requested username has an id exactly when some
      player row carries it. */
  lemma FoundIdPositive(playerTable: seq<PlayerRec>, usernames: seq<string>, u: string)
    requires forall p :: p in playerTable ==> p.id > 0
    ensures HasId(IdMap(FindPlayers(playerTable, usernames)), u) <==>
            u in usernames && exists p :: p in playerTable && p.username == u
  {
    var found := FindPlayers(playerTable, usernames);
    IdMapKeys(found, u);
    if u in IdMap(found) {
      IdMapFromRow(found, u);
      var p :| p in found && p.username == u && p.id == IdMap(found)[u];
      FoundPlayers(playerTable, usernames, p);
    }
    if u in usernames && exists p :: p in playerTable && p.username == u {
      var p :| p in playerTable && p.username == u;
      FoundPlayers(playerTable, usernames, p);
      IdMapFromRow(found, u);
      var q :| q in found && q.username == u && q.id == IdMap(found)[u];
      FoundPlayers(playerTable, usernames, q);
    }
  }

  /** A user's series has one point per snapshot of that player in the
      snapshot table, in table order, read from the requested skill. */
  lemma SeriesPoints(usernames: seq<string>, found: seq<PlayerRec>, snapshotTable: seq<Snapshot>, skill: string, u: string)
    requires u in SeriesFor(usernames, found, snapshotTable, skill)
    ensures exists p :: p in found && p.username == u && p.id == IdMap(found)[u] &&
              SeriesFor(usernames, found, snapshotTable, skill)[u] == Points(SnapsOf(snapshotTable, p.id), skill)
  {
    IdMapFromRow(found, u);
    var p :| p in found && p.username == u && p.id == IdMap(found)[u];
    var ids := IdSet(found);
    assert p.id in ids;
    var snapshots := FindSnapshots(snapshotTable, ids);
    SnapsOfFind(snapshotTable, ids, p.id);
    if p.id !in PlayerIds(snapshots) {
      SnapsOfAbsent(snapshots, p.id);
    }
  }
}
