/** The leaderboard page: one row per loaded player for the selected skill,
    ordered by the column the user picked and then by a fixed tie-break
    chain, numbered 1..n in display order; the header state machine that
    picks the column and direction; and the step of the page load that
    splits the settled fetches into loaded players and failed names. */
module Leaderboard {
  import opened Wrappers
  import opened JsText
  import ArraySort

  datatype SkillTriple = SkillTriple(rank: int, level: int, xp: int)

  /** What the per-player endpoint returns. */
  datatype PlayerPayload = PlayerPayload(player: string, skills: map<string, SkillTriple>, order: seq<string>)

  datatype SortKey = ByPlayer | ByLevel | ByXp | ByRank
  datatype SortDir = Asc | Desc

  /** The header state: the column sorted on and its direction. */
  datatype SortState = SortState(key: SortKey, dir: SortDir)

  /** One table row before numbering. */
  datatype Row = Row(player: string, level: int, xp: int, rank: int)

  /** A displayed row: its position in the group and the row itself. */
  datatype RankedRow = RankedRow(groupRank: int, row: Row)

  const DefaultNames: seq<string> := ["Zoobz69", "loub0t69", "Melburne6", "Alexiisss", "JonezyAU", "ThyJamison"]

  // ---------------------------------------------------------------------
  // The comparator
  // ---------------------------------------------------------------------

  /** The selected column's comparison: name order or the numeric difference. */
  function Primary(a: Row, b: Row, key: SortKey): (r: int)
    ensures r == 0 <==> match key
      case ByPlayer => a.player == b.player
      case ByLevel => a.level == b.level
      case ByXp => a.xp == b.xp
      case ByRank => a.rank == b.rank
    ensures key == ByPlayer ==> r == StrCompare(a.player, b.player)
    ensures key == ByLevel ==> (r < 0 <==> a.level < b.level)
    ensures key == ByXp ==> (r < 0 <==> a.xp < b.xp)
    ensures key == ByRank ==> (r < 0 <==> a.rank < b.rank)
  {
    StrCompareAntisymmetric(a.player, b.player);
    match key
    case ByPlayer => StrCompare(a.player, b.player)
    case ByLevel => a.level - b.level
    case ByXp => a.xp - b.xp
    case ByRank => a.rank - b.rank
  }

  /** The fixed tie-break chain: level high to low, experience high to low,
      rank low to high, then name. */
  function TieBreak(a: Row, b: Row): (r: int)
    ensures r == 0 <==> a == b
    ensures a.level != b.level ==> (r < 0 <==> a.level > b.level)
    ensures a.level == b.level && a.xp != b.xp ==> (r < 0 <==> a.xp > b.xp)
    ensures a.level == b.level && a.xp == b.xp && a.rank != b.rank ==> (r < 0 <==> a.rank < b.rank)
    ensures a.level == b.level && a.xp == b.xp && a.rank == b.rank ==> r == StrCompare(a.player, b.player)
  {
    StrCompareAntisymmetric(a.player, b.player);
    if b.level - a.level != 0 then b.level - a.level
    else if b.xp - a.xp != 0 then b.xp - a.xp
    else if a.rank - b.rank != 0 then a.rank - b.rank
    else StrCompare(a.player, b.player)
  }

  /** The comparator handed to `sort`. */
  function Compare(a: Row, b: Row, key: SortKey, dir: SortDir): (r: int)
    ensures r == 0 <==> a == b
    ensures Primary(a, b, key) != 0 ==> (r < 0 <==> (Primary(a, b, key) < 0) == (dir == Asc))
  {
    var primary := Primary(a, b, key);
    if primary != 0 then (if dir == Asc then primary else -primary)
    else TieBreak(a, b)
  }

  function RowOrder(key: SortKey, dir: SortDir): (Row, Row) -> int {
    (a: Row, b: Row) => Compare(a, b, key, dir)
  }

  /** When the selected column differs, it alone decides, and the two
      directions give opposite answers. */
  lemma SelectedKeyDecides(a: Row, b: Row, key: SortKey)
    requires Primary(a, b, key) != 0
    ensures Compare(a, b, key, Asc) == Primary(a, b, key)
    ensures Compare(a, b, key, Desc) == -Compare(a, b, key, Asc)
    ensures Compare(a, b, key, Asc) < 0 <==> Compare(b, a, key, Asc) > 0
  {
    StrCompareAntisymmetric(a.player, b.player);
  }

  /** When the selected column ties, the tie-break chain decides, whatever the direction. */
  lemma TieChainIgnoresDirection(a: Row, b: Row, key: SortKey)
    requires Primary(a, b, key) == 0
    ensures Compare(a, b, key, Asc) == Compare(a, b, key, Desc) == TieBreak(a, b)
  {
  }

  lemma PlayerFacts(a: Row, b: Row, c: Row)
    ensures StrCompare(b.player, a.player) == -StrCompare(a.player, b.player)
    ensures StrCompare(c.player, b.player) == -StrCompare(b.player, c.player)
    ensures StrCompare(c.player, a.player) == -StrCompare(a.player, c.player)
    ensures StrCompare(a.player, b.player) == 0 <==> a.player == b.player
    ensures StrCompare(b.player, c.player) == 0 <==> b.player == c.player
    ensures StrCompare(a.player, c.player) == 0 <==> a.player == c.player
    ensures StrCompare(a.player, b.player) <= 0 && StrCompare(b.player, c.player) <= 0 ==>
              StrCompare(a.player, c.player) <= 0
  {
    StrCompareAntisymmetric(a.player, b.player);
    StrCompareAntisymmetric(b.player, c.player);
    StrCompareAntisymmetric(a.player, c.player);
    if StrCompare(a.player, b.player) <= 0 && StrCompare(b.player, c.player) <= 0 {
      StrCompareTransitive(a.player, b.player, c.player);
    }
  }

  /** Swapping the rows negates the comparison, and only identical rows compare equal. */
  lemma CompareAntisymmetric(a: Row, b: Row, key: SortKey, dir: SortDir)
    ensures Compare(b, a, key, dir) == -Compare(a, b, key, dir)
    ensures Compare(a, b, key, dir) == 0 <==> a == b
  {
    StrCompareAntisymmetric(a.player, b.player);
  }

  lemma TieBreakTransitive(a: Row, b: Row, c: Row)
    requires TieBreak(a, b) <= 0 && TieBreak(b, c) <= 0
    ensures TieBreak(a, c) <= 0
  {
    PlayerFacts(a, b, c);
  }

  /** The selected column alone orders rows as a total preorder, in either direction. */
  lemma PrimarySigns(a: Row, b: Row, c: Row, key: SortKey)
    ensures var x, y, z := Primary(a, b, key), Primary(b, c, key), Primary(a, c, key);
      && (x <= 0 && y <= 0 ==> z <= 0)
      && (x >= 0 && y >= 0 ==> z >= 0)
      && (x < 0 && y <= 0 ==> z < 0)
      && (x <= 0 && y < 0 ==> z < 0)
      && (x > 0 && y >= 0 ==> z > 0)
      && (x >= 0 && y > 0 ==> z > 0)
  {
    if key == ByPlayer {
      PlayerFacts(a, b, c);
      PlayerFacts(c, b, a);
    }
  }

  lemma CompareTransitive(a: Row, b: Row, c: Row, key: SortKey, dir: SortDir)
    requires Compare(a, b, key, dir) <= 0 && Compare(b, c, key, dir) <= 0
    ensures Compare(a, c, key, dir) <= 0
  {
    PrimarySigns(a, b, c, key);
    if Primary(a, b, key) == 0 && Primary(b, c, key) == 0 {
      TieBreakTransitive(a, b, c);
    }
  }

  /** For every column and direction the comparator is a total order on rows. */
  lemma RowOrderTotal(key: SortKey, dir: SortDir)
    ensures ArraySort.TotalOrder(RowOrder(key, dir))
  {
    var cmp := RowOrder(key, dir);
    forall a: Row ensures cmp(a, a) <= 0 {
      CompareAntisymmetric(a, a, key, dir);
    }
    forall a: Row, b: Row, c: Row | cmp(a, b) <= 0 && cmp(b, c) <= 0 ensures cmp(a, c) <= 0 {
      CompareTransitive(a, b, c, key, dir);
    }
    forall a: Row, b: Row | cmp(a, b) <= 0 && cmp(b, a) <= 0 ensures a == b {
      CompareAntisymmetric(a, b, key, dir);
    }
  }

  lemma RowOrderComparable(key: SortKey, dir: SortDir)
    ensures ArraySort.Comparable(RowOrder(key, dir))
  {
    var cmp := RowOrder(key, dir);
    forall a: Row, b: Row ensures cmp(a, b) <= 0 || cmp(b, a) <= 0 {
      CompareAntisymmetric(a, b, key, dir);
    }
  }

  // ---------------------------------------------------------------------
  // Rows
  // ---------------------------------------------------------------------

  function RowOf(p: PlayerPayload, s: SkillTriple): Row {
    Row(p.player, s.level, s.xp, s.rank)
  }

  /** `players.map(...)` for the selected skill: `None` when some player has
      no entry for it, since reading a field of `undefined` throws. */
  function BaseRows(players: seq<PlayerPayload>, skill: string): (r: Option<seq<Row>>)
    ensures r.Some? <==> forall i :: 0 <= i < |players| ==> skill in players[i].skills
    ensures r.Some? ==> |r.value| == |players|
    ensures r.Some? ==> forall i :: 0 <= i < |players| ==> r.value[i] == RowOf(players[i], players[i].skills[skill])
  {
    if players == [] then Some([])
    else if skill !in players[0].skills then None
    else match BaseRows(players[1..], skill)
      case None => None
      case Some(rest) => Some([RowOf(players[0], players[0].skills[skill])] + rest)
  }

  /** `{ groupRank: i + 1, ...r }` over the display order. */
  function Ranked(rows: seq<Row>): (r: seq<RankedRow>)
    ensures |r| == |rows|
    ensures forall i :: 0 <= i < |r| ==> r[i].groupRank == i + 1 && r[i].row == rows[i]
  {
    seq(|rows|, i requires 0 <= i < |rows| => RankedRow(i + 1, rows[i]))
  }

  /** A selected skill that is `undefined` or empty. */
  predicate Blank(selected: Option<string>) {
    selected.None? || selected.value == ""
  }

  /** The rows the table shows, as a function. */
  function RowsSpec(players: seq<PlayerPayload>, selected: Option<string>, s: SortState): Result<seq<RankedRow>, string> {
    if players == [] || Blank(selected) then Success([])
    else match BaseRows(players, selected.value)
      case None => Failure("TypeError: skill missing from a player's record")
      case Some(base) => Success(Ranked(ArraySort.SortSpec(base, RowOrder(s.key, s.dir))))
  }

  /** The `rows` memo: the base rows sorted in place, then numbered. */
  method BuildRows(players: seq<PlayerPayload>, selected: Option<string>, s: SortState)
    returns (r: Result<seq<RankedRow>, string>)
    ensures r == RowsSpec(players, selected, s)
  {
    if players == [] || Blank(selected) {
      return Success([]);
    }
    var base := BaseRows(players, selected.value);
    if base.None? {
      return Failure("TypeError: skill missing from a player's record");
    }
    var rows := base.value;
    var a := new Row[|rows|](i requires 0 <= i < |rows| => rows[i]);
    assert a[..] == rows;
    ArraySort.Sort(a, RowOrder(s.key, s.dir));
    var sorted := a[..];
    r := Success(Ranked(sorted));
  }

  /** The rows of a table, without their numbers. */
  function RowsOf(r: seq<RankedRow>): (rows: seq<Row>)
    ensures |rows| == |r|
  {
    seq(|r|, i requires 0 <= i < |r| => r[i].row)
  }

  /** The table holds one row per player, each player's values for the
      skill, ordered by the comparator and numbered 1..n from the top. */
  lemma RowsAreRankedPermutation(players: seq<PlayerPayload>, skill: string, s: SortState)
    requires players != [] && skill != ""
    requires forall i :: 0 <= i < |players| ==> skill in players[i].skills
    ensures var base := BaseRows(players, skill).value;
      var r := RowsSpec(players, Some(skill), s);
      && r.Success?
      && |r.value| == |players|
      && multiset(RowsOf(r.value)) == multiset(base)
      && (forall i :: 0 <= i < |r.value| ==> r.value[i].groupRank == i + 1)
      && (forall i, j :: 0 <= i < j < |r.value| ==> Compare(r.value[i].row, r.value[j].row, s.key, s.dir) <= 0)
  {
    RowsSucceed(players, skill, s);
    RankedSortedRows(BaseRows(players, skill).value, s);
  }

  /** Sorting and numbering rows keeps them all, numbers them from 1 and orders every pair. */
  lemma RankedSortedRows(base: seq<Row>, s: SortState)
    ensures var r := Ranked(ArraySort.SortSpec(base, RowOrder(s.key, s.dir)));
      && |r| == |base|
      && multiset(RowsOf(r)) == multiset(base)
      && (forall i :: 0 <= i < |r| ==> r[i].groupRank == i + 1)
      && (forall i, j :: 0 <= i < j < |r| ==> Compare(r[i].row, r[j].row, s.key, s.dir) <= 0)
  {
    var sorted := ArraySort.SortSpec(base, RowOrder(s.key, s.dir));
    var r := Ranked(sorted);
    assert RowsOf(r) == sorted;
    SortedRowsOrdered(base, s, sorted);
    forall i, j | 0 <= i < j < |r|
      ensures Compare(r[i].row, r[j].row, s.key, s.dir) <= 0
    {
      assert r[i].row == sorted[i] && r[j].row == sorted[j];
    }
  }

  lemma RowsSucceed(players: seq<PlayerPayload>, skill: string, s: SortState)
    requires players != [] && skill != ""
    requires forall i :: 0 <= i < |players| ==> skill in players[i].skills
    ensures BaseRows(players, skill).Some?
    ensures RowsSpec(players, Some(skill), s) == Success(Ranked(ArraySort.SortSpec(BaseRows(players, skill).value, RowOrder(s.key, s.dir))))
  {
  }

  /** Sorting with the row comparator puts every pair of rows in comparator order. */
  lemma SortedRowsOrdered(base: seq<Row>, s: SortState, sorted: seq<Row>)
    requires sorted == ArraySort.SortSpec(base, RowOrder(s.key, s.dir))
    ensures forall i, j :: 0 <= i < j < |sorted| ==> Compare(sorted[i], sorted[j], s.key, s.dir) <= 0
  {
    RowOrderComparable(s.key, s.dir);
    RowOrderTotal(s.key, s.dir);
    ArraySort.SortSpecSorted(base, RowOrder(s.key, s.dir));
    forall i, j | 0 <= i < j < |sorted| ensures Compare(sorted[i], sorted[j], s.key, s.dir) <= 0 {
      ArraySort.SortedPairs(sorted, RowOrder(s.key, s.dir), i, j);
    }
  }

  /** Empty rows with no players or no selected skill. */
  lemma NoRowsWhenBlank(players: seq<PlayerPayload>, selected: Option<string>, s: SortState)
    requires players == [] || Blank(selected)
    ensures RowsSpec(players, selected, s) == Success([])
  {
  }

  /** Reordering the loaded players never changes the table. */
  lemma RowsIndependentOfInputOrder(players: seq<PlayerPayload>, shuffled: seq<PlayerPayload>, selected: Option<string>, s: SortState)
    requires multiset(players) == multiset(shuffled)
    ensures RowsSpec(players, selected, s) == RowsSpec(shuffled, selected, s)
  {
    assert |players| == |multiset(players)| == |shuffled|;
    if players != [] && !Blank(selected) {
      var skill := selected.value;
      forall p | p in players ensures p in shuffled {
        assert p in multiset(players);
      }
      forall p | p in shuffled ensures p in players {
        assert p in multiset(shuffled);
      }
      var b1, b2 := BaseRows(players, skill), BaseRows(shuffled, skill);
      if b1.Some? {
        assert b2.Some? by {
          forall i | 0 <= i < |shuffled| ensures skill in shuffled[i].skills {
            assert shuffled[i] in players;
          }
        }
        BaseRowsPermutation(players, shuffled, skill);
        var cmp := RowOrder(s.key, s.dir);
        RowOrderComparable(s.key, s.dir);
        RowOrderTotal(s.key, s.dir);
        ArraySort.SortSpecSorted(b1.value, cmp);
        ArraySort.SortSpecSorted(b2.value, cmp);
        ArraySort.SortedUnique(ArraySort.SortSpec(b1.value, cmp), ArraySort.SortSpec(b2.value, cmp), cmp);
      } else {
        assert b2.None? by {
          if b2.Some? {
            forall i | 0 <= i < |players| ensures skill in players[i].skills {
              assert players[i] in shuffled;
            }
          }
        }
      }
    }
  }

  /** Permuting the players permutes their rows. */
  lemma BaseRowsPermutation(players: seq<PlayerPayload>, shuffled: seq<PlayerPayload>, skill: string)
    requires multiset(players) == multiset(shuffled)
    requires BaseRows(players, skill).Some? && BaseRows(shuffled, skill).Some?
    ensures multiset(BaseRows(players, skill).value) == multiset(BaseRows(shuffled, skill).value)
  {
    var f := (p: PlayerPayload) => if skill in p.skills then RowOf(p, p.skills[skill]) else Row("", 0, 0, 0);
    assert BaseRows(players, skill).value == MapSeq(players, f);
    assert BaseRows(shuffled, skill).value == MapSeq(shuffled, f);
    MapPermutation(players, shuffled, f);
  }

  function MapSeq<A, B>(s: seq<A>, f: A -> B): (r: seq<B>)
    ensures |r| == |s| && forall i :: 0 <= i < |s| ==> r[i] == f(s[i])
  {
    seq(|s|, i requires 0 <= i < |s| => f(s[i]))
  }

  /** Mapping a function over two permutations of a sequence gives two permutations. */
  lemma {:induction false} MapPermutation<A, B>(s: seq<A>, t: seq<A>, f: A -> B)
    requires multiset(s) == multiset(t)
    ensures multiset(MapSeq(s, f)) == multiset(MapSeq(t, f))
    decreases |s|
  {
    if s == [] {
      assert |t| == |multiset(t)| == 0;
    } else {
      var x := s[0];
      assert x in multiset(t);
      var j :| 0 <= j < |t| && t[j] == x;
      var rest := t[..j] + t[j + 1..];
      MultisetRemove(t, j);
      assert s == [x] + s[1..];
      assert multiset(s) == multiset(s[1..]) + multiset{x};
      MultisetCancel(multiset(s[1..]), multiset(rest), x);
      MapPermutation(s[1..], rest, f);
      MapRemoveMultiset(t, j, f);
      MapCons(s, f);
    }
  }

  lemma MapCons<A, B>(s: seq<A>, f: A -> B)
    requires s != []
    ensures multiset(MapSeq(s, f)) == multiset(MapSeq(s[1..], f)) + multiset{f(s[0])}
  {
    assert MapSeq(s, f) == [f(s[0])] + MapSeq(s[1..], f);
  }

  lemma MapRemoveMultiset<A, B>(t: seq<A>, j: int, f: A -> B)
    requires 0 <= j < |t|
    ensures multiset(MapSeq(t, f)) == multiset(MapSeq(t[..j] + t[j + 1..], f)) + multiset{f(t[j])}
  {
    MapRemove(t, j, f);
    MultisetRemove(MapSeq(t, f), j);
  }

  lemma MultisetCancel<A>(a: multiset<A>, b: multiset<A>, x: A)
    requires a + multiset{x} == b + multiset{x}
    ensures a == b
  {
    assert a == (a + multiset{x}) - multiset{x};
    assert b == (b + multiset{x}) - multiset{x};
  }

  /** Mapping commutes with removing one position. */
  lemma MapRemove<A, B>(t: seq<A>, j: int, f: A -> B)
    requires 0 <= j < |t|
    ensures MapSeq(t[..j] + t[j + 1..], f) == MapSeq(t, f)[..j] + MapSeq(t, f)[j + 1..]
  {
    var l, r := MapSeq(t[..j] + t[j + 1..], f), MapSeq(t, f)[..j] + MapSeq(t, f)[j + 1..];
    forall i | 0 <= i < |l| ensures l[i] == r[i] {
      if i < j {
        assert (t[..j] + t[j + 1..])[i] == t[i];
      } else {
        assert (t[..j] + t[j + 1..])[i] == t[i + 1];
      }
    }
  }

  lemma MultisetRemove<A>(t: seq<A>, j: int)
    requires 0 <= j < |t|
    ensures multiset(t) == multiset(t[..j] + t[j + 1..]) + multiset{t[j]}
  {
    assert t == t[..j] + [t[j]] + t[j + 1..];
  }

  // ---------------------------------------------------------------------
  // Header state
  // ---------------------------------------------------------------------

  /** `headerClick`: the current column flips direction; another column is
      selected ascending. */
  function Click(s: SortState, col: SortKey): (r: SortState)
    ensures r.key == col && r != s
    ensures col == s.key ==> r.dir != s.dir
    ensures col != s.key ==> r.dir == Asc
  {
    if s.key == col then SortState(s.key, if s.dir == Asc then Desc else Asc)
    else SortState(col, Asc)
  }

  /** Clicking the current column twice restores the state. */
  lemma ClickTwice(s: SortState)
    ensures Click(Click(s, s.key), s.key) == s
  {
  }

  /** `ariaSort`. */
  function AriaSort(s: SortState, col: SortKey): (r: string)
    ensures r == "none" <==> col != s.key
    ensures r == "ascending" <==> col == s.key && s.dir == Asc
    ensures r == "descending" <==> col == s.key && s.dir == Desc
  {
    assert "none"[1] != "ascending"[1] && "none"[0] != "descending"[0] && "ascending"[0] != "descending"[0];
    assert s.dir == Asc || s.dir == Desc;
    if s.key != col then "none"
    else if s.dir == Asc then "ascending" else "descending"
  }

  /** After a click exactly the clicked column carries a sort label. */
  lemma AriaSortAfterClick(s: SortState, col: SortKey, other: SortKey)
    ensures AriaSort(Click(s, col), col) != "none"
    ensures other != col ==> AriaSort(Click(s, col), other) == "none"
  {
  }

  // ---------------------------------------------------------------------
  // Loading
  // ---------------------------------------------------------------------

  /** The per-player endpoint's reply. */
  datatype ApiReply = ApiReply(ok: bool, status: int, payload: PlayerPayload)

  /** A settled fetch: fulfilled with a payload or `null`, or rejected with a message. */
  datatype Settled = Fulfilled(value: Option<PlayerPayload>) | Rejected(reason: string)

  /** `fetchPlayer`: a blank name settles as `null`; a failed reply rejects. */
  function FetchPlayer(name: string, api: string -> ApiReply): (r: Settled)
    ensures Trim(name) == [] ==> r == Fulfilled(None)
    ensures r.Rejected? <==> Trim(name) != [] && !api(Trim(name)).ok
    ensures r.Fulfilled? && r.value.Some? ==> r.value.value == api(Trim(name)).payload
    ensures Trim(name) != [] && api(Trim(name)).ok ==> r == Fulfilled(Some(api(Trim(name)).payload))
  {
    var rsn := Trim(name);
    if rsn == [] then Fulfilled(None)
    else if !api(rsn).ok then Rejected(rsn + ": upstream " + IntToString(api(rsn).status))
    else Fulfilled(Some(api(rsn).payload))
  }

  /** `Promise.allSettled(DEFAULT_NAMES.map(fetchPlayer))`: one outcome per name, in order. */
  function SettleAll(names: seq<string>, api: string -> ApiReply): (r: seq<Settled>)
    ensures |r| == |names|
    ensures forall i :: 0 <= i < |names| ==> r[i] == FetchPlayer(names[i], api)
  {
    seq(|names|, i requires 0 <= i < |names| => FetchPlayer(names[i], api))
  }

  predicate Loaded(r: Settled) {
    r.Fulfilled? && r.value.Some?
  }

  /** The loaded payloads, in order. */
  function OkValues(results: seq<Settled>): seq<PlayerPayload> {
    if results == [] then []
    else
      var last := results[|results| - 1];
      OkValues(results[..|results| - 1]) + (if Loaded(last) then [last.value.value] else [])
  }

  /** The names whose fetch did not yield a payload, in order. */
  function FailedNames(results: seq<Settled>, names: seq<string>): seq<string>
    requires |results| == |names|
  {
    if results == [] then []
    else
      var failed := if Loaded(results[|results| - 1]) then [] else [names[|names| - 1]];
      FailedNames(results[..|results| - 1], names[..|names| - 1]) + failed
  }

  /** The `forEach` in `load`: every settled result goes to exactly one side. */
  method Partition(results: seq<Settled>, names: seq<string>) returns (ok: seq<PlayerPayload>, errs: seq<string>)
    requires |results| == |names|
    ensures ok == OkValues(results) && errs == FailedNames(results, names)
  {
    ok, errs := [], [];
    var i := 0;
    while i < |results|
      invariant 0 <= i <= |results|
      invariant ok == OkValues(results[..i]) && errs == FailedNames(results[..i], names[..i])
    {
      assert results[..i + 1][..i] == results[..i] && names[..i + 1][..i] == names[..i];
      var r := results[i];
      if r.Fulfilled? && r.value.Some? {
        ok := ok + [r.value.value];
      } else {
        errs := errs + [names[i]];
      }
      i := i + 1;
    }
    assert results[..i] == results && names[..i] == names;
  }

  /** Each result is counted once: loaded payloads and failed names add up to all results. */
  lemma {:induction false} PartitionCounts(results: seq<Settled>, names: seq<string>)
    requires |results| == |names|
    ensures |OkValues(results)| + |FailedNames(results, names)| == |results|
  {
    if results != [] {
      PartitionCounts(results[..|results| - 1], names[..|names| - 1]);
    }
  }

  /** A result that yielded no payload puts its name among the failures. */
  lemma {:induction false} UnloadedNameFails(results: seq<Settled>, names: seq<string>, i: int)
    requires |results| == |names| && 0 <= i < |results| && !Loaded(results[i])
    ensures names[i] in FailedNames(results, names)
  {
    if i < |results| - 1 {
      UnloadedNameFails(results[..|results| - 1], names[..|names| - 1], i);
    }
  }

  /** Every loaded payload came from some result. */
  lemma {:induction false} OkValuesLoaded(results: seq<Settled>, p: PlayerPayload)
    requires p in OkValues(results)
    ensures exists i :: 0 <= i < |results| && results[i] == Fulfilled(Some(p))
  {
    var n := |results|;
    if p !in OkValues(results[..n - 1]) {
      assert results[n - 1] == Fulfilled(Some(p));
    } else {
      OkValuesLoaded(results[..n - 1], p);
      var i :| 0 <= i < n - 1 && results[..n - 1][i] == Fulfilled(Some(p));
      assert results[i] == Fulfilled(Some(p));
    }
  }

  /** A name that is blank once trimmed always ends up among the failures. */
  lemma BlankNameFails(names: seq<string>, api: string -> ApiReply, i: int)
    requires 0 <= i < |names| && Trim(names[i]) == []
    ensures names[i] in FailedNames(SettleAll(names, api), names)
  {
    var results := SettleAll(names, api);
    assert results[i] == Fulfilled(None);
    UnloadedNameFails(results, names, i);
  }

  /** `"Failed to load " + name` for each failed name. */
  function FailureMessages(errs: seq<string>): (r: seq<string>)
    ensures |r| == |errs|
    ensures forall i :: 0 <= i < |r| ==>
              |r[i]| == |errs[i]| + 15 && r[i][..15] == "Failed to load " && r[i][15..] == errs[i]
  {
    seq(|errs|, i requires 0 <= i < |errs| => "Failed to load " + errs[i])
  }

  /** The page state. */
  class Home {
    var loading: bool
    var players: seq<PlayerPayload>
    var skillOrder: seq<string>
    var selectedSkill: Option<string>
    var sortBy: SortKey
    var sortDir: SortDir
    var errors: seq<string>

    constructor ()
      ensures !loading && players == [] && skillOrder == [] && selectedSkill == Some("Overall")
      ensures sortBy == ByLevel && sortDir == Desc && errors == []
    {
      loading := false;
      players := [];
      skillOrder := [];
      selectedSkill := Some("Overall");
      sortBy := ByLevel;
      sortDir := Desc;
      errors := [];
    }

    function State(): SortState
      reads this
    {
      SortState(sortBy, sortDir)
    }

    /** `headerClick`: moves the header state and touches nothing else. */
    method HeaderClick(col: SortKey)
      modifies this
      ensures State() == Click(old(State()), col)
      ensures loading == old(loading) && players == old(players) && skillOrder == old(skillOrder)
      ensures selectedSkill == old(selectedSkill) && errors == old(errors)
    {
      if sortBy == col {
        sortDir := if sortDir == Asc then Desc else Asc;
        return;
      }
      sortBy := col;
      sortDir := Asc;
    }

    /** The state after `load` from the settled `results`: the loaded
        payloads, the skill order of the first one, its first skill when it
        has no "Overall", and a message per failed name. */
    ghost predicate LoadedState(results: seq<Settled>, oldOrder: seq<string>, oldSelected: Option<string>)
      requires |results| == |DefaultNames|
      reads this
    {
      var ok := OkValues(results);
      && players == ok
      && !loading
      && skillOrder == (if ok == [] then oldOrder else ok[0].order)
      && selectedSkill == (if ok == [] || "Overall" in ok[0].order then oldSelected
                           else if ok[0].order == [] then None else Some(ok[0].order[0]))
      && errors == FailureMessages(FailedNames(results, DefaultNames))
    }

    /** `load`, given what the fetches of the default names settled to
        (`SettleAll(DefaultNames, api)` for an endpoint `api`). */
    method Load(results: seq<Settled>)
      requires |results| == |DefaultNames|
      modifies this
      ensures LoadedState(results, old(skillOrder), old(selectedSkill))
      ensures sortBy == old(sortBy) && sortDir == old(sortDir)
    {
      loading := true;
      errors := [];
      var ok, errs := Partition(results, DefaultNames);
      players := ok;
      if |ok| > 0 {
        skillOrder := ok[0].order;
        if "Overall" !in ok[0].order {
          selectedSkill := if ok[0].order == [] then None else Some(ok[0].order[0]);
        }
      }
      if |errs| > 0 {
        errors := FailureMessages(errs);
      }
      loading := false;
    }

    /** The rows for the current state. */
    method Rows() returns (r: Result<seq<RankedRow>, string>)
      ensures r == RowsSpec(players, selectedSkill, State())
    {
      r := BuildRows(players, selectedSkill, State());
    }
  }
}
