/** The hiscore client: the skill catalogue, the player-name sanitiser used
    in the upstream URL, and the parser that turns the upstream "index lite"
    text (one `rank,level,xp` line per skill) into a per-skill record. */
module Osrs {
  import opened Wrappers
  import opened JsText

  /** The skill catalogue, in the order of the upstream payload's lines. */
  const Skills: seq<string> := [
    "Overall", "Attack", "Defence", "Strength", "Hitpoints", "Ranged", "Prayer", "Magic",
    "Cooking", "Woodcutting", "Fletching", "Fishing", "Firemaking", "Crafting", "Smithing", "Mining",
    "Herblore", "Agility", "Thieving", "Slayer", "Farming", "Runecraft", "Hunter", "Construction", "Sailing"
  ]

  /** A stat field as `Number(...)` leaves it; `None` is `undefined`, for a
      field the line does not have. */
  type Field = Option<JsNumber>

  datatype SkillStats = SkillStats(rank: Field, level: Field, xp: Field)

  /** What the parser returns: the per-skill record and the catalogue order. */
  datatype IndexLite = IndexLite(skills: map<string, SkillStats>, order: seq<string>)

  /** The hiscore result handed to callers: the requested name and the parsed record. */
  datatype OsrsStats = OsrsStats(player: string, skills: map<string, SkillStats>, order: seq<string>)

  /** The upstream HTTP reply: whether it succeeded, its status and its text. */
  datatype UpstreamReply = UpstreamReply(ok: bool, status: int, body: string)

  const HiscoreEndpoint: string := "https://secure.runescape.com/m=hiscore_oldschool/index_lite.ws?player="

  function Min(a: int, b: int): int {
    if a < b then a else b
  }

  lemma SkillsDistinct()
    ensures |Skills| == 25 && Skills[0] == "Overall" && Skills[24] == "Sailing"
    ensures forall i, j :: 0 <= i < j < |Skills| ==> Skills[i] != Skills[j]
  {
  }

  // ---------------------------------------------------------------------
  // Player names
  // ---------------------------------------------------------------------

  /** Dropping the whitespace at the front of a string that starts with
      whitespace makes it shorter. */
  lemma TrimStartShortens(s: string)
    requires s != [] && IsWhitespace(s[0])
    ensures |TrimStart(s)| < |s|
  {
  }

  /** Each maximal run of whitespace replaced by a single `+`. */
  function CollapseWhitespace(s: string): (r: string)
    ensures |r| <= |s|
    decreases |s|
  {
    if s == [] then []
    else if IsWhitespace(s[0]) then
      TrimStartShortens(s);
      "+" + CollapseWhitespace(TrimStart(s))
    else [s[0]] + CollapseWhitespace(s[1..])
  }

  /** The result has no whitespace, and is empty only for the empty string. */
  lemma {:induction false} CollapseNoWhitespace(s: string)
    ensures NoWhitespace(CollapseWhitespace(s))
    ensures s != [] ==> CollapseWhitespace(s) != []
    decreases |s|
  {
    if s != [] {
      if IsWhitespace(s[0]) {
        TrimStartShortens(s);
        CollapseNoWhitespace(TrimStart(s));
        PlusIsVisible();
        NoWhitespaceConcat("+", CollapseWhitespace(TrimStart(s)));
      } else {
        CollapseNoWhitespace(s[1..]);
        NoWhitespaceConcat([s[0]], CollapseWhitespace(s[1..]));
      }
    }
  }

  /** A string without whitespace has no run to collapse. */
  lemma {:induction false} CollapseKeepsPlain(s: string)
    requires NoWhitespace(s)
    ensures CollapseWhitespace(s) == s
    decreases |s|
  {
    if s != [] {
      assert NoWhitespace(s[1..]);
      CollapseKeepsPlain(s[1..]);
      assert s == [s[0]] + s[1..];
    }
  }

  /** A leading whitespace run becomes one `+`. */
  lemma CollapseLeadingRun(w: string, b: string)
    requires w != [] && AllWhitespace(w)
    requires b == [] || !IsWhitespace(b[0])
    ensures CollapseWhitespace(w + b) == "+" + CollapseWhitespace(b)
  {
    var s := w + b;
    assert s[0] == w[0];
    TrimStartPadded(w, b);
    if b != [] {
      TrimStartKeeps(b);
    }
    assert TrimStart(s) == b;
  }

  /** A whitespace run between a whitespace-free prefix and a text that does
      not start with whitespace becomes exactly one `+`; the prefix is kept. */
  lemma {:induction false} CollapseRun(a: string, w: string, b: string)
    requires NoWhitespace(a)
    requires w != [] && AllWhitespace(w)
    requires b == [] || !IsWhitespace(b[0])
    ensures CollapseWhitespace(a + w + b) == a + "+" + CollapseWhitespace(b)
    decreases |a|
  {
    if a == [] {
      assert a + w + b == w + b;
      CollapseLeadingRun(w, b);
    } else {
      var s := a + w + b;
      var rest := a[1..] + w + b;
      assert s[0] == a[0] && s[1..] == rest;
      assert !IsWhitespace(s[0]);
      assert CollapseWhitespace(s) == [a[0]] + CollapseWhitespace(rest);
      assert NoWhitespace(a[1..]);
      CollapseRun(a[1..], w, b);
      assert a == [a[0]] + a[1..];
    }
  }

  /** Two words separated by a whitespace run are sent as `first+second`. */
  lemma SanitizeTwoWords(first: string, w: string, second: string)
    requires first != [] && NoWhitespace(first)
    requires second != [] && NoWhitespace(second)
    requires w != [] && AllWhitespace(w)
    ensures SanitizeRsn(first + w + second) == first + "+" + second
  {
    var s := first + w + second;
    assert s[0] == first[0] && s[|s| - 1] == second[|second| - 1];
    TrimOfPadded([], s, []);
    assert [] + s + [] == s;
    CollapseRun(first, w, second);
    CollapseKeepsPlain(second);
  }

  lemma PlusIsVisible()
    ensures NoWhitespace("+")
  {
    assert !IsWhitespace('+');
  }

  lemma NoWhitespaceConcat(a: string, b: string)
    requires NoWhitespace(a) && NoWhitespace(b)
    ensures NoWhitespace(a + b)
  {
  }

  /** `rsn.trim().replace(/\s+/g, "+")`: the name as it goes into the hiscore URL. */
  function SanitizeRsn(rsn: string): (r: string)
    ensures NoWhitespace(r)
  {
    CollapseNoWhitespace(Trim(rsn));
    CollapseWhitespace(Trim(rsn))
  }

  /** Sanitising a sanitised name changes nothing. */
  lemma SanitizeIdempotent(rsn: string)
    ensures SanitizeRsn(SanitizeRsn(rsn)) == SanitizeRsn(rsn)
  {
    var r := SanitizeRsn(rsn);
    TrimOfTrimmed(r);
    CollapseKeepsPlain(r);
  }

  /** The characters of `s` that are neither whitespace nor `+`, in order. */
  function Visible(s: string): string {
    if s == [] then []
    else (if IsWhitespace(s[0]) || s[0] == '+' then [] else [s[0]]) + Visible(s[1..])
  }

  lemma {:induction false} VisibleAppend(a: string, b: string)
    ensures Visible(a + b) == Visible(a) + Visible(b)
  {
    if a != [] {
      VisibleAppend(a[1..], b);
      assert (a + b)[1..] == a[1..] + b;
    } else {
      assert a + b == b;
    }
  }

  lemma {:induction false} VisibleOfWhitespace(w: string)
    requires AllWhitespace(w)
    ensures Visible(w) == []
  {
    if w != [] {
      VisibleOfWhitespace(w[1..]);
    }
  }

  lemma VisibleTrimStart(s: string)
    ensures Visible(TrimStart(s)) == Visible(s)
  {
    var t := TrimStart(s);
    var w := s[..|s| - |t|];
    assert s == w + t;
    VisibleAppend(w, t);
    VisibleOfWhitespace(w);
  }

  lemma VisibleTrimEnd(s: string)
    ensures Visible(TrimEnd(s)) == Visible(s)
  {
    var r := TrimEnd(s);
    var w := s[|r|..];
    assert s == r + w;
    VisibleAppend(r, w);
    VisibleOfWhitespace(w);
  }

  lemma VisibleTrim(s: string)
    ensures Visible(Trim(s)) == Visible(s)
  {
    VisibleTrimStart(s);
    VisibleTrimEnd(TrimStart(s));
  }

  lemma {:induction false} VisibleCollapse(s: string)
    ensures Visible(CollapseWhitespace(s)) == Visible(s)
    decreases |s|
  {
    if s != [] {
      if IsWhitespace(s[0]) {
        var rest := TrimStart(s);
        TrimStartShortens(s);
        VisibleCollapse(rest);
        VisibleTrimStart(s);
        VisiblePlus(CollapseWhitespace(rest));
        assert CollapseWhitespace(s) == "+" + CollapseWhitespace(rest);
      } else {
        VisibleCollapse(s[1..]);
        VisibleCons(s[0], CollapseWhitespace(s[1..]));
        VisibleCons(s[0], s[1..]);
        assert CollapseWhitespace(s) == [s[0]] + CollapseWhitespace(s[1..]);
        assert s == [s[0]] + s[1..];
      }
    }
  }

  lemma VisiblePlus(t: string)
    ensures Visible("+" + t) == Visible(t)
  {
    assert ("+" + t)[1..] == t;
  }

  lemma VisibleCons(c: char, t: string)
    requires !IsWhitespace(c)
    ensures Visible([c] + t) == (if c == '+' then [] else [c]) + Visible(t)
  {
    assert ([c] + t)[1..] == t;
  }

  /** Sanitising keeps every character of the name other than whitespace and
      `+`, in order, and adds nothing else but `+`. */
  lemma SanitizeKeepsVisible(rsn: string)
    ensures Visible(SanitizeRsn(rsn)) == Visible(rsn)
  {
    VisibleTrim(rsn);
    VisibleCollapse(Trim(rsn));
  }

  /** The sanitised name has no whitespace at either end or inside. */
  lemma SanitizeTrimmed(rsn: string)
    ensures var r := SanitizeRsn(rsn); Trimmed(r) && NoWhitespace(r)
    ensures Trim(rsn) != [] ==> SanitizeRsn(rsn) != []
  {
    CollapseNoWhitespace(Trim(rsn));
  }

  /** The hiscore request URL for a player. */
  function HiscoreUrl(player: string): (url: string)
    ensures |url| >= |HiscoreEndpoint| && url[..|HiscoreEndpoint|] == HiscoreEndpoint
    ensures NoWhitespace(url[|HiscoreEndpoint|..])
    ensures Visible(url[|HiscoreEndpoint|..]) == Visible(player)
  {
    var url := HiscoreEndpoint + SanitizeRsn(player);
    assert url[|HiscoreEndpoint|..] == SanitizeRsn(player);
    SanitizeKeepsVisible(player);
    url
  }

  // ---------------------------------------------------------------------
  // The index-lite parser
  // ---------------------------------------------------------------------

  /** The `i`-th comma field through `Number`, or `undefined` past the end. */
  function FieldAt(fields: seq<string>, i: nat): Field {
    if i < |fields| then Some(ToNumber(fields[i])) else None
  }

  /** `const [rank, level, xp] = line.split(",").map(Number)`. */
  function ParseLine(line: string): (r: SkillStats)
    ensures r.rank.Some?
    ensures r.level.Some? <==> ',' in line
    ensures ',' !in line ==> r == SkillStats(Some(ToNumber(line)), None, None)
  {
    var fields := Split(line, ',');
    SingleField(line, fields);
    assert FieldAt(fields, 1).Some? <==> |fields| != 1;
    SkillStats(FieldAt(fields, 0), FieldAt(fields, 1), FieldAt(fields, 2))
  }

  /** A line splits into a single field exactly when it has no comma, and that field is the line. */
  lemma SingleField(line: string, fields: seq<string>)
    requires fields == Split(line, ',')
    ensures |fields| == 1 <==> ',' !in line
    ensures |fields| == 1 ==> fields[0] == line
  {
    JoinSplit(line, ',');
    if ',' !in line {
      SplitHead(line, ',', []);
    }
  }

  /** The lines of the payload the parser reads from: the trimmed text split on newlines. */
  function PayloadLines(csv: string): (lines: seq<string>)
    ensures |lines| >= 1
  {
    Split(Trim(csv), '\n')
  }

  /** The first `n` catalogue skills, as a set. */
  function SkillPrefix(n: nat): (r: set<string>)
    requires n <= |Skills|
    ensures forall k :: 0 <= k < n ==> Skills[k] in r
  {
    if n == 0 then {} else SkillPrefix(n - 1) + {Skills[n - 1]}
  }

  /** Each line through `parse`, in order. */
  function MapLines<V>(lines: seq<string>, parse: string -> V): (r: seq<V>)
    ensures |r| == |lines|
  {
    seq(|lines|, i requires 0 <= i < |lines| => parse(lines[i]))
  }

  /** The parsed lines, in order. */
  function ParsedLines(lines: seq<string>): seq<SkillStats> {
    MapLines(lines, ParseLine)
  }

  /** The first `n` values keyed by the first `n` catalogue skills. */
  function KeyedBySkill<V>(vals: seq<V>, n: nat): map<string, V>
    requires n <= |vals| && n <= |Skills|
  {
    if n == 0 then map[] else KeyedBySkill(vals, n - 1)[Skills[n - 1] := vals[n - 1]]
  }

  /** The record the loop builds from `lines`: the first `min(lines, 25)` lines parsed under the catalogue skills. */
  function IndexOfLines(lines: seq<string>): map<string, SkillStats> {
    KeyedBySkill(ParsedLines(lines), Min(|lines|, |Skills|))
  }

  /** `skills` holds one entry per kept line: the first `min(lines, 25)`
      catalogue skills, the `i`-th parsed from line `i`, and nothing else. */
  ghost predicate IsIndexOfLines(skills: map<string, SkillStats>, lines: seq<string>) {
    var n := Min(|lines|, |Skills|);
    && skills.Keys == SkillPrefix(n)
    && |skills| == n
    && (forall i :: 0 <= i < n ==> skills[Skills[i]] == ParseLine(lines[i]))
  }

  /** The same, for the lines of a payload. */
  ghost predicate IsIndexOf(skills: map<string, SkillStats>, csv: string) {
    IsIndexOfLines(skills, PayloadLines(csv))
  }

  /** `parseIndexLite`: the lines of the trimmed payload, the first 25 of
      them parsed under the catalogue skills in order. */
  method ParseIndexLite(csv: string) returns (r: IndexLite)
    ensures r.order == Skills
    ensures r.skills == IndexOfLines(PayloadLines(csv))
  {
    var lines := PayloadLines(csv);
    var skills := IndexLines(lines, ParseLine);
    r := IndexLite(skills, Skills);
  }

  /** The loop of `parseIndexLite`: line `i` parsed under catalogue skill `i`,
      for as many lines as there are skills. */
  method IndexLines<V>(lines: seq<string>, parse: string -> V) returns (skills: map<string, V>)
    ensures skills == KeyedBySkill(MapLines(lines, parse), Min(|lines|, |Skills|))
  {
    var n := Min(|lines|, |Skills|);
    ghost var parsed := MapLines(lines, parse);
    skills := map[];
    var i := 0;
    while i < n
      invariant 0 <= i <= n <= |lines| && n <= |Skills|
      invariant skills == KeyedBySkill(parsed, i)
    {
      ghost var before := skills;
      skills := skills[Skills[i] := parse(lines[i])];
      assert skills == KeyedBySkill(parsed, i + 1) by {
        assert KeyedBySkill(parsed, i + 1) == before[Skills[i] := parsed[i]];
      }
      i := i + 1;
    }
  }

  /** Keying values by the catalogue gives exactly one entry per value,
      under the skill of its position. */
  lemma KeyedBySkillIndex<V>(vals: seq<V>, n: nat)
    requires n <= |vals| && n <= |Skills|
    ensures var m := KeyedBySkill(vals, n);
      && m.Keys == SkillPrefix(n)
      && |m| == n
      && forall i :: 0 <= i < n ==> m[Skills[i]] == vals[i]
  {
    KeyedBySkillKeys(vals, n);
    forall i | 0 <= i < n
      ensures KeyedBySkill(vals, n)[Skills[i]] == vals[i]
    {
      KeyedBySkillValue(vals, n, i);
    }
  }

  lemma {:induction false} KeyedBySkillKeys<V>(vals: seq<V>, n: nat)
    requires n <= |vals| && n <= |Skills|
    ensures KeyedBySkill(vals, n).Keys == SkillPrefix(n)
    ensures |KeyedBySkill(vals, n)| == n
  {
    if n > 0 {
      KeyedBySkillKeys(vals, n - 1);
      NotInPrefix(n - 1, n - 1);
    }
  }

  lemma {:induction false} KeyedBySkillValue<V>(vals: seq<V>, n: nat, i: nat)
    requires i < n <= |vals| && n <= |Skills|
    ensures Skills[i] in KeyedBySkill(vals, n)
    ensures KeyedBySkill(vals, n)[Skills[i]] == vals[i]
  {
    if i < n - 1 {
      KeyedBySkillValue(vals, n - 1, i);
      SkillDistinct(i, n - 1);
    }
  }

  lemma SkillDistinct(i: nat, j: nat)
    requires i < j < |Skills|
    ensures Skills[i] != Skills[j]
  {
    SkillsDistinct();
  }

  /** A catalogue skill is not among the skills before it. */
  lemma {:induction false} NotInPrefix(n: nat, j: nat)
    requires n <= j < |Skills|
    ensures Skills[j] !in SkillPrefix(n)
  {
    if n > 0 {
      NotInPrefix(n - 1, j);
      SkillDistinct(n - 1, j);
    }
  }

  /** What `parseIndexLite` returns is an index of the payload. */
  lemma ParseIndexLiteIndex(csv: string)
    ensures IsIndexOf(IndexOfLines(PayloadLines(csv)), csv)
  {
    IndexOfLinesIsIndex(PayloadLines(csv));
  }

  lemma IndexOfLinesIsIndex(lines: seq<string>)
    ensures IsIndexOfLines(IndexOfLines(lines), lines)
  {
    KeyedBySkillIndex(ParsedLines(lines), Min(|lines|, |Skills|));
  }

  /** `fetchOsrsStats`: the upstream request is the parameter `fetch`; a
      failed reply is the thrown "Upstream error <status>". */
  method FetchOsrsStats(player: string, fetch: string -> UpstreamReply) returns (r: Result<OsrsStats, string>)
    ensures var reply := fetch(HiscoreUrl(player));
      && (!reply.ok ==> r == Failure("Upstream error " + IntToString(reply.status)))
      && (reply.ok ==> r.Success? && r.value.player == player && r.value.order == Skills
                       && IsIndexOf(r.value.skills, reply.body))
  {
    var res := fetch(HiscoreUrl(player));
    if !res.ok {
      return Failure("Upstream error " + IntToString(res.status));
    }
    var parsed := ParseIndexLite(res.body);
    ParseIndexLiteIndex(res.body);
    r := Success(OsrsStats(player, parsed.skills, parsed.order));
  }

  // ---------------------------------------------------------------------
  // Round trip with the upstream format
  // ---------------------------------------------------------------------

  /** One upstream line, `rank,level,xp`. */
  function HiscoreLine(rank: int, level: int, xp: int): string {
    Join([IntToString(rank), IntToString(level), IntToString(xp)], ',')
  }

  /** A line holding three integers parses back to those integers; any
      further comma fields are ignored. */
  lemma HiscoreLineRoundTrip(rank: int, level: int, xp: int, extra: seq<string>)
    requires forall i :: 0 <= i < |extra| ==> ',' !in extra[i]
    ensures ParseLine(Join([IntToString(rank), IntToString(level), IntToString(xp)] + extra, ','))
            == SkillStats(Some(Int(rank)), Some(Int(level)), Some(Int(xp)))
  {
    var fields := [IntToString(rank), IntToString(level), IntToString(xp)] + extra;
    NumeralsNoComma(rank, level, xp);
    NoSeparatorConcat([IntToString(rank), IntToString(level), IntToString(xp)], extra, ',');
    ParseJoinedLine(fields);
    IntToStringRoundTrip(rank);
    IntToStringRoundTrip(level);
    IntToStringRoundTrip(xp);
  }

  lemma NumeralsNoComma(rank: int, level: int, xp: int)
    ensures var t := [IntToString(rank), IntToString(level), IntToString(xp)];
      forall i :: 0 <= i < |t| ==> ',' !in t[i]
  {
    IntToStringExcludes(rank, ',');
    IntToStringExcludes(level, ',');
    IntToStringExcludes(xp, ',');
  }

  /** A line made of comma-free fields parses its first three fields; a
      field past the end is `undefined`. */
  lemma ParseJoinedLine(fields: seq<string>)
    requires |fields| >= 1
    requires forall i :: 0 <= i < |fields| ==> ',' !in fields[i]
    ensures ParseLine(Join(fields, ',')) == SkillStats(FieldAt(fields, 0), FieldAt(fields, 1), FieldAt(fields, 2))
  {
    SplitJoin(fields, ',');
  }

  lemma NoSeparatorConcat(a: seq<string>, b: seq<string>, sep: char)
    requires forall i :: 0 <= i < |a| ==> sep !in a[i]
    requires forall i :: 0 <= i < |b| ==> sep !in b[i]
    ensures forall i :: 0 <= i < |a + b| ==> sep !in (a + b)[i]
  {
    forall i | 0 <= i < |a + b| ensures sep !in (a + b)[i] {
      if i < |a| {
        assert (a + b)[i] == a[i];
      } else {
        assert (a + b)[i] == b[i - |a|];
      }
    }
  }

  /** A whole payload: one `rank,level,xp` line per triple. */
  function Payload(stats: seq<(int, int, int)>): string {
    Join(seq(|stats|, i requires 0 <= i < |stats| => HiscoreLine(stats[i].0, stats[i].1, stats[i].2)), '\n')
  }

  lemma HiscoreLineShape(rank: int, level: int, xp: int)
    ensures var l := HiscoreLine(rank, level, xp); l != [] && Trimmed(l) && '\n' !in l
  {
    var a, b, c := IntToString(rank), IntToString(level), IntToString(xp);
    var l := HiscoreLine(rank, level, xp);
    assert [a, b, c][1..] == [b, c] && [b, c][1..] == [c];
    assert Join([c], ',') == c;
    assert Join([b, c], ',') == b + [','] + c;
    assert l == a + [','] + (b + [','] + c);
    assert l[0] == a[0] && l[|l| - 1] == c[|c| - 1];
    IntToStringExcludes(rank, '\n');
    IntToStringExcludes(level, '\n');
    IntToStringExcludes(xp, '\n');
  }

  lemma {:induction false} JoinEnds(parts: seq<string>, sep: char)
    requires |parts| >= 1 && forall i :: 0 <= i < |parts| ==> parts[i] != []
    ensures var j := Join(parts, sep);
      j != [] && j[0] == parts[0][0] && j[|j| - 1] == parts[|parts| - 1][|parts[|parts| - 1]| - 1]
  {
    if |parts| > 1 {
      JoinEnds(parts[1..], sep);
    }
  }

  /** Whitespace around a payload never creates records: the parser reads
      back exactly one line per triple, each with the triple's values. */
  lemma PayloadRoundTrip(stats: seq<(int, int, int)>, before: string, after: string)
    requires |stats| >= 1 && AllWhitespace(before) && AllWhitespace(after)
    ensures var lines := PayloadLines(before + Payload(stats) + after);
      && |lines| == |stats|
      && forall i :: 0 <= i < |stats| ==>
           ParseLine(lines[i]) == SkillStats(Some(Int(stats[i].0)), Some(Int(stats[i].1)), Some(Int(stats[i].2)))
  {
    var ls := seq(|stats|, i requires 0 <= i < |stats| => HiscoreLine(stats[i].0, stats[i].1, stats[i].2));
    forall i | 0 <= i < |stats| ensures ls[i] != [] && Trimmed(ls[i]) && '\n' !in ls[i] {
      HiscoreLineShape(stats[i].0, stats[i].1, stats[i].2);
    }
    JoinEnds(ls, '\n');
    TrimOfPadded(before, Payload(stats), after);
    SplitJoin(ls, '\n');
    forall i | 0 <= i < |stats|
      ensures ParseLine(ls[i]) == SkillStats(Some(Int(stats[i].0)), Some(Int(stats[i].1)), Some(Int(stats[i].2)))
    {
      HiscoreLineRoundTrip(stats[i].0, stats[i].1, stats[i].2, []);
      assert [IntToString(stats[i].0), IntToString(stats[i].1), IntToString(stats[i].2)] + [] ==
             [IntToString(stats[i].0), IntToString(stats[i].1), IntToString(stats[i].2)];
    }
  }

  /** A blank payload is not rejected: trimming leaves one empty line, and
      `Number("")` is 0, so it yields an "Overall" entry with rank 0 and no
      level or experience. */
  lemma BlankPayload(csv: string)
    requires AllWhitespace(csv)
    ensures PayloadLines(csv) == [""]
    ensures ParseLine("") == SkillStats(Some(Int(0)), None, None)
  {
    TrimOfPadded(csv, "", []);
    assert csv + "" + [] == csv;
  }
}
