/**
 * The score-table normaliser (`_ensure_columns` in app.py): from the raw
 * rows of a sheet to the canonical table of six teams, each with five
 * activity scores and their total.
 *
 * `Normalize` states the result declaratively (each team takes the scores
 * of the LAST row labelled with it, or zeros); `EnsureColumns` performs the
 * source's steps one after the other and is proved to produce `Normalize`.
 */
module Normalizer {

  import opened Wrappers
  import opened Scores
  import opened Text

  /** A raw row once its team label is trimmed and its activity cells are coerced. */
  datatype Entry = Entry(team: string, scores: seq<int>)

  /** Numeric coercion with zero fill: a cell that does not parse, or is empty, counts 0. */
  function CellValue(c: Cell): int
  {
    match c
    case Num(n) => n
    case _ => 0
  }

  /**
   * The team label of a raw row: "" when the sheet has no team column, the
   * trimmed text otherwise, so a team's own label reads as that team.
   */
  function Label(r: RawRow): (l: string)
    ensures r.team.None? ==> l == ""
    ensures l == [] || (!IsSpace(l[0]) && !IsSpace(l[|l| - 1]))
    ensures r.team.Some? ==> l == Strip(r.team.value)
    ensures r.team.Some? && r.team.value in TEAMS ==> l == r.team.value
  {
    TeamLabelsTrimmed();
    match r.team
    case None => ""
    case Some(s) => Strip(s)
  }

  /** The five activity scores of a row, in activity order; an activity column the sheet lacks counts 0. */
  function Coerce(cells: map<string, Cell>): (s: seq<int>)
    ensures |s| == |ACTIVITIES|
    ensures forall k :: 0 <= k < |ACTIVITIES| ==>
              s[k] == if ACTIVITIES[k] in cells && cells[ACTIVITIES[k]].Num? then cells[ACTIVITIES[k]].n else 0
  {
    seq(|ACTIVITIES|, k requires 0 <= k < |ACTIVITIES| =>
      if ACTIVITIES[k] in cells then CellValue(cells[ACTIVITIES[k]]) else 0)
  }

  function Clean(r: RawRow): Entry
  {
    Entry(Label(r), Coerce(r.cells))
  }

  function Prepare(raw: seq<RawRow>): seq<Entry>
  {
    seq(|raw|, k requires 0 <= k < |raw| => Clean(raw[k]))
  }

  /** Index of the last entry labelled `t`, or -1 when there is none. */
  function LastIndex(es: seq<Entry>, t: string): (j: int)
    ensures -1 <= j < |es|
    ensures j >= 0 ==> es[j].team == t
    ensures forall k :: j < k < |es| ==> es[k].team != t
  {
    if es == [] then -1
    else if es[|es| - 1].team == t then |es| - 1
    else LastIndex(es[..|es| - 1], t)
  }

  /** The scores team `t` ends up with: those of its last entry, or all zeros. */
  function ScoresOf(es: seq<Entry>, t: string): seq<int>
  {
    var j := LastIndex(es, t);
    if j < 0 then Zeros() else es[j].scores
  }

  function MakeRow(team: string, scores: seq<int>): ScoreRow
  {
    ScoreRow(team, scores, Sum(scores))
  }

  function Canonical(es: seq<Entry>): seq<ScoreRow>
  {
    seq(|TEAMS|, i requires 0 <= i < |TEAMS| => MakeRow(TEAMS[i], ScoresOf(es, TEAMS[i])))
  }

  /** The canonical table of a sheet: six rows in team order, five scores each, total = sum of the scores. */
  function Normalize(raw: seq<RawRow>): (table: seq<ScoreRow>)
    ensures IsCanonical(table)
  {
    Canonical(Prepare(raw))
  }

  // ----- facts about LastIndex and ScoresOf -----

  /** The three properties in LastIndex's contract pin its value down. */
  lemma LastIndexUnique(es: seq<Entry>, t: string, j: int)
    requires -1 <= j < |es|
    requires j >= 0 ==> es[j].team == t
    requires forall k :: j < k < |es| ==> es[k].team != t
    ensures LastIndex(es, t) == j
  {
  }

  /** Appending an entry: it becomes the last one for its own team and changes nothing for the others. */
  lemma ScoresOfSnoc(es: seq<Entry>, e: Entry)
    ensures forall t :: ScoresOf(es + [e], t) == if e.team == t then e.scores else ScoresOf(es, t)
  {
    forall t
      ensures ScoresOf(es + [e], t) == if e.team == t then e.scores else ScoresOf(es, t)
    {
      ScoresOfSnocAt(es, e, t);
    }
  }

  /** `ScoresOfSnoc` for one label. */
  lemma ScoresOfSnocAt(es: seq<Entry>, e: Entry, t: string)
    ensures ScoresOf(es + [e], t) == if e.team == t then e.scores else ScoresOf(es, t)
  {
    if e.team == t {
      LastIndexUnique(es + [e], t, |es|);
    } else {
      LastIndexUnique(es + [e], t, LastIndex(es, t));
    }
  }

  /** Prepending an entry: it only counts for its team when no later entry has that team. */
  lemma LastIndexCons(e: Entry, es: seq<Entry>, t: string)
    ensures LastIndex([e] + es, t) ==
      if LastIndex(es, t) >= 0 then LastIndex(es, t) + 1 else if e.team == t then 0 else -1
  {
    var j := LastIndex(es, t);
    var s := [e] + es;
    if j >= 0 {
      LastIndexUnique(s, t, j + 1);
    } else if e.team == t {
      LastIndexUnique(s, t, 0);
    } else {
      LastIndexUnique(s, t, -1);
    }
  }

  lemma ScoresOfCons(e: Entry, es: seq<Entry>, t: string)
    ensures LastIndex([e] + es, t) >= 0 <==> (LastIndex(es, t) >= 0 || e.team == t)
    ensures ScoresOf([e] + es, t) ==
      if LastIndex(es, t) >= 0 then ScoresOf(es, t) else if e.team == t then e.scores else Zeros()
  {
    LastIndexCons(e, es, t);
    var j := LastIndex(es, t);
    if j >= 0 {
      assert ([e] + es)[j + 1] == es[j];
    }
  }

  /** `ScoresOfCons` for every label at once. */
  lemma ConsAll(e: Entry, es: seq<Entry>)
    ensures forall t :: LastIndex([e] + es, t) >= 0 <==> (LastIndex(es, t) >= 0 || e.team == t)
    ensures forall t ::
              ScoresOf([e] + es, t) ==
              if LastIndex(es, t) >= 0 then ScoresOf(es, t) else if e.team == t then e.scores else Zeros()
  {
    forall t
      ensures LastIndex([e] + es, t) >= 0 <==> (LastIndex(es, t) >= 0 || e.team == t)
      ensures ScoresOf([e] + es, t) ==
        if LastIndex(es, t) >= 0 then ScoresOf(es, t) else if e.team == t then e.scores else Zeros()
    {
      ScoresOfCons(e, es, t);
    }
  }

  /** Removing an entry labelled with another team does not change what team `t` gets. */
  lemma ScoresOfDropOther(x: seq<Entry>, e: Entry, y: seq<Entry>, t: string)
    requires e.team != t
    ensures ScoresOf(x + [e] + y, t) == ScoresOf(x + y, t)
  {
    var s, d := x + [e] + y, x + y;
    var j := LastIndex(s, t);
    if j > |x| {
      assert d[j - 1] == s[j];
      forall k | j - 1 < k < |d| ensures d[k].team != t {
        assert d[k] == s[k + 1];
      }
      LastIndexUnique(d, t, j - 1);
    } else {
      assert j != |x|;
      assert j >= 0 ==> d[j] == s[j];
      forall k | j < k < |d| ensures d[k].team != t {
        if k < |x| { assert d[k] == s[k]; } else { assert d[k] == s[k + 1]; }
      }
      LastIndexUnique(d, t, j);
    }
  }

  lemma PrepareSplit(a: seq<RawRow>, r: RawRow, b: seq<RawRow>)
    ensures Prepare(a + [r] + b) == Prepare(a) + [Clean(r)] + Prepare(b)
    ensures Prepare(a + b) == Prepare(a) + Prepare(b)
  {
  }

  // ----- the step-by-step normaliser -----

  /** No two entries carry the same team label. */
  predicate Distinct(es: seq<Entry>)
  {
    forall a, b :: 0 <= a < b < |es| ==> es[a].team != es[b].team
  }

  /** Cleaning one more row appends its entry. */
  lemma PrepareSnoc(raw: seq<RawRow>, i: int)
    requires 0 <= i < |raw|
    ensures Prepare(raw[..i + 1]) == Prepare(raw[..i]) + [Clean(raw[i])]
  {
    assert raw[..i + 1] == raw[..i] + [raw[i]];
  }

  /** Ensure the team column (missing -> ""), ensure and coerce the activity columns, trim the labels. */
  method CleanRows(raw: seq<RawRow>) returns (rows: seq<Entry>)
    ensures rows == Prepare(raw)
  {
    rows := [];
    var i := 0;
    while i < |raw|
      invariant 0 <= i <= |raw|
      invariant rows == Prepare(raw[..i])
    {
      PrepareSnoc(raw, i);
      rows := rows + [Clean(raw[i])];
      i := i + 1;
    }
    assert raw[..|raw|] == raw;
  }

  /** Every entry is labelled with one of the six teams. */
  ghost predicate AllKnown(v: seq<Entry>)
  {
    forall k :: 0 <= k < |v| ==> v[k].team in TEAMS
  }

  /** Equal canonical tables give every team the same scores. */
  lemma SameTeamScores(v: seq<Entry>, w: seq<Entry>)
    requires Canonical(v) == Canonical(w)
    ensures forall n :: 0 <= n < |TEAMS| ==> ScoresOf(v, TEAMS[n]) == ScoresOf(w, TEAMS[n])
  {
    forall n | 0 <= n < |TEAMS| ensures ScoresOf(v, TEAMS[n]) == ScoresOf(w, TEAMS[n]) {
      assert Canonical(v)[n] == Canonical(w)[n];
    }
  }

  /** One filtering step on a known-team row: keeping it keeps the kept rows' table equal to the scanned prefix's. */
  lemma KeepKnownStep(v: seq<Entry>, rows: seq<Entry>, i: int)
    requires 0 <= i < |rows| && rows[i].team in TEAMS
    requires Canonical(v) == Canonical(rows[..i])
    ensures Canonical(v + [rows[i]]) == Canonical(rows[..i + 1])
  {
    var e, w := rows[i], rows[..i];
    assert rows[..i + 1] == w + [e];
    SameTeamScores(v, w);
    forall n | 0 <= n < |TEAMS| ensures ScoresOf(v + [e], TEAMS[n]) == ScoresOf(w + [e], TEAMS[n]) {
      ScoresOfSnocAt(v, e, TEAMS[n]);
      ScoresOfSnocAt(w, e, TEAMS[n]);
    }
  }

  /** One filtering step on any other row: dropping it changes no team's scores. */
  lemma SkipUnknownStep(v: seq<Entry>, rows: seq<Entry>, i: int)
    requires 0 <= i < |rows| && rows[i].team !in TEAMS
    requires Canonical(v) == Canonical(rows[..i])
    ensures Canonical(v) == Canonical(rows[..i + 1])
  {
    var e, w := rows[i], rows[..i];
    assert rows[..i + 1] == w + [e];
    SameTeamScores(v, w);
    forall n | 0 <= n < |TEAMS| ensures ScoresOf(w + [e], TEAMS[n]) == ScoresOf(w, TEAMS[n]) {
      ScoresOfSnocAt(w, e, TEAMS[n]);
    }
  }

  /**
   * The rows labelled with one of the six teams, in their original order:
   * an entry is kept exactly when it is a row with a known label.
   */
  function KnownRows(rows: seq<Entry>): (kept: seq<Entry>)
    ensures |kept| <= |rows|
    ensures forall e :: e in kept <==> e in rows && e.team in TEAMS
  {
    if rows == [] then []
    else
      var init, last := rows[..|rows| - 1], rows[|rows| - 1];
      assert rows == init + [last];
      KnownRows(init) + if last.team in TEAMS then [last] else []
  }

  /** Filtering one more row appends it exactly when its label is known. */
  lemma KnownRowsSnoc(rows: seq<Entry>, i: int)
    requires 0 <= i < |rows|
    ensures KnownRows(rows[..i + 1]) == KnownRows(rows[..i]) + if rows[i].team in TEAMS then [rows[i]] else []
  {
    assert rows[..i + 1][..i] == rows[..i];
  }

  /** Keep only rows labelled with one of the six teams, in order; what each team ends up with is unchanged. */
  method KeepKnownTeams(rows: seq<Entry>) returns (valid: seq<Entry>)
    ensures valid == KnownRows(rows)
    ensures AllKnown(valid)
    ensures Canonical(valid) == Canonical(rows)
  {
    valid := [];
    var i := 0;
    while i < |rows|
      invariant 0 <= i <= |rows|
      invariant valid == KnownRows(rows[..i])
      invariant Canonical(valid) == Canonical(rows[..i])
    {
      KnownRowsSnoc(rows, i);
      if rows[i].team in TEAMS {
        KeepKnownStep(valid, rows, i);
        valid := valid + [rows[i]];
      } else {
        SkipUnknownStep(valid, rows, i);
      }
      i := i + 1;
    }
    assert rows[..|rows|] == rows;
    forall k | 0 <= k < |valid| ensures valid[k].team in TEAMS {
      assert valid[k] in valid;
    }
  }

  /** Two entry lists give every label the same outcome: present in both or in neither, with the same scores. */
  ghost predicate Agree(d: seq<Entry>, v: seq<Entry>)
  {
    forall t :: (LastIndex(d, t) >= 0 <==> LastIndex(v, t) >= 0) && ScoresOf(d, t) == ScoresOf(v, t)
  }

  /** `seen` holds exactly the labels present in `v`. */
  ghost predicate SeenIn(seen: set<string>, v: seq<Entry>)
  {
    forall t :: t in seen <==> LastIndex(v, t) >= 0
  }

  /** Agreement on every label implies the same canonical table. */
  lemma AgreeCanonical(d: seq<Entry>, v: seq<Entry>)
    requires Agree(d, v)
    ensures Canonical(d) == Canonical(v)
  {
    assert forall n :: 0 <= n < |TEAMS| ==> ScoresOf(d, TEAMS[n]) == ScoresOf(v, TEAMS[n]);
  }

  /** One backward step of duplicate removal over `v = valid[j..]`, with `e = valid[j - 1]`. */
  lemma DedupeStep(d: seq<Entry>, valid: seq<Entry>, j: int, seen: set<string>)
    requires 0 < j <= |valid|
    requires Distinct(d) && Agree(d, valid[j..]) && SeenIn(seen, valid[j..])
    ensures valid[j - 1].team in seen ==> Agree(d, valid[j - 1..]) && SeenIn(seen, valid[j - 1..])
    ensures valid[j - 1].team !in seen ==>
      && Distinct([valid[j - 1]] + d)
      && Agree([valid[j - 1]] + d, valid[j - 1..])
      && SeenIn(seen + {valid[j - 1].team}, valid[j - 1..])
  {
    var e, v := valid[j - 1], valid[j..];
    assert valid[j - 1..] == [e] + v;
    ConsAll(e, v);
    ConsAll(e, d);
    if e.team !in seen {
      assert LastIndex(d, e.team) < 0;
    }
  }

  /** Drop rows whose label repeats later on: one row per label remains, the last one. */
  method DropDuplicatesKeepLast(valid: seq<Entry>) returns (deduped: seq<Entry>)
    ensures Distinct(deduped)
    ensures Agree(deduped, valid)
  {
    deduped := [];
    var seen: set<string> := {};
    var j := |valid|;
    while j > 0
      invariant 0 <= j <= |valid|
      invariant Distinct(deduped) && Agree(deduped, valid[j..]) && SeenIn(seen, valid[j..])
    {
      var e := valid[j - 1];
      if e.team !in seen {
        DedupeStep(deduped, valid, j, seen);
        deduped := [e] + deduped;
        seen := seen + {e.team};
      } else {
        DedupeStep(deduped, valid, j, seen);
      }
      j := j - 1;
    }
    assert valid[0..] == valid;
  }

  /**
   * Left merge of the six teams with rows whose labels are distinct (the
   * caller has just dropped duplicates): a team without a row gets zeros;
   * each merged row gets its total.
   */
  method MergeOntoTeams(deduped: seq<Entry>) returns (table: seq<ScoreRow>)
    requires Distinct(deduped)
    ensures table == Canonical(deduped)
  {
    table := [];
    var n := 0;
    while n < |TEAMS|
      invariant 0 <= n <= |TEAMS|
      invariant |table| == n
      invariant forall k :: 0 <= k < n ==> table[k] == MakeRow(TEAMS[k], ScoresOf(deduped, TEAMS[k]))
    {
      var t := TEAMS[n];
      var m := 0;
      while m < |deduped| && deduped[m].team != t
        invariant 0 <= m <= |deduped|
        invariant forall k :: 0 <= k < m ==> deduped[k].team != t
      {
        m := m + 1;
      }
      var scores := Zeros();
      if m < |deduped| {
        scores := deduped[m].scores;
        LastIndexUnique(deduped, t, m);
      } else {
        LastIndexUnique(deduped, t, -1);
      }
      table := table + [MakeRow(t, scores)];
      n := n + 1;
    }
  }

  /**
   * `_ensure_columns`: the steps above in the source's order. The merge
   * already lists the teams in their fixed order, so the final sort by team
   * leaves the table as it is.
   */
  method EnsureColumns(raw: seq<RawRow>) returns (table: seq<ScoreRow>)
    ensures table == Normalize(raw)
  {
    var rows := CleanRows(raw);
    var valid := KeepKnownTeams(rows);
    var deduped := DropDuplicatesKeepLast(valid);
    table := MergeOntoTeams(deduped);
    AgreeCanonical(deduped, valid);
  }

  // ----- what the canonical table promises -----

  /** Six rows in fixed team order, and each team names exactly one of them. */
  lemma NormalizeShape(raw: seq<RawRow>)
    ensures |Normalize(raw)| == |TEAMS| == 6
    ensures forall i :: 0 <= i < |TEAMS| ==> Normalize(raw)[i].team == TEAMS[i]
    ensures forall i, j :: 0 <= i < |TEAMS| && 0 <= j < |TEAMS| && Normalize(raw)[i].team == Normalize(raw)[j].team ==> i == j
  {
    TeamsDistinct();
  }

  /**
   * Keep-last and zero fill: a team's scores come from the last row whose
   * trimmed label is that team; in that row, an activity cell that parses
   * gives its number and a missing, empty or unparseable one gives 0.
   */
  lemma KeepLast(raw: seq<RawRow>, i: int, j: int)
    requires 0 <= i < |TEAMS| && 0 <= j < |raw|
    requires Label(raw[j]) == TEAMS[i]
    requires forall k :: j < k < |raw| ==> Label(raw[k]) != TEAMS[i]
    ensures Normalize(raw)[i].scores == Coerce(raw[j].cells)
    ensures forall k :: 0 <= k < |ACTIVITIES| ==>
      Normalize(raw)[i].scores[k] ==
        if ACTIVITIES[k] in raw[j].cells && raw[j].cells[ACTIVITIES[k]].Num?
        then raw[j].cells[ACTIVITIES[k]].n else 0
  {
    LastIndexUnique(Prepare(raw), TEAMS[i], j);
  }

  /** A team that no row names gets five zeros and a zero total. */
  lemma AbsentTeamGetsZeros(raw: seq<RawRow>, i: int)
    requires 0 <= i < |TEAMS|
    requires forall k :: 0 <= k < |raw| ==> Label(raw[k]) != TEAMS[i]
    ensures Normalize(raw)[i] == ScoreRow(TEAMS[i], [0, 0, 0, 0, 0], 0)
  {
    LastIndexUnique(Prepare(raw), TEAMS[i], -1);
    SumOfFive(Zeros());
  }

  /** A row whose trimmed label is not one of the six teams has no effect, wherever it stands. */
  lemma UnknownRowIgnored(a: seq<RawRow>, r: RawRow, b: seq<RawRow>)
    requires Label(r) !in TEAMS
    ensures Normalize(a + [r] + b) == Normalize(a + b)
  {
    PrepareSplit(a, r, b);
    forall i | 0 <= i < |TEAMS|
      ensures ScoresOf(Prepare(a + [r] + b), TEAMS[i]) == ScoresOf(Prepare(a + b), TEAMS[i])
    {
      ScoresOfDropOther(Prepare(a), Clean(r), Prepare(b), TEAMS[i]);
    }
  }

  /** Without a team column every label is "", so no row of such a sheet has any effect. */
  lemma MissingTeamColumnIgnored(a: seq<RawRow>, cells: map<string, Cell>, b: seq<RawRow>)
    ensures Normalize(a + [RawRow(None, cells)] + b) == Normalize(a + b)
  {
    UnknownRowIgnored(a, RawRow(None, cells), b);
  }

  /** A later row for a team replaces that team's scores and leaves every other row as it was. */
  lemma LaterRowWins(raw: seq<RawRow>, r: RawRow, i: int)
    requires 0 <= i < |TEAMS| && Label(r) == TEAMS[i]
    ensures Normalize(raw + [r])[i].scores == Coerce(r.cells)
    ensures forall n :: 0 <= n < |TEAMS| && n != i ==> Normalize(raw + [r])[n] == Normalize(raw)[n]
  {
    assert Prepare(raw + [r]) == Prepare(raw) + [Clean(r)];
    ScoresOfSnoc(Prepare(raw), Clean(r));
    TeamsDistinct();
  }

  /** Five scores written as the five activity cells of a sheet row. */
  function ActivityCells(scores: seq<int>): map<string, Cell>
    requires |scores| == |ACTIVITIES|
  {
    map[ACTIVITIES[0] := Num(scores[0]), ACTIVITIES[1] := Num(scores[1]),
        ACTIVITIES[2] := Num(scores[2]), ACTIVITIES[3] := Num(scores[3]),
        ACTIVITIES[4] := Num(scores[4])]
  }

  /** The cells of a sheet row holding a canonical row: its five scores, plus the extra Total column. */
  function RowCells(row: ScoreRow): map<string, Cell>
    requires |row.scores| == |ACTIVITIES|
  {
    ActivityCells(row.scores)[TOTAL_COLUMN := Num(row.total)]
  }

  /** A sheet holding a canonical table: the team column, the five activities and Total. */
  function Denormalize(table: seq<ScoreRow>): seq<RawRow>
    requires IsCanonical(table)
  {
    seq(|table|, i requires 0 <= i < |table| => RawRow(Some(table[i].team), RowCells(table[i])))
  }

  /** Writing scores as activity cells, with or without an extra column, and coercing them back gives the scores. */
  lemma CoerceActivityCells(scores: seq<int>, extra: string, x: Cell)
    requires |scores| == |ACTIVITIES| && extra !in ACTIVITIES
    ensures Coerce(ActivityCells(scores)) == scores
    ensures Coerce(ActivityCells(scores)[extra := x]) == scores
  {
    ActivitiesDistinct();
    var c := ActivityCells(scores);
    forall k | 0 <= k < |ACTIVITIES| ensures ACTIVITIES[k] in c && c[ACTIVITIES[k]] == Num(scores[k]) {
    }
    assert Coerce(c) == scores;
    assert Coerce(c[extra := x]) == scores;
  }

  /** The team labels carry no surrounding whitespace, so trimming keeps them. */
  lemma TeamLabelsTrimmed()
    ensures forall i :: 0 <= i < |TEAMS| ==> Strip(TEAMS[i]) == TEAMS[i]
  {
    forall i | 0 <= i < |TEAMS| ensures Strip(TEAMS[i]) == TEAMS[i] {
      var t := TEAMS[i];
      assert t[0] == 'F' && '1' <= t[|t| - 1] <= '6';
    }
  }

  /** Each row of a sheet holding a canonical table cleans to its team label and its five scores. */
  lemma PreparedDenormalized(table: seq<ScoreRow>)
    requires IsCanonical(table)
    ensures |Prepare(Denormalize(table))| == |TEAMS|
    ensures forall k :: 0 <= k < |TEAMS| ==> Prepare(Denormalize(table))[k] == Entry(TEAMS[k], table[k].scores)
  {
    var raw := Denormalize(table);
    ActivitiesDistinct();
    forall k | 0 <= k < |TEAMS| ensures Clean(raw[k]) == Entry(TEAMS[k], table[k].scores) {
      assert raw[k].team == Some(TEAMS[k]);
      CoerceActivityCells(table[k].scores, TOTAL_COLUMN, Num(table[k].total));
    }
  }

  /** When entry k is labelled with team k, every team gets the scores of its own entry. */
  lemma CanonicalOfLabelled(es: seq<Entry>)
    requires |es| == |TEAMS| && forall k :: 0 <= k < |TEAMS| ==> es[k].team == TEAMS[k]
    ensures forall i :: 0 <= i < |TEAMS| ==> Canonical(es)[i] == MakeRow(TEAMS[i], es[i].scores)
  {
    TeamsDistinct();
    forall i | 0 <= i < |TEAMS| ensures ScoresOf(es, TEAMS[i]) == es[i].scores {
      LastIndexUnique(es, TEAMS[i], i);
    }
  }

  /** Reading back a canonical table written as a sheet gives the same table. */
  lemma RoundTrip(table: seq<ScoreRow>)
    requires IsCanonical(table)
    ensures Normalize(Denormalize(table)) == table
  {
    var es := Prepare(Denormalize(table));
    PreparedDenormalized(table);
    CanonicalOfLabelled(es);
    assert forall i :: 0 <= i < |TEAMS| ==> table[i] == MakeRow(TEAMS[i], es[i].scores);
  }

  /** Normalising a sheet that holds a normalised table gives that table again. */
  lemma Idempotent(raw: seq<RawRow>)
    ensures Normalize(Denormalize(Normalize(raw))) == Normalize(raw)
  {
    RoundTrip(Normalize(raw));
  }

  /** The single row of such a sheet cleans to its team and its scores. */
  lemma PrepareSole(i: int, scores: seq<int>)
    requires 0 <= i < |TEAMS| && |scores| == |ACTIVITIES|
    ensures Prepare([RawRow(Some(TEAMS[i]), ActivityCells(scores))]) == [Entry(TEAMS[i], scores)]
  {
    var r := RawRow(Some(TEAMS[i]), ActivityCells(scores));
    var p := Prepare([r]);
    assert p == [Clean(r)];
    assert Label(r) == TEAMS[i];
    assert Coerce(r.cells) == scores by {
      ActivitiesDistinct();
      CoerceActivityCells(scores, TOTAL_COLUMN, Empty);
    }
  }

  /** A sheet with a single row, for team `i`: that team gets the row's scores, every other team zeros. */
  lemma SoleRow(i: int, scores: seq<int>)
    requires 0 <= i < |TEAMS| && |scores| == |ACTIVITIES|
    ensures Normalize([RawRow(Some(TEAMS[i]), ActivityCells(scores))])[i] == MakeRow(TEAMS[i], scores)
    ensures forall n :: 0 <= n < |TEAMS| && n != i ==>
      Normalize([RawRow(Some(TEAMS[i]), ActivityCells(scores))])[n] == MakeRow(TEAMS[n], Zeros())
  {
    var es := [Entry(TEAMS[i], scores)];
    PrepareSole(i, scores);
    TeamsDistinct();
    forall n | 0 <= n < |TEAMS| ensures ScoresOf(es, TEAMS[n]) == if n == i then scores else Zeros() {
      LastIndexUnique(es, TEAMS[n], if n == i then 0 else -1);
    }
  }

  /** A sheet with only FV2 scoring 10, 20, 0, 0, 0: FV2 totals 30, every other team 0. */
  lemma SingleTeamSheet()
    ensures var table := Normalize([RawRow(Some("FV2"), ActivityCells([10, 20, 0, 0, 0]))]);
      && |table| == 6
      && table[1].total == 30
      && forall i :: 0 <= i < 6 && i != 1 ==> table[i].total == 0
  {
    SoleRow(1, [10, 20, 0, 0, 0]);
    SumOfFive([10, 20, 0, 0, 0]);
    SumOfFive(Zeros());
  }

  /** A label padded with whitespace counts for its team: " FV2\t" is FV2. */
  lemma PaddedLabelCounts(cells: map<string, Cell>)
    ensures Normalize([RawRow(Some(" FV2\t"), cells)])[1].scores == Coerce(cells)
  {
    var t := " FV2\t";
    var raw := [RawRow(Some(t), cells)];
    assert TrimStart(t, 0) == 1 by {
      assert IsSpace(t[0]) && !IsSpace(t[1]);
    }
    assert TrimEnd(t, 1, 5) == 4 by {
      assert IsSpace(t[4]) && !IsSpace(t[3]);
    }
    assert t[1..4] == TEAMS[1];
    assert Label(raw[0]) == TEAMS[1];
    KeepLast(raw, 1, 0);
  }

  /** Two rows labelled FV1: the later one's scores are FV1's. */
  lemma DuplicateTeamSheet(first: map<string, Cell>, second: map<string, Cell>)
    ensures Normalize([RawRow(Some("FV1"), first), RawRow(Some("FV1"), second)])[0].scores == Coerce(second)
  {
    var raw := [RawRow(Some("FV1"), first), RawRow(Some("FV1"), second)];
    assert Label(raw[1]) == "FV1" by { TeamLabelsTrimmed(); assert TEAMS[0] == "FV1"; }
    KeepLast(raw, 0, 1);
  }
}
