/**
 * The ranking view: every team's total, sorted from highest to lowest,
 * numbered from 1, with a medal for the first three positions.
 */
module Leaderboard {

  import opened Scores

  const GOLD: string := "\U{1F947}"
  const SILVER: string := "\U{1F948}"
  const BRONZE: string := "\U{1F949}"

  /** The medal shown beside a position: one for each of the first three places, nothing for the rest. */
  function Medal(pos: int): (m: string)
    ensures m != "" <==> 1 <= pos <= 3
  {
    if pos == 1 then GOLD else if pos == 2 then SILVER else if pos == 3 then BRONZE else ""
  }

  /** The three podium medals are pairwise distinct, so each podium place is told apart. */
  lemma PodiumMedalsDistinct(p: int, q: int)
    requires 1 <= p <= 3 && 1 <= q <= 3 && Medal(p) == Medal(q)
    ensures p == q
  {
    assert Medal(p)[0] == Medal(q)[0];
  }

  /** A team and its total, the two columns the ranking starts from. */
  datatype Standing = Standing(team: string, total: int)

  /** One line of the ranking: medal, 1-based position, team and total. */
  datatype RankRow = RankRow(medal: string, position: int, team: string, total: int)

  function Project(table: seq<ScoreRow>): seq<Standing>
  {
    seq(|table|, i requires 0 <= i < |table| => Standing(table[i].team, table[i].total))
  }

  function Standings(ranking: seq<RankRow>): seq<Standing>
  {
    seq(|ranking|, i requires 0 <= i < |ranking| => Standing(ranking[i].team, ranking[i].total))
  }

  /** Totals never increase from one line to any later line. */
  predicate NonIncreasing(s: seq<Standing>)
  {
    forall a, b :: 0 <= a < b < |s| ==> s[a].total >= s[b].total
  }

  /** Inserts `x` into a list sorted by decreasing total, keeping it sorted and losing nothing. */
  function InsertDesc(x: Standing, s: seq<Standing>): (r: seq<Standing>)
    requires NonIncreasing(s)
    ensures NonIncreasing(r)
    ensures multiset(r) == multiset(s) + multiset{x}
    ensures |r| == |s| + 1 && (r[0] == x || (|s| > 0 && r[0] == s[0]))
  {
    if s == [] || x.total > s[0].total then
      [x] + s
    else
      var rest := InsertDesc(x, s[1..]);
      assert s == [s[0]] + s[1..];
      assert rest[0].total <= s[0].total;
      [s[0]] + rest
  }

  /** Sorting by total, from highest to lowest; the order among equal totals is left open. */
  method SortByTotalDesc(s: seq<Standing>) returns (r: seq<Standing>)
    ensures NonIncreasing(r)
    ensures multiset(r) == multiset(s)
  {
    r := [];
    var i := 0;
    while i < |s|
      invariant 0 <= i <= |s|
      invariant NonIncreasing(r)
      invariant multiset(r) == multiset(s[..i])
    {
      assert s[..i + 1] == s[..i] + [s[i]];
      r := InsertDesc(s[i], r);
      i := i + 1;
    }
    assert s[..|s|] == s;
  }

  /**
   * The ranking block: project (team, total), sort by total descending,
   * number the lines from 1 and attach each position's medal.
   */
  method Rank(table: seq<ScoreRow>) returns (ranking: seq<RankRow>)
    ensures |ranking| == |table|
    ensures forall k :: 0 <= k < |ranking| ==> ranking[k].position == k + 1 && ranking[k].medal == Medal(k + 1)
    ensures NonIncreasing(Standings(ranking))
    ensures multiset(Standings(ranking)) == multiset(Project(table))
    ensures forall i :: 0 <= i < |table| ==> table[i].total <= ranking[0].total
  {
    var sorted := SortByTotalDesc(Project(table));
    assert |sorted| == |table| by {
      assert |multiset(sorted)| == |multiset(Project(table))|;
    }
    ranking := [];
    var k := 0;
    while k < |sorted|
      invariant 0 <= k <= |sorted|
      invariant |ranking| == k
      invariant forall n :: 0 <= n < k ==>
        ranking[n] == RankRow(Medal(n + 1), n + 1, sorted[n].team, sorted[n].total)
    {
      ranking := ranking + [RankRow(Medal(k + 1), k + 1, sorted[k].team, sorted[k].total)];
      k := k + 1;
    }
    assert Standings(ranking) == sorted;
    forall i | 0 <= i < |table| ensures table[i].total <= ranking[0].total {
      FirstHasMaximum(table, ranking, i);
    }
  }

  /** The first line of a ranking holds the largest total of the table. */
  lemma FirstHasMaximum(table: seq<ScoreRow>, ranking: seq<RankRow>, i: int)
    requires NonIncreasing(Standings(ranking))
    requires multiset(Standings(ranking)) == multiset(Project(table))
    requires 0 <= i < |table|
    ensures |ranking| > 0 && table[i].total <= ranking[0].total
  {
    var p := Project(table);
    assert p[i] in multiset(p);
    var st := Standings(ranking);
    assert p[i] in multiset(st);
    var k :| 0 <= k < |st| && st[k] == p[i];
    assert st[0].total >= st[k].total;
  }
}
