/**
 * The fixed parameters of the score sheet and the shape of its rows:
 * six teams, five scored activities, the raw rows read from the file and
 * the canonical rows the dashboard shows.
 */
module Scores {

  import opened Wrappers

  /** The six teams, in display order (`TEAMS` in app.py). */
  const TEAMS: seq<string> := ["FV1", "FV2", "FV3", "FV4", "FV5", "FV6"]

  /** The five activity column headers, in display order (`ACTIVITIES` in app.py). */
  const ACTIVITIES: seq<string> := [
    "Fecha 1 y 2 (01-05/09)",
    "Fecha 3 (08/09)",
    "Fecha 4 (12/09)",
    "Fecha 5 (15/09)",
    "Fecha 6 (19/09)"
  ]

  /** Header of the team column. */
  const TEAM_COLUMN: string := "Grupo"

  /** Header of the derived column holding the sum of the activities. */
  const TOTAL_COLUMN: string := "Total"

  /**
   * One cell of an activity column, as numeric coercion sees it: a value
   * that parses as a number, a value that does not, or an empty cell.
   */
  datatype Cell = Num(n: int) | Unparseable | Empty

  /**
   * One row of the sheet as read from the file. `team` is the text of the
   * team cell as string conversion renders it, or None when the sheet has
   * no team column at all; `cells` maps each column header present in the
   * sheet (activity or not) to this row's cell.
   */
  datatype RawRow = RawRow(team: Option<string>, cells: map<string, Cell>)

  /** One row of the canonical table: a team, its five scores and their total. */
  datatype ScoreRow = ScoreRow(team: string, scores: seq<int>, total: int)

  /** Sum of a sequence of scores. */
  function Sum(s: seq<int>): int
  {
    if s == [] then 0 else Sum(s[..|s| - 1]) + s[|s| - 1]
  }

  /** The total of five scores written out. */
  lemma SumOfFive(s: seq<int>)
    requires |s| == 5
    ensures Sum(s) == s[0] + s[1] + s[2] + s[3] + s[4]
  {
    assert Sum(s) == Sum(s[..4]) + s[4];
    assert s[..4][..3] == s[..3];
    assert Sum(s[..4]) == Sum(s[..3]) + s[3];
    assert s[..3][..2] == s[..2];
    assert Sum(s[..3]) == Sum(s[..2]) + s[2];
    assert s[..2][..1] == s[..1];
    assert Sum(s[..2]) == Sum(s[..1]) + s[1];
    assert s[..1][..0] == [];
    assert Sum(s[..1]) == s[0];
  }

  /** The scores of a team that has no row in the sheet. */
  function Zeros(): (z: seq<int>)
    ensures |z| == |ACTIVITIES|
    ensures forall k :: 0 <= k < |z| ==> z[k] == 0
  {
    [0, 0, 0, 0, 0]
  }

  /** The team labels are pairwise distinct, so each names exactly one row. */
  lemma TeamsDistinct()
    ensures forall i, j :: 0 <= i < |TEAMS| && 0 <= j < |TEAMS| && TEAMS[i] == TEAMS[j] ==> i == j
  {
    forall i, j | 0 <= i < |TEAMS| && 0 <= j < |TEAMS| && TEAMS[i] == TEAMS[j]
      ensures i == j
    {
      assert TEAMS[i][2] == TEAMS[j][2];
    }
  }

  /** The activity headers are pairwise distinct and none of them is the Total header. */
  lemma ActivitiesDistinct()
    ensures forall i, j :: 0 <= i < |ACTIVITIES| && 0 <= j < |ACTIVITIES| && ACTIVITIES[i] == ACTIVITIES[j] ==> i == j
    ensures forall i :: 0 <= i < |ACTIVITIES| ==> ACTIVITIES[i] != TOTAL_COLUMN
  {
    forall i, j | 0 <= i < |ACTIVITIES| && 0 <= j < |ACTIVITIES| && ACTIVITIES[i] == ACTIVITIES[j]
      ensures i == j
    {
      assert |ACTIVITIES[i]| == |ACTIVITIES[j]| && ACTIVITIES[i][6] == ACTIVITIES[j][6];
    }
    forall i | 0 <= i < |ACTIVITIES|
      ensures ACTIVITIES[i] != TOTAL_COLUMN
    {
      assert ACTIVITIES[i][0] != TOTAL_COLUMN[0];
    }
  }

  /** A canonical table: one row per team in team order, five scores each, total = sum. */
  predicate IsCanonical(table: seq<ScoreRow>)
  {
    && |table| == |TEAMS|
    && forall i :: 0 <= i < |table| ==>
         && table[i].team == TEAMS[i]
         && |table[i].scores| == |ACTIVITIES|
         && table[i].total == Sum(table[i].scores)
  }
}
