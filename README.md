# Score dashboard core, modelled in Dafny

The dashboard in `app.py` shows the points six teams (FV1 to FV6) earned in five
scored activities. It reads a local score sheet (CSV or spreadsheet) and turns it
into a canonical table: one row per team, in fixed team order, with five activity
scores and their total. It then ranks the teams by total and gives medals to the
first three places.

This project models the logic that decides what is shown:

- `Scores` (`scores.dfy`): the team and activity constants, raw rows, canonical rows.
- `Text` (`text.dfy`): Python's `str.strip()` with Python's exact whitespace set,
  and ASCII lower-casing.
- `Normalizer` (`normalizer.dfy`): `_ensure_columns`. `Normalize` is the reference
  definition: each team takes the scores of the last row carrying its trimmed
  label, or zeros if no row does. `EnsureColumns` runs the source's steps in
  order, one method per step, and is proved to equal `Normalize`. The steps are:
  clean the rows, keep the known teams, drop duplicates keeping the last,
  left-merge onto the six teams and add the total. Lemmas state the properties
  the table promises.
- `Leaderboard` (`leaderboard.dfy`): `medals` and the ranking block (project,
  sort by total descending, number, attach medals).
- `DataSource` (`data_source.dfy`): `os.path.splitext` and the extension dispatch
  of `load_data`, `find_data_path`, choosing the custom or default path, and the
  error flow of loading.

A raw row is `RawRow(team, cells)`:

- `team` is `None` when the sheet has no `Grupo` column. Otherwise it holds the
  cell's text as string conversion renders it.
- `cells` maps each column header of the sheet to a `Cell`: `Num(n)`,
  `Unparseable` or `Empty`.

A header that is missing from a row means the column is absent. Extra columns,
such as the `Total` column of a sheet that already carries one, are simply more keys.

Files are not touched. File existence is a set of existing paths. The CSV and
spreadsheet readers are one function parameter: it maps a reader kind and a path
to the raw rows or a failure cause.

Three facts about the code shape what is claimed:

- The code does not clamp negative scores, so totals are not claimed to be ≥ 0.
- The ranking sort uses pandas' default sort kind (`app.py:146`), which is not
  stable. Nothing is claimed about the order of equal totals.
- Unsupported extensions and reader failures are caught by the same handler
  (`app.py:116-120`). They differ only in their message. The model keeps them
  apart as `UnsupportedFormat` and `ReadFailed(cause)`.

## Model

| member | source | states |
|---|---|---|
| `Scores.TeamsDistinct` | app.py:9 | the six team labels are pairwise distinct |
| `Scores.ActivitiesDistinct` | app.py:10-16 | the five activity headers are distinct and none is the Total header |
| `Scores.SumOfFive` | app.py:61 | the total of five scores is their written-out sum |
| `Text.TrimStart` | app.py:48 | the forward scan skips only whitespace and stops at the first character that is not whitespace |
| `Text.TrimEnd` | app.py:48 | the backward scan skips only whitespace and stops just past the last character that is not whitespace |
| `Text.Strip` | app.py:48 | the trimmed label is a slice of the text with only whitespace cut off either side; it has no surrounding whitespace; an already-trimmed label is unchanged |
| `Text.Lower` | app.py:68 | each ASCII upper-case letter becomes its lower-case letter, every other character is kept, and no upper-case letter remains |
| `Normalizer.Label` | app.py:30-48 | a row from a sheet without a team column is labelled ""; otherwise the label is the cell text stripped as `Text.Strip` states; every label has no surrounding whitespace; a team's own name reads as that team |
| `Normalizer.PaddedLabelCounts` | app.py:48-58 | a row labelled " FV2\t" gives FV2 that row's coerced scores |
| `Normalizer.Coerce` | app.py:34-45 | five scores in activity order: a numeric cell gives its number, a missing column or an empty or unparseable cell gives 0 |
| `Normalizer.LastIndex` | app.py:51-52 | the index of the last row with a label (or -1): it has the label and no later row does |
| `Normalizer.Normalize` | app.py:27-64 | the result is canonical: six rows in team order, five scores each, total equal to their sum |
| `Normalizer.CleanRows` | app.py:30-48 | every raw row becomes its trimmed label ("" without a team column) and five coerced scores; absent columns and bad cells give 0 |
| `Normalizer.KnownRows` | app.py:49 | the filter, taking rows in their original order, keeps no more rows than it is given, and keeps an entry exactly when it is a row whose label is one of the six teams |
| `Normalizer.KeepKnownTeams` | app.py:47-49 | the kept rows are `KnownRows` of the rows, the known-team rows in their original order; every kept row is labelled with a team; the canonical table of the kept rows equals that of all rows (each loop step proved by `KnownRowsSnoc`, `KeepKnownStep` and `SkipUnknownStep`) |
| `Normalizer.DropDuplicatesKeepLast` | app.py:51-52 | labels become distinct, the same labels stay present, and each label keeps the scores of its last row (each backward step proved by `DedupeStep`) |
| `Normalizer.MergeOntoTeams` | app.py:54-61 | the left merge onto the six teams gives each team its row's scores or zeros, with the total |
| `Normalizer.EnsureColumns` | app.py:27-64 | the step-by-step normaliser produces exactly `Normalize` of its input |
| `Normalizer.NormalizeShape` | app.py:55-63 | exactly six rows, row i is team i, and each team names exactly one row |
| `Normalizer.KeepLast` | app.py:44-58 | a team's scores come from the last row with its trimmed label: a parsed cell gives its number, a missing, empty or unparseable cell gives 0 |
| `Normalizer.AbsentTeamGetsZeros` | app.py:54-61 | a team named by no row gets five zeros and total 0 |
| `Normalizer.UnknownRowIgnored` | app.py:47-49 | inserting a row whose trimmed label is not a team, anywhere, leaves the table unchanged |
| `Normalizer.MissingTeamColumnIgnored` | app.py:30-32 | a row from a sheet without a team column (label "") has no effect |
| `Normalizer.LaterRowWins` | app.py:51-52 | appending a row for a team replaces that team's scores and leaves the other five rows as they were |
| `Normalizer.RoundTrip` | app.py:39-64 | a sheet that holds a canonical table (team column, five activities and its Total column) normalises to that table |
| `Normalizer.Idempotent` | app.py:27-64 | normalising a sheet that holds a normalised table gives the same table |
| `Normalizer.SoleRow` | app.py:48-61 | a sheet with one row for a team gives that team the row's scores and every other team zeros |
| `Normalizer.SingleTeamSheet` | app.py:27-64 | a sheet with only FV2 scoring 10, 20, 0, 0, 0 gives FV2 total 30 and every other team 0 |
| `Normalizer.DuplicateTeamSheet` | app.py:51-52 | of two FV1 rows, the later one's scores are FV1's |
| `Leaderboard.Medal` | app.py:83-84 | a medal is shown exactly for positions 1, 2 and 3 |
| `Leaderboard.PodiumMedalsDistinct` | app.py:84 | the three podium medals are pairwise distinct |
| `Leaderboard.InsertDesc` | app.py:146 | inserting into a list sorted by decreasing total keeps it sorted and adds exactly the new element |
| `Leaderboard.SortByTotalDesc` | app.py:146 | the result is sorted by decreasing total and is a permutation of the input |
| `Leaderboard.Rank` | app.py:144-148 | the ranking is a permutation of the (team, total) pairs with totals non-increasing; line k has position k+1 and that position's medal; the first line has the largest total |
| `Leaderboard.FirstHasMaximum` | app.py:146-147 | in any sorted permutation of the standings, position 1 holds the maximum total |
| `DataSource.LastIn` | app.py:68 | the index of the last character from a set (or -1): it is from the set and no later one is |
| `DataSource.SplitExt` | app.py:68 | root plus extension is the path; the extension is empty or a dot followed by no dot and no separator; a non-empty extension follows a root whose last component has a character other than a dot (the witness step is `StemBeforeDot`) |
| `DataSource.Dispatch` | app.py:68-74 | dispatch fails only with UnsupportedFormat |
| `DataSource.SplitExtOfSuffix` | app.py:68 | a dot-extension appended to a stem whose last component has a non-dot character is the path's extension |
| `DataSource.DispatchByExtension` | app.py:68-74 | lower-cased final extension ".csv" selects CSV, ".xlsx"/".xls" the spreadsheet reader, any other is UnsupportedFormat |
| `DataSource.UpperCaseCsvAccepted` | app.py:68-70 | "puntajes.CSV" selects the CSV reader |
| `DataSource.WindowsSpreadsheetAccepted` | app.py:68-72 | a backslash Windows path ending ".Xlsx" selects the spreadsheet reader |
| `DataSource.FinalExtensionOnly` | app.py:68-74 | "puntajes.csv.bak" is rejected: only the final extension counts |
| `DataSource.NoExtensionRejected` | app.py:68-74 | a path that is not a named stem followed by a dot-extension has an empty extension and is rejected |
| `DataSource.DotFileRejected` | app.py:68-74 | a file named ".csv" has no extension and is rejected |
| `DataSource.BareNameRejected` | app.py:68-74 | a file name without a dot, "puntajes", is rejected |
| `DataSource.FindDataPath` | app.py:17-25 | returns the first existing candidate in priority order, or None exactly when neither exists; CSV wins over XLSX |
| `DataSource.ResolveDataPath` | app.py:99-113 | a non-empty custom path is used if it exists; otherwise the first existing candidate; FileNotFound when there is none |
| `DataSource.LoadData` | app.py:67-75 | unsupported extension gives UnsupportedFormat, a reader failure gives ReadFailed with its cause, otherwise the normalised (canonical) table |
| `DataSource.LoadDashboard` | app.py:99-120 | FileNotFound exactly when no path resolves; otherwise the resolved path (custom, else the first existing candidate) exists and gives UnsupportedFormat, ReadFailed with the reader's cause, or the normalised table of what was read; a loaded table is canonical |

## Left out

- Streamlit UI is not modelled, because it is presentation: page setup, sidebar, tabs, tables, bar chart, metrics, messages and `st.stop` (`app.py:87-155`). This covers the team detail view (`app.py:127-140`). Its lookup `iloc[0]` always finds a row, because each team names exactly one row (`NormalizeShape`).
- Caching (`@st.cache_data` and the manual clear) is not modelled, because it is framework state. Each call recomputes the table.
- The CSV and spreadsheet readers are not modelled, because they are library calls. Their output is the raw-row parameter. Pandas' type inference is also out: for example, an integer team column renders as "1", a float one as "1.0", and a NaN label as "nan". The model takes the label text as given.
- `last_updated` is not modelled, because it reads the file's modification time and formats a clock value.
- Floating point is not modelled. Scores are integers. `pd.to_numeric` can yield floats. `int(...)` truncates them for display (`app.py:131`, `app.py:136`). At `app.py:145` the truncated totals are also what the ranking sorts (`app.py:146`), so with fractional scores truncation can reorder teams or create ties. `Rank` takes integer totals and does not capture this.
- Integer width is not modelled. Pandas holds integer scores as 64-bit values, and both the row sum (`app.py:61`) and `astype(int)` (`app.py:145`) use fixed-width arithmetic that can wrap around. The model's scores and totals are unbounded integers.
- `Rank`: says nothing about the order of equal totals, because pandas' default sort does not promise one.
- `Text.Lower`: lowers ASCII letters only. Python's `str.lower` is full Unicode, but no non-ASCII character lowers to the ASCII letters of ".csv", ".xlsx" or ".xls". So the dispatch decision is the same.
- `os.path.exists` becomes membership in a set of existing paths, taken at one moment. The platform's path separators are a `Platform` parameter.
- `Normalizer.MergeOntoTeams`: requires distinct labels. Its one caller has just removed duplicates, and pandas' merge would repeat a team's row otherwise.
- Pandas' categorical sort by team (`app.py:62-63`) is not a separate step, because the merged table is already in team order. The column filter at `app.py:41` is also not a separate step: `Coerce` reads only the five activity headers.
