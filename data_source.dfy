/**
 * Choosing and reading the score sheet: which local file is used, which
 * reader its extension selects, and how failures surface. File existence
 * is a given set of existing paths; the reader is a given function from a
 * reader kind and a path to the raw rows or the cause of a failure.
 */
module DataSource {

  import opened Wrappers
  import opened Scores
  import opened Text
  import opened Normalizer

  /** The conventional file names, in priority order: CSV before spreadsheet. */
  const CANDIDATE_PATHS: seq<string> := ["puntajes.csv", "puntajes.xlsx"]

  /** Path conventions: POSIX separates with '/', Windows with '\' or '/'. */
  datatype Platform = Posix | Windows

  function Seps(platform: Platform): set<char>
  {
    if platform == Windows then {'/', '\\'} else {'/'}
  }

  /** The two readers a sheet can be handed to. */
  datatype Reader = CsvReader | ExcelReader

  /** Why no table could be shown. */
  datatype LoadError = FileNotFound | UnsupportedFormat | ReadFailed(cause: string)

  /** Index of the last character of `p` in `cs`, or -1 when there is none. */
  function LastIn(p: string, cs: set<char>): (i: int)
    ensures -1 <= i < |p|
    ensures i >= 0 ==> p[i] in cs
    ensures forall k :: i < k < |p| ==> p[k] !in cs
  {
    if p == [] then -1
    else if p[|p| - 1] in cs then |p| - 1
    else LastIn(p[..|p| - 1], cs)
  }

  /**
   * Python's `os.path.splitext`: the extension is the text from the last
   * dot of the last path component, unless everything before that dot in
   * the component is dots too (a leading-dot name has no extension).
   */
  function SplitExt(p: string, platform: Platform): (parts: (string, string))
    ensures parts.0 + parts.1 == p
    ensures parts.1 == [] || ExtensionShaped(parts.1, platform)
    ensures parts.1 != [] ==> NamedStem(parts.0, platform)
  {
    var sep := LastIn(p, Seps(platform));
    var dot := LastIn(p, {'.'});
    if dot > sep && exists k :: sep < k < dot && p[k] != '.' then
      StemBeforeDot(p, platform, sep, dot);
      (p[..dot], p[dot..])
    else (p, [])
  }

  /** A non-dot character after the last separator and before `dot` names the stem `p[..dot]`. */
  lemma StemBeforeDot(p: string, platform: Platform, sep: int, dot: int)
    requires -1 <= sep < dot < |p|
    requires forall m :: sep < m < |p| ==> p[m] !in Seps(platform)
    requires exists k :: sep < k < dot && p[k] != '.'
    ensures NamedStem(p[..dot], platform)
  {
    var k :| sep < k < dot && p[k] != '.';
    var stem := p[..dot];
    assert stem[k] == p[k];
    assert forall m :: k < m < |stem| ==> stem[m] == p[m];
  }

  /** The reader selected by the lower-cased extension, or UnsupportedFormat. */
  function Dispatch(path: string, platform: Platform): (r: Result<Reader, LoadError>)
    ensures r.Err? ==> r.error == UnsupportedFormat
  {
    var ext := Lower(SplitExt(path, platform).1);
    if ext == ".csv" then Ok(CsvReader)
    else if ext == ".xlsx" || ext == ".xls" then Ok(ExcelReader)
    else Err(UnsupportedFormat)
  }

  /** The last component of `stem` has a character other than a dot. */
  predicate NamedStem(stem: string, platform: Platform)
  {
    exists k :: 0 <= k < |stem| && stem[k] != '.' && stem[k] !in Seps(platform)
      && forall m :: k < m < |stem| ==> stem[m] !in Seps(platform)
  }

  /** A dot followed by characters that are neither dots nor separators. */
  predicate ExtensionShaped(e: string, platform: Platform)
  {
    |e| >= 1 && e[0] == '.' && forall k :: 1 <= k < |e| ==> e[k] != '.' && e[k] !in Seps(platform)
  }

  /** Appending an extension to a named stem makes it the path's extension. */
  lemma SplitExtOfSuffix(stem: string, e: string, platform: Platform)
    requires NamedStem(stem, platform) && ExtensionShaped(e, platform)
    ensures SplitExt(stem + e, platform) == (stem, e)
  {
    var p := stem + e;
    var cs := Seps(platform);
    assert p[|stem|] == '.';
    forall k | |stem| < k < |p| ensures p[k] !in {'.'} {
      assert p[k] == e[k - |stem|];
    }
    var dot := LastIn(p, {'.'});
    assert dot == |stem|;
    var w :| 0 <= w < |stem| && stem[w] != '.' && stem[w] !in cs
      && forall m :: w < m < |stem| ==> stem[m] !in cs;
    forall k | w <= k < |p| ensures p[k] !in cs {
      if k >= |stem| { assert p[k] == e[k - |stem|]; } else { assert p[k] == stem[k]; }
    }
    var sep := LastIn(p, cs);
    assert sep < w && p[w] != '.';
    assert p[..dot] == stem && p[dot..] == e;
  }

  /**
   * Dispatch goes by the final extension alone, compared case-insensitively:
   * ".csv" selects the CSV reader, ".xlsx" and ".xls" the spreadsheet
   * reader, anything else is UnsupportedFormat.
   */
  lemma DispatchByExtension(stem: string, e: string, platform: Platform)
    requires NamedStem(stem, platform) && ExtensionShaped(e, platform)
    ensures Lower(e) == ".csv" ==> Dispatch(stem + e, platform) == Ok(CsvReader)
    ensures Lower(e) == ".xlsx" || Lower(e) == ".xls" ==> Dispatch(stem + e, platform) == Ok(ExcelReader)
    ensures Lower(e) !in {".csv", ".xlsx", ".xls"} ==> Dispatch(stem + e, platform) == Err(UnsupportedFormat)
  {
    SplitExtOfSuffix(stem, e, platform);
  }

  /** The case of the extension does not matter. */
  lemma UpperCaseCsvAccepted()
    ensures Dispatch("puntajes.CSV", Posix) == Ok(CsvReader)
  {
    assert NamedStem("puntajes", Posix) by { assert "puntajes"[7] == 's'; }
    assert "puntajes" + ".CSV" == "puntajes.CSV";
    assert Lower(".CSV") == ".csv";
    DispatchByExtension("puntajes", ".CSV", Posix);
  }

  /** A Windows path with backslashes and a mixed-case spreadsheet extension. */
  lemma WindowsSpreadsheetAccepted()
    ensures Dispatch("C:\\datos\\puntajes.Xlsx", Windows) == Ok(ExcelReader)
  {
    var stem := "C:\\datos\\puntajes";
    assert NamedStem(stem, Windows) by { assert stem[|stem| - 1] == 's'; }
    assert stem + ".Xlsx" == "C:\\datos\\puntajes.Xlsx";
    assert Lower(".Xlsx") == ".xlsx";
    DispatchByExtension(stem, ".Xlsx", Windows);
  }

  /** Only the final extension counts: a CSV file renamed with a further suffix is rejected. */
  lemma FinalExtensionOnly()
    ensures Dispatch("puntajes.csv.bak", Posix) == Err(UnsupportedFormat)
  {
    assert NamedStem("puntajes.csv", Posix) by { assert "puntajes.csv"[11] == 'v'; }
    assert "puntajes.csv" + ".bak" == "puntajes.csv.bak";
    assert Lower(".bak") == ".bak";
    DispatchByExtension("puntajes.csv", ".bak", Posix);
  }

  /**
   * A path that is not a named stem followed by an extension has no
   * extension at all, and is rejected.
   */
  lemma NoExtensionRejected(p: string, platform: Platform)
    requires !exists stem, e :: p == stem + e && NamedStem(stem, platform) && ExtensionShaped(e, platform)
    ensures SplitExt(p, platform).1 == []
    ensures Dispatch(p, platform) == Err(UnsupportedFormat)
  {
    var parts := SplitExt(p, platform);
    assert !(p == parts.0 + parts.1 && NamedStem(parts.0, platform) && ExtensionShaped(parts.1, platform));
    assert Lower(parts.1) == [];
  }

  /** A dot file such as ".csv" has no extension: its leading dot belongs to its name. */
  lemma DotFileRejected()
    ensures Dispatch(".csv", Posix) == Err(UnsupportedFormat)
  {
    var p := ".csv";
    forall stem, e | p == stem + e && ExtensionShaped(e, Posix) ensures stem == [] {
      assert e[0] == p[|stem|];
    }
    NoExtensionRejected(p, Posix);
  }

  /** A file name without any dot is rejected. */
  lemma BareNameRejected()
    ensures Dispatch("puntajes", Posix) == Err(UnsupportedFormat)
  {
    var p := "puntajes";
    forall stem, e | p == stem + e ensures !ExtensionShaped(e, Posix) {
      if |e| > 0 {
        assert e[0] == p[|stem|];
      }
    }
    NoExtensionRejected(p, Posix);
  }

  /**
   * The first existing candidate in priority order, or None when neither
   * exists: CSV wins when both files exist, and the spreadsheet is used only
   * when the CSV is missing.
   */
  method FindDataPath(existing: set<string>) returns (r: Option<string>)
    ensures r.None? <==> forall i :: 0 <= i < |CANDIDATE_PATHS| ==> CANDIDATE_PATHS[i] !in existing
    ensures r.Some? ==>
              exists i :: && 0 <= i < |CANDIDATE_PATHS| && r.value == CANDIDATE_PATHS[i] && r.value in existing
                          && forall j :: 0 <= j < i ==> CANDIDATE_PATHS[j] !in existing
    ensures "puntajes.csv" in existing ==> r == Some("puntajes.csv")
    ensures "puntajes.csv" !in existing && "puntajes.xlsx" in existing ==> r == Some("puntajes.xlsx")
  {
    assert CANDIDATE_PATHS[0] != CANDIDATE_PATHS[1] by {
      assert |CANDIDATE_PATHS[0]| != |CANDIDATE_PATHS[1]|;
    }
    for i := 0 to |CANDIDATE_PATHS|
      invariant forall j :: 0 <= j < i ==> CANDIDATE_PATHS[j] !in existing
    {
      if CANDIDATE_PATHS[i] in existing {
        return Some(CANDIDATE_PATHS[i]);
      }
    }
    return None;
  }

  /**
   * The path the dashboard reads: a non-empty custom path as given, else
   * the first existing candidate; FileNotFound when there is none or it
   * does not exist.
   */
  method ResolveDataPath(custom: string, existing: set<string>) returns (r: Result<string, LoadError>)
    ensures custom != "" ==> r == if custom in existing then Ok(custom) else Err(FileNotFound)
    ensures custom == "" ==> (r.Ok? <==> exists i :: 0 <= i < |CANDIDATE_PATHS| && CANDIDATE_PATHS[i] in existing)
    ensures custom == "" && r.Ok? ==> r.value == (if CANDIDATE_PATHS[0] in existing then CANDIDATE_PATHS[0] else CANDIDATE_PATHS[1])
    ensures r.Err? ==> r.error == FileNotFound
  {
    var path: Option<string>;
    if custom != "" {
      path := Some(custom);
    } else {
      path := FindDataPath(existing);
    }
    if path.None? || path.value == "" || path.value !in existing {
      return Err(FileNotFound);
    }
    return Ok(path.value);
  }

  /**
   * `load_data`: dispatch on the extension, read with the selected reader,
   * normalise. An unsupported extension never reaches a reader; a reader
   * failure is passed on with its cause.
   */
  method LoadData(path: string, platform: Platform, read: (Reader, string) -> Result<seq<RawRow>, string>)
    returns (r: Result<seq<ScoreRow>, LoadError>)
    ensures Dispatch(path, platform).Err? ==> r == Err(UnsupportedFormat)
    ensures Dispatch(path, platform).Ok? ==>
      var raw := read(Dispatch(path, platform).value, path);
      r == if raw.Err? then Err(ReadFailed(raw.error)) else Ok(Normalize(raw.value))
    ensures r.Ok? ==> IsCanonical(r.value)
  {
    var reader := Dispatch(path, platform);
    if reader.Err? {
      return Err(UnsupportedFormat);
    }
    var raw := read(reader.value, path);
    if raw.Err? {
      return Err(ReadFailed(raw.error));
    }
    var table := EnsureColumns(raw.value);
    return Ok(table);
  }

  /**
   * Resolve the path, then load it: FileNotFound exactly when no path
   * resolves; otherwise the resolved path (the custom one, else the first
   * existing candidate) is dispatched, read and normalised as `LoadData` does.
   */
  method LoadDashboard(custom: string, existing: set<string>, platform: Platform,
                       read: (Reader, string) -> Result<seq<RawRow>, string>)
    returns (r: Result<seq<ScoreRow>, LoadError>)
    ensures r == Err(FileNotFound) <==> (if custom != "" then custom !in existing
                                          else forall i :: 0 <= i < |CANDIDATE_PATHS| ==> CANDIDATE_PATHS[i] !in existing)
    ensures r != Err(FileNotFound) ==>
      var p := if custom != "" then custom
               else if CANDIDATE_PATHS[0] in existing then CANDIDATE_PATHS[0] else CANDIDATE_PATHS[1];
      && p in existing
      && (Dispatch(p, platform).Err? ==> r == Err(UnsupportedFormat))
      && (Dispatch(p, platform).Ok? ==>
            var raw := read(Dispatch(p, platform).value, p);
            r == if raw.Err? then Err(ReadFailed(raw.error)) else Ok(Normalize(raw.value)))
    ensures r.Ok? ==> IsCanonical(r.value)
  {
    var path := ResolveDataPath(custom, existing);
    if path.Err? {
      return Err(FileNotFound);
    }
    assert path.value in existing && path.value == if custom != "" then custom
      else if CANDIDATE_PATHS[0] in existing then CANDIDATE_PATHS[0] else CANDIDATE_PATHS[1];
    r := LoadData(path.value, platform, read);
  }
}
