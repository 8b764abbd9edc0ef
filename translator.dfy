/**
 * The cross-project translator without a cache: each row of a mapping sheet
 * names a table file and a position `Sheet!Ref`; the file is resolved in the
 * project directory, its workbook loaded (memoised by path) and the cell read.
 */
module Translator {
  import opened Wrappers
  import opened Text
  import opened Collections
  import opened Frames
  import opened CellReference

  // ---------------------------------------------------------------- file system

  /** What `os.path.exists` accepts, and the `(root, file)` pairs `os.walk` yields, in walk order. */
  datatype FileSystem = FileSystem(existing: set<string>, walk: seq<(string, string)>)

  /** The four spellings tried before walking the directory, in the order tried. */
  function Candidates(table: string): seq<string> {
    [table + ".xlsx", table + ".xls", table + ".XLSX", table + ".XLS"]
  }

  /** The walk rule: lower-cased, the file name starts with the table name and ends in `.xlsx` or `.xls`. */
  predicate WalkMatches(file: string, table: string) {
    var f := Lower(file);
    StartsWith(f, Lower(table)) && (EndsWith(f, ".xlsx") || EndsWith(f, ".xls"))
  }

  /** The first walked file at or after `k` that matches the walk rule, or -1. */
  function FirstWalkMatch(walk: seq<(string, string)>, table: string, k: nat): (r: int)
    requires k <= |walk|
    ensures r == -1 || k <= r < |walk|
    decreases |walk| - k
  {
    if k == |walk| then -1
    else if WalkMatches(walk[k].1, table) then k
    else FirstWalkMatch(walk, table, k + 1)
  }

  /** `FirstWalkMatch` is -1 exactly when no walked file at or after `k` matches. */
  lemma {:induction false} FirstWalkMatchNone(walk: seq<(string, string)>, table: string, k: nat)
    requires k <= |walk|
    ensures FirstWalkMatch(walk, table, k) == -1 <==> forall j :: k <= j < |walk| ==> !WalkMatches(walk[j].1, table)
    decreases |walk| - k
  {
    if k < |walk| && !WalkMatches(walk[k].1, table) {
      FirstWalkMatchNone(walk, table, k + 1);
    }
  }

  /** A found position matches and no walked file between `k` and it does. */
  lemma {:induction false} FirstWalkMatchFound(walk: seq<(string, string)>, table: string, k: nat)
    requires k <= |walk|
    ensures var r := FirstWalkMatch(walk, table, k);
      r >= 0 ==> WalkMatches(walk[r].1, table) && forall j :: k <= j < r ==> !WalkMatches(walk[j].1, table)
    decreases |walk| - k
  {
    if k < |walk| && !WalkMatches(walk[k].1, table) {
      FirstWalkMatchFound(walk, table, k + 1);
    }
  }

  /** `FirstWalkMatch` finds the first matching walked file at or after `k`, and -1 only when there is none. */
  lemma FirstWalkMatchSpec(walk: seq<(string, string)>, table: string, k: nat)
    requires k <= |walk|
    ensures var r := FirstWalkMatch(walk, table, k);
      && (r == -1 <==> forall j :: k <= j < |walk| ==> !WalkMatches(walk[j].1, table))
      && (r >= 0 ==> WalkMatches(walk[r].1, table) && forall j :: k <= j < r ==> !WalkMatches(walk[j].1, table))
  {
    FirstWalkMatchNone(walk, table, k);
    FirstWalkMatchFound(walk, table, k);
  }

  /**
   * `find_project_file` from the `k`-th candidate spelling on: the first
   * candidate whose joined path exists, otherwise the first walked file that
   * matches the walk rule, otherwise `None`.
   */
  function SearchFrom(fs: FileSystem, dir: string, table: string, k: nat): Option<string>
    requires k <= 4
    decreases 4 - k
  {
    if k < 4 then
      var p := Join(dir, Candidates(table)[k]);
      if p in fs.existing then Some(p) else SearchFrom(fs, dir, table, k + 1)
    else
      var j := FirstWalkMatch(fs.walk, table, 0);
      if j >= 0 then Some(Join(fs.walk[j].0, fs.walk[j].1)) else None
  }

  /** `find_project_file`: the search from the first candidate spelling. */
  function SearchProjectFile(fs: FileSystem, dir: string, table: string): Option<string> {
    SearchFrom(fs, dir, table, 0)
  }

  /** An existing candidate preceded (from `k`) only by missing ones is the one found. */
  lemma {:induction false} SearchFromCandidate(fs: FileSystem, dir: string, table: string, k: nat, i: nat)
    requires k <= i < 4 && Join(dir, Candidates(table)[i]) in fs.existing
    requires forall c :: k <= c < i ==> Join(dir, Candidates(table)[c]) !in fs.existing
    ensures SearchFrom(fs, dir, table, k) == Some(Join(dir, Candidates(table)[i]))
    decreases i - k
  {
    if k < i {
      SearchFromCandidate(fs, dir, table, k + 1, i);
    }
  }

  /** When no candidate from `k` on exists, the search is the walk. */
  lemma {:induction false} SearchFromWalk(fs: FileSystem, dir: string, table: string, k: nat)
    requires k <= 4
    requires forall c :: k <= c < 4 ==> Join(dir, Candidates(table)[c]) !in fs.existing
    ensures SearchFrom(fs, dir, table, k) == SearchFrom(fs, dir, table, 4)
    decreases 4 - k
  {
    if k < 4 {
      SearchFromWalk(fs, dir, table, k + 1);
    }
  }

  /** A candidate spelling that exists wins over every later spelling and over the walk. */
  lemma SearchCandidateWins(fs: FileSystem, dir: string, table: string, i: nat)
    requires i < 4 && Join(dir, Candidates(table)[i]) in fs.existing
    requires forall c :: 0 <= c < i ==> Join(dir, Candidates(table)[c]) !in fs.existing
    ensures SearchProjectFile(fs, dir, table) == Some(Join(dir, Candidates(table)[i]))
  {
    SearchFromCandidate(fs, dir, table, 0, i);
  }

  /**
   * The walk is consulted only when no candidate spelling exists: then the first
   * matching walked file is found, and `None` exactly when no walked file matches.
   */
  lemma {:induction false} SearchWalkFallback(fs: FileSystem, dir: string, table: string)
    requires forall c :: 0 <= c < 4 ==> Join(dir, Candidates(table)[c]) !in fs.existing
    ensures forall j :: 0 <= j < |fs.walk| && WalkMatches(fs.walk[j].1, table)
                        && (forall k :: 0 <= k < j ==> !WalkMatches(fs.walk[k].1, table))
                        ==> SearchProjectFile(fs, dir, table) == Some(Join(fs.walk[j].0, fs.walk[j].1))
    ensures SearchProjectFile(fs, dir, table).None? <==> forall j :: 0 <= j < |fs.walk| ==> !WalkMatches(fs.walk[j].1, table)
  {
    SearchFromWalk(fs, dir, table, 0);
    FirstWalkMatchSpec(fs.walk, table, 0);
    var r := FirstWalkMatch(fs.walk, table, 0);
    assert SearchProjectFile(fs, dir, table) == if r >= 0 then Some(Join(fs.walk[r].0, fs.walk[r].1)) else None;
    forall j | 0 <= j < |fs.walk| && WalkMatches(fs.walk[j].1, table)
                && (forall k :: 0 <= k < j ==> !WalkMatches(fs.walk[k].1, table))
      ensures r == j
    {
      FirstMatchUnique(fs.walk, table, r, j);
    }
  }

  /** Two first matches of the walk rule are the same walked file. */
  lemma FirstMatchUnique(walk: seq<(string, string)>, table: string, r: int, j: nat)
    requires 0 <= j < |walk| && WalkMatches(walk[j].1, table)
    requires forall k :: 0 <= k < j ==> !WalkMatches(walk[k].1, table)
    requires r == -1 || 0 <= r < |walk|
    requires r == -1 <==> forall k :: 0 <= k < |walk| ==> !WalkMatches(walk[k].1, table)
    requires r >= 0 ==> r < |walk| && WalkMatches(walk[r].1, table) && forall k :: 0 <= k < r ==> !WalkMatches(walk[k].1, table)
    ensures r == j
  {
    assert r >= 0;
    assert !(r < j);
    assert !(j < r);
  }

  /** Some candidate from `k` on exists, so the search finds something. */
  lemma {:induction false} SearchFromSome(fs: FileSystem, dir: string, table: string, k: nat, i: nat)
    requires k <= i < 4 && Join(dir, Candidates(table)[i]) in fs.existing
    ensures SearchFrom(fs, dir, table, k).Some?
    decreases i - k
  {
    if k < i && Join(dir, Candidates(table)[k]) !in fs.existing {
      SearchFromSome(fs, dir, table, k + 1, i);
    }
  }

  /** `find_project_file` returns `None` exactly when no candidate exists and no walked file matches. */
  lemma SearchNone(fs: FileSystem, dir: string, table: string)
    ensures SearchProjectFile(fs, dir, table).None? <==>
              (forall c :: 0 <= c < 4 ==> Join(dir, Candidates(table)[c]) !in fs.existing)
              && (forall j :: 0 <= j < |fs.walk| ==> !WalkMatches(fs.walk[j].1, table))
  {
    if forall c :: 0 <= c < 4 ==> Join(dir, Candidates(table)[c]) !in fs.existing {
      SearchWalkFallback(fs, dir, table);
    } else {
      var i :| 0 <= i < 4 && Join(dir, Candidates(table)[i]) in fs.existing;
      SearchFromSome(fs, dir, table, 0, i);
    }
  }

  /** The path a mapping row resolves to: the joined name if it exists, else the search. */
  function Resolve(fs: FileSystem, dir: string, fileName: string): Option<string> {
    if Join(dir, fileName) in fs.existing then Some(Join(dir, fileName))
    else SearchProjectFile(fs, dir, fileName)
  }

  /**
   * A mapping row naming an absolute path is looked up at that path itself,
   * whatever the project directory: `os.path.join` discards the directory.
   */
  lemma ResolveAbsolute(fs: FileSystem, dir: string, fileName: string)
    requires fileName != [] && fileName[0] == '/'
    ensures fileName in fs.existing ==> Resolve(fs, dir, fileName) == Some(fileName)
    ensures fileName !in fs.existing ==> Resolve(fs, dir, fileName) == SearchProjectFile(fs, dir, fileName)
  {
  }

  // ---------------------------------------------------------------- cell lookup

  /** NaN reads as the empty string. */
  function CellText(c: Option<string>): string {
    c.GetOr("")
  }

  /**
   * `find_content_by_reference`: `None` when the sheet is absent, the reference
   * does not parse, or `row - 1` / `col - 1` is outside the frame; otherwise the
   * cell's text, `""` for NaN.
   */
  function FindContent(wb: Workbook, sheet: string, cellRef: string): Option<string> {
    match SheetOf(wb, sheet)
    case None => None
    case Some(df) =>
      match ParseCellReference(cellRef)
      case None => None
      case Some((row, col)) =>
        var i, j := row - 1, col - 1;
        if i < 0 || i >= |df.rows| || j < 0 || j >= |df.columns| then None
        else Some(CellText(CellAt(df, i, j)))
  }

  /** The lookup fails exactly on an absent sheet, an unparsable reference or a position outside the frame. */
  lemma FindContentFails(wb: Workbook, sheet: string, cellRef: string)
    ensures var r := FindContent(wb, sheet, cellRef);
      && (SheetOf(wb, sheet).None? ==> r.None?)
      && (ParseCellReference(cellRef).None? ==> r.None?)
      && (SheetOf(wb, sheet).Some? && ParseCellReference(cellRef).Some? ==>
            var df, (row, col) := SheetOf(wb, sheet).value, ParseCellReference(cellRef).value;
            (r.Some? <==> 1 <= row <= |df.rows| && 1 <= col <= |df.columns|))
  {
  }

  /** A reference that parses to an in-frame position reads exactly that cell. */
  lemma FindContentParsed(wb: Workbook, sheet: string, cellRef: string, i: nat, j: nat)
    requires SheetOf(wb, sheet).Some? && ParseCellReference(cellRef) == Some((i + 1, j + 1))
    requires i < |SheetOf(wb, sheet).value.rows| && j < |SheetOf(wb, sheet).value.columns|
    ensures FindContent(wb, sheet, cellRef) == Some(CellText(CellAt(SheetOf(wb, sheet).value, i, j)))
  {
  }

  /** The reference of frame position `(i, j)` as the lookup reads it reaches exactly that cell. */
  lemma FindContentAt(wb: Workbook, sheet: string, i: nat, j: nat)
    requires SheetOf(wb, sheet).Some?
    requires i < |SheetOf(wb, sheet).value.rows| && j < |SheetOf(wb, sheet).value.columns|
    ensures FindContent(wb, sheet, FormatCellReference(i + 1, j + 1))
         == Some(CellText(CellAt(SheetOf(wb, sheet).value, i, j)))
  {
    ParseFormat(i + 1, j + 1);
    FindContentParsed(wb, sheet, FormatCellReference(i + 1, j + 1), i, j);
  }

  /**
   * The lookup counts data rows from 1, while the Vietnamese scanner counts the
   * header as the sheet's first row: the reference the scanner reports for
   * frame position `(i, j)` reads the cell one row further down.
   */
  lemma ScannerReferenceReadsNextRow(wb: Workbook, sheet: string, i: nat, j: nat)
    requires SheetOf(wb, sheet).Some?
    requires i < |SheetOf(wb, sheet).value.rows| && j < |SheetOf(wb, sheet).value.columns|
    ensures var df := SheetOf(wb, sheet).value;
      FindContent(wb, sheet, FormatCellReference(i + 2, j + 1))
      == if i + 1 < |df.rows| then Some(CellText(CellAt(df, i + 1, j))) else None
  {
    var df := SheetOf(wb, sheet).value;
    ParseFormat(i + 2, j + 1);
    if i + 1 < |df.rows| {
      FindContentParsed(wb, sheet, FormatCellReference(i + 2, j + 1), i + 1, j);
    }
  }

  /**
   * A sheet with header `H` over the data rows `x` and `y`: the sheet's cell
   * `A2` holds `x`, but the lookup of a reference to row 2, column 1 (`A2`)
   * returns `y`.
   */
  lemma HeaderOffsetExample(cellRef: string)
    requires ParseCellReference(cellRef) == Some((2, 1))
    ensures FindContent(Workbook([("S", Frame(["H"], [[Some("x")], [Some("y")]]))]), "S", cellRef) == Some("y")
  {
    var df := Frame(["H"], [[Some("x")], [Some("y")]]);
    var wb := Workbook([("S", df)]);
    assert SheetOf(wb, "S") == Some(df);
    FindContentParsed(wb, "S", cellRef, 1, 0);
    assert CellText(CellAt(df, 1, 0)) == "y";
  }

  // ---------------------------------------------------------------- position split

  /**
   * The `Sheet!Ref` rule: split at the first `'!'` and strip both parts; without
   * a `'!'` the whole position is the reference on the first sheet (`""` when
   * the workbook has no sheets).
   */
  function SplitPosition(position: string, wb: Workbook): (r: (string, string))
    ensures '!' !in position ==> r == (FirstSheetName(wb), position)
    ensures '!' in position ==> '!' !in r.0
  {
    var i := IndexOfChar(position, '!');
    if i >= 0 then
      StripInside(position[..i]);
      (Strip(position[..i]), Strip(position[i + 1..]))
    else (FirstSheetName(wb), position)
  }

  /** `S!R` with no `'!'` in `S` splits into the stripped `S` and the stripped `R`, whatever `R` holds. */
  lemma SplitAtFirstBang(s: string, r: string, wb: Workbook)
    requires '!' !in s
    ensures SplitPosition(s + "!" + r, wb) == (Strip(s), Strip(r))
  {
    var p := s + "!" + r;
    assert p[..|s|] == s && p[|s| + 1..] == r;
    assert p[|s|] == '!';
    var i := IndexOfChar(p, '!');
    assert SplitPosition(p, wb) == (Strip(p[..i]), Strip(p[i + 1..]));
  }

  // ---------------------------------------------------------------- mapping rows

  const FileNameColumns: seq<string> := ["文件名列", "文件名", "Name"]
  const PositionColumns: seq<string> := ["位置列", "位置", "Description"]

  /** The file-name and position columns, each the first present of its candidates. */
  function MappingColumns(columns: seq<string>): (r: Option<(string, string)>)
    ensures r.Some? <==> FirstPresent(columns, FileNameColumns).Some? && FirstPresent(columns, PositionColumns).Some?
    ensures r.Some? ==> r.value.0 in FileNameColumns && r.value.0 in columns
                        && r.value.1 in PositionColumns && r.value.1 in columns
  {
    var f := FirstPresent(columns, FileNameColumns);
    var p := FirstPresent(columns, PositionColumns);
    if f.Some? && p.Some? then Some((f.value, p.value)) else None
  }

  /** `str(row[col]).strip() if pd.notna(row[col]) else ""`. */
  function Field(row: seq<Option<string>>, j: int): string {
    if 0 <= j && j < |row| && row[j].Some? then Strip(row[j].value) else ""
  }

  /** The stripped texts of column `j`, one per mapping row. */
  function FieldColumn(rows: seq<seq<Option<string>>>, j: int): (fs: seq<string>)
    ensures |fs| == |rows| && forall i :: 0 <= i < |rows| ==> fs[i] == Field(rows[i], j)
  {
    seq(|rows|, i requires 0 <= i < |rows| => Field(rows[i], j))
  }

  /** For each mapping row, whether both its file name and its position are non-empty. */
  function Completeness(names: seq<string>, positions: seq<string>): (flags: seq<bool>)
    requires |names| == |positions|
    ensures |flags| == |names| && forall i :: 0 <= i < |names| ==> (flags[i] <==> names[i] != "" && positions[i] != "")
  {
    seq(|names|, i requires 0 <= i < |names| => names[i] != "" && positions[i] != "")
  }

  /** What one record says about a resolved, loaded and looked-up row. */
  datatype Lookup =
    | FileNotFound
    | Looked(sheetName: string, cellRef: string, content: Option<string>, projectFile: string)

  /** One result row: `index` is the mapping row's position + 1. */
  datatype MappingRecord = MappingRecord(index: nat, fileName: string, cellReference: string, lookup: Lookup)

  /** A record's `status`: the source's `'success'` and `'error'`. */
  datatype Status = Success | Error

  /** `'success'` exactly when content was found. */
  function StatusOf(r: MappingRecord): Status {
    if r.lookup.Looked? && r.lookup.content.Some? then Success else Error
  }

  /** A path that loads: it exists and the workbook reader accepts it. */
  predicate Loadable(path: string, fs: FileSystem, disk: map<string, Workbook>) {
    path in fs.existing && path in disk
  }

  /** The workbook a lookup used: the memoised one, or the empty dict of a failed load. */
  function Loaded(memo: map<string, Workbook>, path: string): Workbook {
    if path in memo then memo[path] else EmptyWorkbook()
  }

  /** A record agrees with the file system, the disk and the memo it was computed against. */
  predicate RecordAgrees(r: MappingRecord, memo: map<string, Workbook>, dir: string, fs: FileSystem, disk: map<string, Workbook>) {
    match r.lookup
    case FileNotFound => Resolve(fs, dir, r.fileName).None?
    case Looked(sheet, ref, content, path) =>
      && Resolve(fs, dir, r.fileName) == Some(path)
      && (path !in memo ==> !Loadable(path, fs, disk))
      && (sheet, ref) == SplitPosition(r.cellReference, Loaded(memo, path))
      && content == FindContent(Loaded(memo, path), sheet, ref)
  }

  /** `m2` keeps every entry of `m1` and adds only paths that load. */
  predicate Extends(m1: map<string, Workbook>, m2: map<string, Workbook>, fs: FileSystem, disk: map<string, Workbook>) {
    && (forall p :: p in m1 ==> p in m2 && m2[p] == m1[p])
    && (forall p :: p in m2 && p !in m1 ==> Loadable(p, fs, disk))
  }

  /** Memoising further loadable paths does not disturb what earlier records used. */
  lemma RecordAgreesGrow(r: MappingRecord, m1: map<string, Workbook>, m2: map<string, Workbook>,
                         dir: string, fs: FileSystem, disk: map<string, Workbook>)
    requires RecordAgrees(r, m1, dir, fs, disk)
    requires Extends(m1, m2, fs, disk)
    ensures RecordAgrees(r, m2, dir, fs, disk)
  {
    if r.lookup.Looked? {
      var path := r.lookup.projectFile;
      if path in m1 {
        assert Loaded(m2, path) == Loaded(m1, path);
      } else {
        assert path !in m2;
        assert Loaded(m2, path) == Loaded(m1, path);
      }
    }
  }

  /** Record `r` is numbered `index` and carries the row's file name and position. */
  predicate RowRecord(name: string, position: string, index: nat, r: MappingRecord) {
    r.index == index && r.fileName == name && r.cellReference == position
  }

  /**
   * The records of the first `n` mapping rows, given their stripped file names
   * and positions: one per row where both are non-empty, in row order.
   */
  ghost predicate RecordsFor(names: seq<string>, positions: seq<string>, n: nat, results: seq<MappingRecord>)
    requires n <= |names| == |positions|
  {
    if n == 0 then results == []
    else if names[n - 1] != "" && positions[n - 1] != "" then
      && results != []
      && RecordsFor(names, positions, n - 1, results[..|results| - 1])
      && RowRecord(names[n - 1], positions[n - 1], n, results[|results| - 1])
    else RecordsFor(names, positions, n - 1, results)
  }

  /** Record `k` of `results` belongs to row `rows[k]` (numbered from 1). */
  ghost predicate RowsMatch(names: seq<string>, positions: seq<string>, rows: seq<nat>, results: seq<MappingRecord>)
    requires |names| == |positions|
  {
    && |results| == |rows|
    && forall k :: 0 <= k < |results| ==>
         rows[k] < |names| && RowRecord(names[rows[k]], positions[rows[k]], rows[k] + 1, results[k])
  }

  /** One more row and its record keep the correspondence. */
  lemma RowsMatchSnoc(names: seq<string>, positions: seq<string>, rows: seq<nat>, results: seq<MappingRecord>,
                      i: nat, r: MappingRecord)
    requires |names| == |positions| && i < |names|
    requires RowsMatch(names, positions, rows, results) && RowRecord(names[i], positions[i], i + 1, r)
    ensures RowsMatch(names, positions, rows + [i], results + [r])
  {
    assert forall k :: 0 <= k < |results| ==> (results + [r])[k] == results[k] && (rows + [i])[k] == rows[k];
  }

  /** Read position by position: record `k` belongs to the `k`-th complete row. */
  lemma {:induction false} RecordsForRows(names: seq<string>, positions: seq<string>, n: nat, results: seq<MappingRecord>)
    requires n <= |names| == |positions|
    requires RecordsFor(names, positions, n, results)
    ensures RowsMatch(names, positions, Selected(Completeness(names, positions), n), results)
  {
    if n > 0 {
      var flags := Completeness(names, positions);
      if flags[n - 1] {
        var prev := results[..|results| - 1];
        RecordsForRows(names, positions, n - 1, prev);
        assert results == prev + [results[|results| - 1]];
        RowsMatchSnoc(names, positions, Selected(flags, n - 1), prev, n - 1, results[|results| - 1]);
      } else {
        RecordsForRows(names, positions, n - 1, results);
      }
    }
  }

  /** Every record agrees with `memo`. */
  ghost predicate AllAgree(results: seq<MappingRecord>, memo: map<string, Workbook>, dir: string, fs: FileSystem,
                           disk: map<string, Workbook>) {
    forall k :: 0 <= k < |results| ==> RecordAgrees(results[k], memo, dir, fs, disk)
  }

  /** A record that agrees may join records that agree. */
  lemma AllAgreeAppend(results: seq<MappingRecord>, r: MappingRecord, memo: map<string, Workbook>,
                       dir: string, fs: FileSystem, disk: map<string, Workbook>)
    requires AllAgree(results, memo, dir, fs, disk) && RecordAgrees(r, memo, dir, fs, disk)
    ensures AllAgree(results + [r], memo, dir, fs, disk)
  {
    assert forall k :: 0 <= k < |results| ==> (results + [r])[k] == results[k];
  }

  /** The records already made survive the memo's growth. */
  lemma AllAgreeGrow(results: seq<MappingRecord>, m1: map<string, Workbook>, m2: map<string, Workbook>,
                     dir: string, fs: FileSystem, disk: map<string, Workbook>)
    requires AllAgree(results, m1, dir, fs, disk)
    requires Extends(m1, m2, fs, disk)
    ensures AllAgree(results, m2, dir, fs, disk)
  {
    forall k | 0 <= k < |results|
      ensures RecordAgrees(results[k], m2, dir, fs, disk)
    {
      RecordAgreesGrow(results[k], m1, m2, dir, fs, disk);
    }
  }

  /** The memo after `load_project_file(path)`: a loadable path not yet memoised is added. */
  function Memoise(memo: map<string, Workbook>, path: string, fs: FileSystem, disk: map<string, Workbook>)
    : map<string, Workbook>
  {
    if path !in memo && Loadable(path, fs, disk) then memo[path := disk[path]] else memo
  }

  /** Memoising keeps every entry, adds only a loadable path, and holds `path` exactly when it loads or was held. */
  lemma MemoiseExtends(memo: map<string, Workbook>, path: string, fs: FileSystem, disk: map<string, Workbook>)
    ensures var m := Memoise(memo, path, fs, disk);
            && Extends(memo, m, fs, disk)
            && (path in m <==> path in memo || Loadable(path, fs, disk))
  {
  }

  /** The path each mapping row's file name resolves to. */
  function Resolutions(fs: FileSystem, dir: string, names: seq<string>): (rs: seq<Option<string>>)
    ensures |rs| == |names| && forall i :: 0 <= i < |names| ==> rs[i] == Resolve(fs, dir, names[i])
  {
    seq(|names|, i requires 0 <= i < |names| => Resolve(fs, dir, names[i]))
  }

  /**
   * What the row loop does with one complete row whose file name resolved to
   * `resolved`: the record's lookup and the memo afterwards.
   */
  function RowLookup(resolved: Option<string>, position: string, memo: map<string, Workbook>, fs: FileSystem,
                     disk: map<string, Workbook>): (Lookup, map<string, Workbook>)
  {
    match resolved
    case None => (FileNotFound, memo)
    case Some(path) =>
      var m := Memoise(memo, path, fs, disk);
      var wb := Loaded(m, path);
      var (sheet, ref) := SplitPosition(position, wb);
      (Looked(sheet, ref, FindContent(wb, sheet, ref), path), m)
  }

  /** The row loop over the first `n` rows, given their stripped file names, positions and resolved paths. */
  function TranslateRows(names: seq<string>, positions: seq<string>, resolved: seq<Option<string>>, n: nat,
                         memo: map<string, Workbook>, fs: FileSystem, disk: map<string, Workbook>)
    : (seq<MappingRecord>, map<string, Workbook>)
    requires n <= |names| == |positions| == |resolved|
  {
    if n == 0 then ([], memo)
    else
      var (rs, m) := TranslateRows(names, positions, resolved, n - 1, memo, fs, disk);
      if names[n - 1] != "" && positions[n - 1] != "" then
        var (l, m') := RowLookup(resolved[n - 1], positions[n - 1], m, fs, disk);
        (rs + [MappingRecord(n, names[n - 1], positions[n - 1], l)], m')
      else (rs, m)
  }

  /** `m3` extends `m1` through `m2`. */
  lemma ExtendsTrans(m1: map<string, Workbook>, m2: map<string, Workbook>, m3: map<string, Workbook>,
                     fs: FileSystem, disk: map<string, Workbook>)
    requires Extends(m1, m2, fs, disk) && Extends(m2, m3, fs, disk)
    ensures Extends(m1, m3, fs, disk)
  {
  }

  /** One row's lookup agrees with the memo it leaves behind. */
  lemma RowLookupAgrees(name: string, position: string, index: nat, memo: map<string, Workbook>,
                        dir: string, fs: FileSystem, disk: map<string, Workbook>)
    ensures var (l, m) := RowLookup(Resolve(fs, dir, name), position, memo, fs, disk);
            RecordAgrees(MappingRecord(index, name, position, l), m, dir, fs, disk)
  {
    var resolved := Resolve(fs, dir, name);
    if resolved.Some? {
      MemoiseExtends(memo, resolved.value, fs, disk);
    }
  }

  /** One row's lookup only adds a loadable path to the memo. */
  lemma RowLookupExtends(resolved: Option<string>, position: string, memo: map<string, Workbook>, fs: FileSystem,
                         disk: map<string, Workbook>)
    ensures Extends(memo, RowLookup(resolved, position, memo, fs, disk).1, fs, disk)
  {
    if resolved.Some? {
      MemoiseExtends(memo, resolved.value, fs, disk);
    }
  }

  /** One complete row keeps the records agreeing with the memo. */
  lemma AgreeStep(rs: seq<MappingRecord>, name: string, position: string, index: nat, m: map<string, Workbook>,
                  dir: string, fs: FileSystem, disk: map<string, Workbook>)
    requires AllAgree(rs, m, dir, fs, disk)
    ensures var (l, m') := RowLookup(Resolve(fs, dir, name), position, m, fs, disk);
            AllAgree(rs + [MappingRecord(index, name, position, l)], m', dir, fs, disk)
  {
    var (l, m') := RowLookup(Resolve(fs, dir, name), position, m, fs, disk);
    RowLookupAgrees(name, position, index, m, dir, fs, disk);
    RowLookupExtends(Resolve(fs, dir, name), position, m, fs, disk);
    AllAgreeGrow(rs, m, m', dir, fs, disk);
    AllAgreeAppend(rs, MappingRecord(index, name, position, l), m', dir, fs, disk);
  }

  /** The row loop yields one record per complete row, in row order. */
  lemma {:induction false} TranslateRowsShape(names: seq<string>, positions: seq<string>, resolved: seq<Option<string>>,
                                              n: nat, memo: map<string, Workbook>, fs: FileSystem,
                                              disk: map<string, Workbook>)
    requires n <= |names| == |positions| == |resolved|
    ensures RecordsFor(names, positions, n, TranslateRows(names, positions, resolved, n, memo, fs, disk).0)
  {
    if n > 0 {
      TranslateRowsShape(names, positions, resolved, n - 1, memo, fs, disk);
      var (rs, m) := TranslateRows(names, positions, resolved, n - 1, memo, fs, disk);
      if names[n - 1] != "" && positions[n - 1] != "" {
        var r := MappingRecord(n, names[n - 1], positions[n - 1], RowLookup(resolved[n - 1], positions[n - 1], m, fs, disk).0);
        assert (rs + [r])[..|rs|] == rs;
      }
    }
  }

  /** The row loop only adds loadable paths to the memo. */
  lemma {:induction false} TranslateRowsExtends(names: seq<string>, positions: seq<string>, resolved: seq<Option<string>>,
                                                n: nat, memo: map<string, Workbook>, fs: FileSystem,
                                                disk: map<string, Workbook>)
    requires n <= |names| == |positions| == |resolved|
    ensures Extends(memo, TranslateRows(names, positions, resolved, n, memo, fs, disk).1, fs, disk)
  {
    if n > 0 {
      TranslateRowsExtends(names, positions, resolved, n - 1, memo, fs, disk);
      var m := TranslateRows(names, positions, resolved, n - 1, memo, fs, disk).1;
      if names[n - 1] != "" && positions[n - 1] != "" {
        RowLookupExtends(resolved[n - 1], positions[n - 1], m, fs, disk);
        ExtendsTrans(memo, m, RowLookup(resolved[n - 1], positions[n - 1], m, fs, disk).1, fs, disk);
      }
    }
  }

  /** Every record of the row loop agrees with the final memo. */
  lemma {:induction false} TranslateRowsAgree(names: seq<string>, positions: seq<string>,
                                              resolved: seq<Option<string>>, n: nat,
                                              memo: map<string, Workbook>, dir: string, fs: FileSystem,
                                              disk: map<string, Workbook>)
    requires n <= |names| == |positions| == |resolved|
    requires forall i :: 0 <= i < |names| ==> resolved[i] == Resolve(fs, dir, names[i])
    ensures AllAgree(TranslateRows(names, positions, resolved, n, memo, fs, disk).0,
                     TranslateRows(names, positions, resolved, n, memo, fs, disk).1, dir, fs, disk)
  {
    if n > 0 {
      TranslateRowsAgree(names, positions, resolved, n - 1, memo, dir, fs, disk);
      var t := TranslateRows(names, positions, resolved, n - 1, memo, fs, disk);
      if names[n - 1] != "" && positions[n - 1] != "" {
        assert resolved[n - 1] == Resolve(fs, dir, names[n - 1]);
        AgreeStep(t.0, names[n - 1], positions[n - 1], n, t.1, dir, fs, disk);
      } else {
        assert TranslateRows(names, positions, resolved, n, memo, fs, disk) == t;
      }
    }
  }

  // ---------------------------------------------------------------- statistics

  function CountSuccess(rs: seq<MappingRecord>): (n: nat)
    ensures n <= |rs|
  {
    if rs == [] then 0 else CountSuccess(rs[..|rs| - 1]) + (if StatusOf(rs[|rs| - 1]) == Success then 1 else 0)
  }

  function CountStatus(rs: seq<MappingRecord>, st: Status): (n: nat)
    ensures n == 0 <==> forall k :: 0 <= k < |rs| ==> StatusOf(rs[k]) != st
  {
    if rs == [] then 0
    else
      var n := CountStatus(rs[..|rs| - 1], st) + (if StatusOf(rs[|rs| - 1]) == st then 1 else 0);
      assert forall k :: 0 <= k < |rs| - 1 ==> rs[..|rs| - 1][k] == rs[k];
      n
  }

  function CountFile(rs: seq<MappingRecord>, name: string): (n: nat)
    ensures n == 0 <==> forall k :: 0 <= k < |rs| ==> rs[k].fileName != name
  {
    if rs == [] then 0
    else
      var n := CountFile(rs[..|rs| - 1], name) + (if rs[|rs| - 1].fileName == name then 1 else 0);
      assert forall k :: 0 <= k < |rs| - 1 ==> rs[..|rs| - 1][k] == rs[k];
      n
  }

  function CountFileSuccess(rs: seq<MappingRecord>, name: string): (n: nat)
    ensures n <= CountFile(rs, name)
  {
    if rs == [] then 0
    else CountFileSuccess(rs[..|rs| - 1], name)
         + (if rs[|rs| - 1].fileName == name && StatusOf(rs[|rs| - 1]) == Success then 1 else 0)
  }

  function Statuses(rs: seq<MappingRecord>): (ss: seq<Status>)
    ensures |ss| == |rs| && forall k :: 0 <= k < |rs| ==> ss[k] == StatusOf(rs[k])
  {
    seq(|rs|, k requires 0 <= k < |rs| => StatusOf(rs[k]))
  }

  function FileNames(rs: seq<MappingRecord>): (ns: seq<string>)
    ensures |ns| == |rs| && forall k :: 0 <= k < |rs| ==> ns[k] == rs[k].fileName
  {
    seq(|rs|, k requires 0 <= k < |rs| => rs[k].fileName)
  }

  datatype FileCounts = FileCounts(total: nat, success: nat, error: nat)

  /** The counts `_create_statistics` reports; rendering into rows and percentages is not modelled. */
  datatype Statistics = Statistics(total: nat, success: nat, error: nat,
                                   byStatus: Dict<Status, nat>, byFile: Dict<string, FileCounts>)

  /** The line of file `name`: its records, its successes and the rest. */
  function FileCountsOf(rs: seq<MappingRecord>, name: string): FileCounts {
    FileCounts(CountFile(rs, name), CountFileSuccess(rs, name), CountFile(rs, name) - CountFileSuccess(rs, name))
  }

  /** Every line of `d` is the line of its file name in `rs`. */
  ghost predicate FileTallies(rs: seq<MappingRecord>, d: Dict<string, FileCounts>) {
    forall i :: 0 <= i < |d| ==> d[i].1 == FileCountsOf(rs, d[i].0)
  }

  /** What the statistics of a non-empty result list state. */
  ghost predicate StatisticsOf(rs: seq<MappingRecord>, s: Statistics) {
    && s.total == |rs| && s.success == CountSuccess(rs) && s.error == s.total - s.success
    && StatusTallyOf(rs, s.byStatus)
    && Keys(s.byFile) == Take(Dedup(FileNames(rs)), 10)
    && FileTallies(rs, s.byFile)
  }

  /** Every file line balances: its total is its successes plus its errors. */
  lemma FileLinesBalance(rs: seq<MappingRecord>, s: Statistics)
    requires StatisticsOf(rs, s)
    ensures |s.byFile| <= 10
    ensures forall i :: 0 <= i < |s.byFile| ==> s.byFile[i].1.total == s.byFile[i].1.success + s.byFile[i].1.error
  {
    assert |Keys(s.byFile)| == |s.byFile|;
    forall i | 0 <= i < |s.byFile|
      ensures s.byFile[i].1.total == s.byFile[i].1.success + s.byFile[i].1.error
    {
      assert s.byFile[i].1 == FileCountsOf(rs, s.byFile[i].0);
    }
  }

  // ---------------------------------------------------------------- the translator

  /** `CrossProjectTranslator`: the path-keyed workbook memo and the last run's results. */
  class ProjectTranslator {
    var projectFiles: map<string, Workbook>
    var translationResults: seq<MappingRecord>

    constructor()
      ensures projectFiles == map[] && translationResults == []
    {
      projectFiles := map[];
      translationResults := [];
    }

    /**
     * `load_project_file`: a memoised path returns its workbook without looking
     * at the file system again; otherwise a loadable path is read and memoised,
     * and anything else gives the empty workbook and memoises nothing.
     */
    method LoadProjectFile(path: string, fs: FileSystem, disk: map<string, Workbook>) returns (wb: Workbook)
      modifies this
      ensures translationResults == old(translationResults)
      ensures path in old(projectFiles) ==> wb == old(projectFiles)[path] && projectFiles == old(projectFiles)
      ensures path !in old(projectFiles) && Loadable(path, fs, disk) ==>
                wb == disk[path] && projectFiles == old(projectFiles)[path := wb]
      ensures path !in old(projectFiles) && !Loadable(path, fs, disk) ==>
                wb == EmptyWorkbook() && projectFiles == old(projectFiles)
    {
      if path in projectFiles {
        return projectFiles[path];
      }
      if path !in fs.existing {
        return EmptyWorkbook();
      }
      if path !in disk {
        return EmptyWorkbook();
      }
      wb := disk[path];
      projectFiles := projectFiles[path := wb];
    }

    /**
     * The body of the row loop for a complete row: resolve the file, load it
     * through the memo, split the position and look the cell up.
     */
    method TranslateRow(index: nat, fileName: string, position: string, dir: string, fs: FileSystem,
                        disk: map<string, Workbook>) returns (record: MappingRecord)
      modifies this
      ensures translationResults == old(translationResults)
      ensures var (l, m) := RowLookup(Resolve(fs, dir, fileName), position, old(projectFiles), fs, disk);
              record == MappingRecord(index, fileName, position, l) && projectFiles == m
    {
      var path := Join(dir, fileName);
      var resolved := if path in fs.existing then Some(path) else SearchProjectFile(fs, dir, fileName);
      if resolved.None? {
        return MappingRecord(index, fileName, position, FileNotFound);
      }
      var wb := LoadProjectFile(resolved.value, fs, disk);
      var (sheet, ref) := SplitPosition(position, wb);
      var content := FindContent(wb, sheet, ref);
      record := MappingRecord(index, fileName, position, Looked(sheet, ref, content, resolved.value));
    }

    /**
     * `process_translation_mapping`: without a readable mapping frame or its two
     * columns the result is `[]` and nothing changes; otherwise one record per
     * complete row, in row order, which also becomes `translationResults`.
     */
    method ProcessTranslationMapping(mapping: Option<Frame<string>>, dir: string, fs: FileSystem,
                                     disk: map<string, Workbook>) returns (results: seq<MappingRecord>)
      modifies this
      ensures Extends(old(projectFiles), projectFiles, fs, disk)
      ensures mapping.None? || MappingColumns(mapping.value.columns).None? ==>
                results == [] && projectFiles == old(projectFiles) && translationResults == old(translationResults)
      ensures mapping.Some? && MappingColumns(mapping.value.columns).Some? ==>
                var df, cols := mapping.value, MappingColumns(mapping.value.columns).value;
                var names := FieldColumn(df.rows, ColumnIndex(df.columns, cols.0));
                var positions := FieldColumn(df.rows, ColumnIndex(df.columns, cols.1));
                && translationResults == results
                && (results, projectFiles)
                   == TranslateRows(names, positions, Resolutions(fs, dir, names), |df.rows|, old(projectFiles), fs, disk)
                && RecordsFor(names, positions, |df.rows|, results)
                && AllAgree(results, projectFiles, dir, fs, disk)
    {
      if mapping.None? {
        return [];
      }
      var df := mapping.value;
      var cols := MappingColumns(df.columns);
      if cols.None? {
        return [];
      }
      var fj := ColumnIndex(df.columns, cols.value.0);
      var pj := ColumnIndex(df.columns, cols.value.1);
      ghost var m0 := projectFiles;
      var names, positions := FieldColumn(df.rows, fj), FieldColumn(df.rows, pj);
      results := TranslateAll(names, positions, dir, fs, disk);
      TranslateRowsShape(names, positions, Resolutions(fs, dir, names), |df.rows|, m0, fs, disk);
      TranslateRowsAgree(names, positions, Resolutions(fs, dir, names), |df.rows|, m0, dir, fs, disk);
      TranslateRowsExtends(names, positions, Resolutions(fs, dir, names), |df.rows|, m0, fs, disk);
      translationResults := results;
    }

    /** One row of the row loop: a complete row's record joins the results, any other row is skipped. */
    method StepRow(names: seq<string>, positions: seq<string>, ghost resolved: seq<Option<string>>,
                   i: nat, ghost memo: map<string, Workbook>, results: seq<MappingRecord>,
                   dir: string, fs: FileSystem, disk: map<string, Workbook>) returns (next: seq<MappingRecord>)
      requires i < |names| == |positions| == |resolved| && resolved[i] == Resolve(fs, dir, names[i])
      requires (results, projectFiles) == TranslateRows(names, positions, resolved, i, memo, fs, disk)
      modifies this
      ensures translationResults == old(translationResults)
      ensures (next, projectFiles) == TranslateRows(names, positions, resolved, i + 1, memo, fs, disk)
    {
      if names[i] != "" && positions[i] != "" {
        var record := TranslateRow(i + 1, names[i], positions[i], dir, fs, disk);
        next := results + [record];
      } else {
        next := results;
      }
    }

    /**
     * The row loop of `process_translation_mapping`, given each row's stripped
     * file name and position (`""` for NaN or a missing column).
     */
    method TranslateAll(names: seq<string>, positions: seq<string>, dir: string, fs: FileSystem,
                        disk: map<string, Workbook>) returns (results: seq<MappingRecord>)
      requires |names| == |positions|
      modifies this
      ensures translationResults == old(translationResults)
      ensures (results, projectFiles)
              == TranslateRows(names, positions, Resolutions(fs, dir, names), |names|, old(projectFiles), fs, disk)
    {
      ghost var resolved := Resolutions(fs, dir, names);
      results := [];
      var i := 0;
      while i < |names|
        invariant 0 <= i <= |names|
        invariant translationResults == old(translationResults)
        invariant (results, projectFiles) == TranslateRows(names, positions, resolved, i, old(projectFiles), fs, disk)
      {
        results := StepRow(names, positions, resolved, i, old(projectFiles), results, dir, fs, disk);
        i := i + 1;
      }
    }

    /**
     * `_create_statistics`: `None` (the source's `[]`) for no results; otherwise
     * the totals, the per-status tally in first-seen order and the tallies of the
     * first ten file names in first-seen order.
     */
    method CreateStatistics() returns (stats: Option<Statistics>)
      ensures stats.None? <==> translationResults == []
      ensures stats.Some? ==> StatisticsOf(translationResults, stats.value)
    {
      var rs := translationResults;
      if rs == [] {
        return None;
      }
      var success := 0;
      var i := 0;
      while i < |rs|
        invariant 0 <= i <= |rs|
        invariant success == CountSuccess(rs[..i])
      {
        assert rs[..i + 1][..i] == rs[..i];
        if StatusOf(rs[i]) == Success {
          success := success + 1;
        }
        i := i + 1;
      }
      assert rs[..|rs|] == rs;
      var byStatus := StatusTally(rs);
      var byFile := FileTally(rs);
      stats := Some(Statistics(|rs|, success, |rs| - success, byStatus, Take(byFile, 10)));
      TakeKeys(byFile, 10);
    }
  }

  /** `d` holds the count of status `st` among `rs`, or no entry when there is none. */
  ghost predicate TallyAt(rs: seq<MappingRecord>, d: Dict<Status, nat>, st: Status) {
    Get(d, st) == if CountStatus(rs, st) == 0 then None else Some(CountStatus(rs, st))
  }

  /** `d` is the `status_stats` dict of `rs`. */
  ghost predicate StatusTallyOf(rs: seq<MappingRecord>, d: Dict<Status, nat>) {
    && Keys(d) == Dedup(Statuses(rs))
    && TallyAt(rs, d, Success) && TallyAt(rs, d, Error)
    && Total(d) == |rs|
  }

  /** The `status_stats` loop: one bump per record. */
  method StatusTally(rs: seq<MappingRecord>) returns (d: Dict<Status, nat>)
    ensures StatusTallyOf(rs, d)
  {
    d := [];
    var i := 0;
    while i < |rs|
      invariant 0 <= i <= |rs|
      invariant StatusTallyOf(rs[..i], d)
    {
      PrefixSnoc(rs, i);
      StatusTallyStep(rs[..i], rs[i], d);
      d := Bump(d, StatusOf(rs[i]));
      i := i + 1;
    }
    assert rs[..|rs|] == rs;
  }

  /** One bump keeps the dict equal to the tally of the records seen so far. */
  lemma StatusTallyStep(pre: seq<MappingRecord>, r: MappingRecord, d: Dict<Status, nat>)
    requires StatusTallyOf(pre, d)
    ensures StatusTallyOf(pre + [r], Bump(d, StatusOf(r)))
  {
    StatusKeysStep(pre, r, d);
    BumpTotal(d, StatusOf(r));
    TallyStatusStep(pre, r, d, Success);
    TallyStatusStep(pre, r, d, Error);
  }

  /** A bump adds a status key exactly when the status is seen for the first time. */
  lemma StatusKeysStep(pre: seq<MappingRecord>, r: MappingRecord, d: Dict<Status, nat>)
    requires Keys(d) == Dedup(Statuses(pre))
    ensures Keys(Bump(d, StatusOf(r))) == Dedup(Statuses(pre + [r]))
  {
    var st := StatusOf(r);
    assert Statuses(pre + [r]) == Statuses(pre) + [st];
    DedupSnoc(Statuses(pre), st);
    BumpKeys(d, st);
  }

  lemma TallyStatusStep(pre: seq<MappingRecord>, r: MappingRecord, d0: Dict<Status, nat>, s: Status)
    requires TallyAt(pre, d0, s)
    ensures TallyAt(pre + [r], Bump(d0, StatusOf(r)), s)
  {
    CountStatusSnoc(pre, r, s);
    BumpGet(d0, StatusOf(r), s);
  }

  /** Appending a record raises the count of its status by one and leaves the other unchanged. */
  lemma CountStatusSnoc(pre: seq<MappingRecord>, r: MappingRecord, s: Status)
    ensures CountStatus(pre + [r], s) == CountStatus(pre, s) + (if StatusOf(r) == s then 1 else 0)
  {
    assert (pre + [r])[..|pre|] == pre;
  }

  /** The `file_stats` loop: a zero entry on first sight of a name, then one tally per record. */
  method FileTally(rs: seq<MappingRecord>) returns (d: Dict<string, FileCounts>)
    ensures FileTallyOf(rs, d)
  {
    d := [];
    var i := 0;
    while i < |rs|
      invariant 0 <= i <= |rs|
      invariant FileTallyOf(rs[..i], d)
    {
      PrefixSnoc(rs, i);
      FileTallyStep(rs[..i], rs[i], d);
      var c := Get(d, rs[i].fileName).GetOr(FileCounts(0, 0, 0));
      d := Put(d, rs[i].fileName, Tallied(c, rs[i]));
      i := i + 1;
    }
    assert rs[..|rs|] == rs;
  }

  /** One record counted into its file's line. */
  function Tallied(c: FileCounts, r: MappingRecord): FileCounts {
    if StatusOf(r) == Success then FileCounts(c.total + 1, c.success + 1, c.error)
    else FileCounts(c.total + 1, c.success, c.error + 1)
  }

  /** `d` is the `file_stats` dict of `rs`. */
  ghost predicate FileTallyOf(rs: seq<MappingRecord>, d: Dict<string, FileCounts>) {
    Keys(d) == Dedup(FileNames(rs)) && FileTallies(rs, d)
  }

  /** One step of the file tally keeps every line equal to the counts of the records seen so far. */
  lemma FileTallyStep(pre: seq<MappingRecord>, r: MappingRecord, d: Dict<string, FileCounts>)
    requires FileTallyOf(pre, d)
    ensures FileTallyOf(pre + [r], Put(d, r.fileName, Tallied(Get(d, r.fileName).GetOr(FileCounts(0, 0, 0)), r)))
  {
    var c := Get(d, r.fileName).GetOr(FileCounts(0, 0, 0));
    FileKeysStep(pre, r, d, Tallied(c, r));
    CurrentLine(pre, d, r.fileName);
    FileLinesStep(pre, r, d, c);
  }

  /** Storing a file's line adds its name exactly when the name is seen for the first time. */
  lemma FileKeysStep(pre: seq<MappingRecord>, r: MappingRecord, d: Dict<string, FileCounts>, v: FileCounts)
    requires Keys(d) == Dedup(FileNames(pre))
    ensures Keys(Put(d, r.fileName, v)) == Dedup(FileNames(pre + [r]))
  {
    assert FileNames(pre + [r]) == FileNames(pre) + [r.fileName];
    DedupSnoc(FileNames(pre), r.fileName);
    PutKeys(d, r.fileName, v);
  }

  /** The line `Get` finds for a name (zero when absent) is that name's counts so far. */
  lemma CurrentLine(pre: seq<MappingRecord>, d: Dict<string, FileCounts>, k: string)
    requires FileTallyOf(pre, d)
    ensures Get(d, k).GetOr(FileCounts(0, 0, 0)) == FileCountsOf(pre, k)
  {
    var ks := Keys(d);
    if k in ks {
      var j :| 0 <= j < |ks| && ks[j] == k;
      assert d[j].0 == k;
      DistinctGet(d, j);
      assert d[j].1 == FileCountsOf(pre, d[j].0);
    } else {
      assert k !in FileNames(pre);
      forall m | 0 <= m < |pre| ensures pre[m].fileName != k {
        assert FileNames(pre)[m] == pre[m].fileName;
      }
      assert CountFile(pre, k) == 0;
    }
  }

  lemma FileLinesStep(pre: seq<MappingRecord>, r: MappingRecord, d: Dict<string, FileCounts>, c: FileCounts)
    requires Distinct(Keys(d)) && FileTallies(pre, d) && c == FileCountsOf(pre, r.fileName)
    ensures FileTallies(pre + [r], Put(d, r.fileName, Tallied(c, r)))
  {
    var k := r.fileName;
    var d' := Put(d, k, Tallied(c, r));
    PutPositions(d, k, Tallied(c, r));
    forall i | 0 <= i < |d'|
      ensures d'[i].1 == FileCountsOf(pre + [r], d'[i].0)
    {
      var n := d'[i].0;
      CountsSnoc(pre, r, n);
      if i < |d| && d[i].0 != k {
        assert d'[i] == d[i] && n != k;
      } else {
        assert d'[i] == (k, Tallied(c, r));
      }
    }
  }

  /** Appending one record changes only its own file's line, by one tally. */
  lemma CountsSnoc(pre: seq<MappingRecord>, r: MappingRecord, n: string)
    ensures FileCountsOf(pre + [r], n) == if n == r.fileName then Tallied(FileCountsOf(pre, n), r) else FileCountsOf(pre, n)
  {
    var next := pre + [r];
    assert next[..|pre|] == pre;
  }
}
