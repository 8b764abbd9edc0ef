/**
 * The Vietnamese Excel processor: the cell-by-cell scan of workbook sheets and
 * CSV tables, the dispatch of one file on its suffix, the directory scan, and
 * the statistics `process_directory` reports. The processor holds a detector
 * (`self.vietnamese_detector`); the scan is stated for any detector and any
 * list of CSV encodings, and `ProcessDirectory` runs it with
 * `Localization.ContainsVietnamese` and the four encodings of `scan_csv_file`.
 * Reading files is given: a workbook is the list of its sheets as pandas reads
 * them, a CSV file is the reader's outcome per encoding, a directory is the
 * list of the entries `rglob('*')` walks.
 */
module VietnameseExcel {
  import opened Wrappers
  import opened Text
  import opened Collections
  import opened Frames
  import opened CellReference
  import opened Localization

  /** The detector's `contains_vietnamese`. */
  type Detector = string -> bool

  // ---------------------------------------------------------------- one frame

  /**
   * One reported cell, the dictionary the scanners append. Its `position`
   * entry is always computed from its row and column, so it is a member here
   * rather than a stored field.
   */
  datatype Location = Location(
    excelFile: string,
    sheetName: string,
    row: int,
    col: int,
    columnName: string,
    content: string,
    filePath: string)
  {
    /** `_get_excel_cell_reference(row, col)`. */
    function Position(): string { FormatCellReference(row, col) }
  }

  /**
   * The location reported for data row `i`, column `j` holding `v`: the row is
   * shifted by two (zero-based index, header row), the column by one.
   */
  function LocationAt(path: string, sheet: string, df: Frame<string>, i: nat, j: nat, v: string): Location
    requires j < |df.columns|
  {
    Location(BaseName(path), sheet, i + 2, j + 1, df.columns[j], v, path)
  }

  /** Cell `(i, j)` is reported: it is not NaN and the detector fires on its text. */
  predicate IsHit(detect: Detector, df: Frame<string>, i: nat, j: nat)
    requires i < |df.rows|
  {
    CellAt(df, i, j).Some? && detect(CellAt(df, i, j).value)
  }

  /** What cell `(i, j)` adds to the results. */
  function CellHits(detect: Detector, path: string, sheet: string, df: Frame<string>, i: nat, j: nat): seq<Location>
    requires i < |df.rows| && j < |df.columns|
  {
    if IsHit(detect, df, i, j) then [LocationAt(path, sheet, df, i, j, CellAt(df, i, j).value)] else []
  }

  /** The hits among the first `n` cells of data row `i`, left to right. */
  function RowHits(detect: Detector, path: string, sheet: string, df: Frame<string>, i: nat, n: nat): seq<Location>
    requires i < |df.rows| && n <= |df.columns|
  {
    if n == 0 then [] else RowHits(detect, path, sheet, df, i, n - 1) + CellHits(detect, path, sheet, df, i, n - 1)
  }

  /** The hits among the first `m` data rows, row by row. */
  function FrameHits(detect: Detector, path: string, sheet: string, df: Frame<string>, m: nat): seq<Location>
    requires m <= |df.rows|
  {
    if m == 0 then []
    else FrameHits(detect, path, sheet, df, m - 1) + RowHits(detect, path, sheet, df, m - 1, |df.columns|)
  }

  /** The inner `enumerate(row)` loop over the cells of data row `i`. */
  method ScanRow(detect: Detector, path: string, sheet: string, df: Frame<string>, i: nat) returns (hits: seq<Location>)
    requires i < |df.rows|
    ensures hits == RowHits(detect, path, sheet, df, i, |df.columns|)
  {
    hits := [];
    var j := 0;
    while j < |df.columns|
      invariant 0 <= j <= |df.columns|
      invariant hits == RowHits(detect, path, sheet, df, i, j)
    {
      var found := ScanCell(detect, path, sheet, df, i, j);
      hits := hits + found;
      j := j + 1;
    }
  }

  /** The body of the inner loop: cell `(i, j)` is reported when it holds text the detector fires on. */
  method ScanCell(detect: Detector, path: string, sheet: string, df: Frame<string>, i: nat, j: nat) returns (found: seq<Location>)
    requires i < |df.rows| && j < |df.columns|
    ensures found == CellHits(detect, path, sheet, df, i, j)
  {
    var cell := CellAt(df, i, j);
    if cell.Some? && detect(cell.value) {
      found := [LocationAt(path, sheet, df, i, j, cell.value)];
    } else {
      found := [];
    }
  }

  /**
   * The nested `iterrows` / `enumerate(row)` loop of `scan_excel_file` and
   * `scan_csv_file`. A pandas row holds one value per column.
   */
  method ScanFrame(detect: Detector, path: string, sheet: string, df: Frame<string>) returns (hits: seq<Location>)
    ensures hits == FrameHits(detect, path, sheet, df, |df.rows|)
  {
    hits := [];
    var i := 0;
    while i < |df.rows|
      invariant 0 <= i <= |df.rows|
      invariant hits == FrameHits(detect, path, sheet, df, i)
    {
      var rowHits := ScanRow(detect, path, sheet, df, i);
      hits := hits + rowHits;
      i := i + 1;
    }
  }

  /** `loc` is the location reported for cell `(i, j)`. */
  predicate ReportedAt(detect: Detector, path: string, sheet: string, df: Frame<string>, i: nat, j: nat, loc: Location) {
    i < |df.rows| && j < |df.columns| && IsHit(detect, df, i, j)
    && loc == LocationAt(path, sheet, df, i, j, CellAt(df, i, j).value)
  }

  /** The location a cell adds is the one reported for it. */
  lemma CellHitsSound(detect: Detector, path: string, sheet: string, df: Frame<string>, i: nat, j: nat, loc: Location)
    requires i < |df.rows| && j < |df.columns|
    requires loc in CellHits(detect, path, sheet, df, i, j)
    ensures ReportedAt(detect, path, sheet, df, i, j, loc)
  {
  }

  /** Each location of a row prefix is reported for one of its cells. */
  lemma {:induction false} RowHitsSound(detect: Detector, path: string, sheet: string, df: Frame<string>, i: nat, n: nat, loc: Location)
    requires i < |df.rows| && n <= |df.columns|
    requires loc in RowHits(detect, path, sheet, df, i, n)
    ensures exists j: nat :: j < n && ReportedAt(detect, path, sheet, df, i, j, loc)
  {
    var init := RowHits(detect, path, sheet, df, i, n - 1);
    var cell := CellHits(detect, path, sheet, df, i, n - 1);
    if loc in init {
      RowHitsSound(detect, path, sheet, df, i, n - 1, loc);
      var j: nat :| j < n - 1 && ReportedAt(detect, path, sheet, df, i, j, loc);
      assert j < n;
    } else {
      assert RowHits(detect, path, sheet, df, i, n) == init + cell;
      CellHitsSound(detect, path, sheet, df, i, n - 1, loc);
    }
  }

  /** Each reported cell of a row prefix is among its locations. */
  lemma {:induction false} RowHitsComplete(detect: Detector, path: string, sheet: string, df: Frame<string>, i: nat, n: nat, j: nat, loc: Location)
    requires i < |df.rows| && n <= |df.columns|
    requires j < n && ReportedAt(detect, path, sheet, df, i, j, loc)
    ensures loc in RowHits(detect, path, sheet, df, i, n)
  {
    var init := RowHits(detect, path, sheet, df, i, n - 1);
    var cell := CellHits(detect, path, sheet, df, i, n - 1);
    assert RowHits(detect, path, sheet, df, i, n) == init + cell;
    if j < n - 1 {
      RowHitsComplete(detect, path, sheet, df, i, n - 1, j, loc);
      assert loc in init;
    } else {
      assert cell == [loc];
    }
  }

  /** Each location of the first `m` rows is reported for one of their cells. */
  lemma {:induction false} FrameHitsSoundAt(detect: Detector, path: string, sheet: string, df: Frame<string>, m: nat, loc: Location)
    requires m <= |df.rows|
    requires loc in FrameHits(detect, path, sheet, df, m)
    ensures exists i: nat, j: nat :: i < m && ReportedAt(detect, path, sheet, df, i, j, loc)
  {
    var init := FrameHits(detect, path, sheet, df, m - 1);
    var last := RowHits(detect, path, sheet, df, m - 1, |df.columns|);
    if loc in init {
      FrameHitsSoundAt(detect, path, sheet, df, m - 1, loc);
      var i: nat, j: nat :| i < m - 1 && ReportedAt(detect, path, sheet, df, i, j, loc);
      assert i < m;
    } else {
      assert FrameHits(detect, path, sheet, df, m) == init + last;
      assert loc in last;
      RowHitsSound(detect, path, sheet, df, m - 1, |df.columns|, loc);
    }
  }

  /** Each reported cell of the first `m` rows is among their locations. */
  lemma {:induction false} FrameHitsCompleteAt(detect: Detector, path: string, sheet: string, df: Frame<string>, m: nat, i: nat, j: nat, loc: Location)
    requires m <= |df.rows|
    requires i < m && ReportedAt(detect, path, sheet, df, i, j, loc)
    ensures loc in FrameHits(detect, path, sheet, df, m)
  {
    if i < m - 1 {
      FrameHitsCompleteAt(detect, path, sheet, df, m - 1, i, j, loc);
    } else {
      RowHitsComplete(detect, path, sheet, df, i, |df.columns|, j, loc);
    }
  }

  /** A frame reports a location exactly for a cell the detector fires on, with that cell's coordinates. */
  lemma FrameHitsSpec(detect: Detector, path: string, sheet: string, df: Frame<string>, loc: Location)
    ensures loc in FrameHits(detect, path, sheet, df, |df.rows|) <==>
      exists i: nat, j: nat :: ReportedAt(detect, path, sheet, df, i, j, loc)
  {
    if loc in FrameHits(detect, path, sheet, df, |df.rows|) {
      FrameHitsSoundAt(detect, path, sheet, df, |df.rows|, loc);
    }
    if exists i: nat, j: nat :: ReportedAt(detect, path, sheet, df, i, j, loc) {
      var i: nat, j: nat :| ReportedAt(detect, path, sheet, df, i, j, loc);
      FrameHitsCompleteAt(detect, path, sheet, df, |df.rows|, i, j, loc);
    }
  }

  /**
   * What every reported location of a file satisfies: it names the file, sits at
   * row two or below and column one or right, and the detector fires on its
   * content.
   */
  predicate Sound(detect: Detector, path: string, loc: Location) {
    && loc.excelFile == BaseName(path)
    && loc.filePath == path
    && loc.row >= 2 && loc.col >= 1
    && detect(loc.content)
  }

  /** A sound location's position parses back to its row and column. */
  lemma SoundPositionParses(detect: Detector, path: string, loc: Location)
    requires Sound(detect, path, loc)
    ensures ParseCellReference(loc.Position()) == Some((loc.row, loc.col))
  {
    ParseFormat(loc.row, loc.col);
  }

  /** Every location of a frame is sound and carries the sheet name, its column's name and the cell's text. */
  lemma FrameHitsSound(detect: Detector, path: string, sheet: string, df: Frame<string>, loc: Location)
    requires loc in FrameHits(detect, path, sheet, df, |df.rows|)
    ensures Sound(detect, path, loc) && loc.sheetName == sheet
    ensures 0 <= loc.row - 2 < |df.rows| && 0 <= loc.col - 1 < |df.columns|
    ensures loc.columnName == df.columns[loc.col - 1]
    ensures CellAt(df, loc.row - 2, loc.col - 1) == Some(loc.content)
  {
    FrameHitsSoundAt(detect, path, sheet, df, |df.rows|, loc);
    var i: nat, j: nat :| i < |df.rows| && ReportedAt(detect, path, sheet, df, i, j, loc);
    ReportedIsSound(detect, path, sheet, df, i, j, loc);
  }

  /** The location reported for a cell is sound and points back at that cell. */
  lemma ReportedIsSound(detect: Detector, path: string, sheet: string, df: Frame<string>, i: nat, j: nat, loc: Location)
    requires ReportedAt(detect, path, sheet, df, i, j, loc)
    ensures Sound(detect, path, loc) && loc.sheetName == sheet
    ensures loc.row == i + 2 && loc.col == j + 1
    ensures loc.columnName == df.columns[j] && CellAt(df, i, j) == Some(loc.content)
  {
  }

  // ---------------------------------------------------------------- workbooks and CSV files

  /** One sheet as `pd.read_excel` returns it; `None` when reading that sheet raised. */
  datatype SheetRead = SheetRead(name: string, frame: Option<Frame<string>>)

  /** The hits of one sheet; a sheet that could not be read is skipped. */
  function SheetHits(detect: Detector, path: string, s: SheetRead): seq<Location> {
    match s.frame
    case None => []
    case Some(df) => FrameHits(detect, path, s.name, df, |df.rows|)
  }

  /** The hits of the sheets, in sheet order. */
  function BookHits(detect: Detector, path: string, sheets: seq<SheetRead>): seq<Location> {
    if sheets == [] then []
    else BookHits(detect, path, sheets[..|sheets| - 1]) + SheetHits(detect, path, sheets[|sheets| - 1])
  }

  /** `scan_excel_file`, given the sheets (`None` when `pd.ExcelFile` raised). */
  function ExcelHits(detect: Detector, path: string, book: Option<seq<SheetRead>>): seq<Location> {
    match book
    case None => []
    case Some(sheets) => BookHits(detect, path, sheets)
  }

  method ScanExcelFile(detect: Detector, path: string, book: Option<seq<SheetRead>>) returns (results: seq<Location>)
    ensures results == ExcelHits(detect, path, book)
  {
    results := [];
    if book.None? {
      return;
    }
    var sheets := book.value;
    var k := 0;
    while k < |sheets|
      invariant 0 <= k <= |sheets|
      invariant results == BookHits(detect, path, sheets[..k])
    {
      PrefixSnoc(sheets, k);
      var s := sheets[k];
      if s.frame.Some? {
        var hits := ScanFrame(detect, path, s.name, s.frame.value);
        results := results + hits;
      }
      k := k + 1;
    }
    assert sheets[..|sheets|] == sheets;
  }

  /** Every location of a workbook is sound and comes from one of its readable sheets. */
  lemma {:induction false} BookHitsSound(detect: Detector, path: string, sheets: seq<SheetRead>, loc: Location)
    requires loc in BookHits(detect, path, sheets)
    ensures Sound(detect, path, loc)
    ensures exists k :: 0 <= k < |sheets| && sheets[k].name == loc.sheetName && sheets[k].frame.Some?
  {
    var init := sheets[..|sheets| - 1];
    var last := sheets[|sheets| - 1];
    if loc in BookHits(detect, path, init) {
      BookHitsSound(detect, path, init, loc);
      var k :| 0 <= k < |init| && init[k].name == loc.sheetName && init[k].frame.Some?;
      assert sheets[k] == init[k];
    } else {
      FrameHitsSound(detect, path, last.name, last.frame.value, loc);
    }
  }

  /** What one attempt of `pd.read_csv` with an encoding does. */
  datatype CsvRead = Decoded(frame: Frame<string>) | DecodeError | ReadError

  /** The encodings `scan_csv_file` tries, in order. */
  const CsvEncodings: seq<string> := ["utf-8", "gbk", "gb2312", "utf-8-sig"]

  /** The sheet name every CSV location carries. */
  const CsvSheetName: string := "CSV数据"

  /** What the processor scans with: its detector and the encodings `scan_csv_file` tries, in order. */
  datatype Scanner = Scanner(detect: Detector, encodings: seq<string>)

  /** The processor `VietnameseExcelProcessor()` builds. */
  const Processor: Scanner := Scanner(ContainsVietnamese, CsvEncodings)

  /**
   * The frame the encoding loop scans: the first encoding that does not fail to
   * decode decides; a decoded frame is scanned, any other error ends the scan.
   */
  function CsvFrame(read: string -> CsvRead, encodings: seq<string>): Option<Frame<string>> {
    if encodings == [] then None
    else
      match read(encodings[0])
      case Decoded(df) => Some(df)
      case DecodeError => CsvFrame(read, encodings[1..])
      case ReadError => None
  }

  /** Every encoding before `k` failed to decode. */
  predicate DecodeFailedBefore(read: string -> CsvRead, encodings: seq<string>, k: nat)
    requires k <= |encodings|
  {
    forall l :: 0 <= l < k ==> read(encodings[l]) == DecodeError
  }

  /** The loop scans the frame of an encoding exactly when that encoding decodes and every earlier one failed to decode. */
  lemma {:induction false} CsvFrameSpec(read: string -> CsvRead, encodings: seq<string>, df: Frame<string>)
    ensures CsvFrame(read, encodings) == Some(df) <==>
      exists k: nat :: k < |encodings| && read(encodings[k]) == Decoded(df) && DecodeFailedBefore(read, encodings, k)
  {
    if encodings != [] {
      var rest := encodings[1..];
      CsvFrameSpec(read, rest, df);
      if CsvFrame(read, encodings) == Some(df) && read(encodings[0]) == DecodeError {
        var k: nat :| k < |rest| && read(rest[k]) == Decoded(df) && DecodeFailedBefore(read, rest, k);
        assert read(encodings[k + 1]) == Decoded(df);
        forall l | 0 <= l < k + 1
          ensures read(encodings[l]) == DecodeError
        {
          if l > 0 {
            assert encodings[l] == rest[l - 1];
          }
        }
        assert DecodeFailedBefore(read, encodings, k + 1);
      }
      if exists k: nat :: k < |encodings| && read(encodings[k]) == Decoded(df) && DecodeFailedBefore(read, encodings, k) {
        var k: nat :| k < |encodings| && read(encodings[k]) == Decoded(df) && DecodeFailedBefore(read, encodings, k);
        if k > 0 {
          assert read(encodings[0]) == DecodeError;
          assert read(rest[k - 1]) == Decoded(df);
          forall l | 0 <= l < k - 1
            ensures read(rest[l]) == DecodeError
          {
            assert rest[l] == encodings[l + 1];
          }
          assert DecodeFailedBefore(read, rest, k - 1);
        }
      }
    }
  }

  /** `scan_csv_file`, given the reader's outcome per encoding. */
  function CsvHits(sc: Scanner, path: string, read: string -> CsvRead): seq<Location> {
    match CsvFrame(read, sc.encodings)
    case None => []
    case Some(df) => FrameHits(sc.detect, path, CsvSheetName, df, |df.rows|)
  }

  method ScanCsvFile(sc: Scanner, path: string, read: string -> CsvRead) returns (results: seq<Location>)
    ensures results == CsvHits(sc, path, read)
  {
    results := [];
    var k := 0;
    while k < |sc.encodings|
      invariant 0 <= k <= |sc.encodings|
      invariant CsvFrame(read, sc.encodings[k..]) == CsvFrame(read, sc.encodings)
    {
      var encodings := sc.encodings[k..];
      assert encodings[0] == sc.encodings[k];
      match read(sc.encodings[k])
      case Decoded(df) =>
        results := ScanFrame(sc.detect, path, CsvSheetName, df);
        return;
      case DecodeError =>
        assert encodings[1..] == sc.encodings[k + 1..];
        k := k + 1;
      case ReadError =>
        return;
    }
  }

  // ---------------------------------------------------------------- one file

  /**
   * What the readers make of one file: its sheets for the workbook reader
   * (`None` when the workbook cannot be opened) and the CSV reader's outcome
   * per encoding.
   */
  datatype FileData = FileData(book: Option<seq<SheetRead>>, csv: string -> CsvRead)

  /** `scan_single_file`: nothing for an unsupported suffix, else the reader the suffix selects. */
  function FileHits(sc: Scanner, path: string, data: FileData): seq<Location> {
    if !IsTableFile(path) then []
    else if IsWorkbookFile(path) then ExcelHits(sc.detect, path, data.book)
    else if IsCsvFile(path) then CsvHits(sc, path, data.csv)
    else []
  }

  method ScanSingleFile(sc: Scanner, path: string, data: FileData) returns (results: seq<Location>)
    ensures results == FileHits(sc, path, data)
  {
    if !IsTableFile(path) {
      return [];
    }
    var suffix := Lower(Suffix(BaseName(path)));
    if IsWorkbookExtension(suffix) {
      results := ScanExcelFile(sc.detect, path, data.book);
    } else if IsCsvExtension(suffix) {
      results := ScanCsvFile(sc, path, data.csv);
    } else {
      results := [];
    }
  }

  /**
   * A file yields locations only when its suffix is supported; each is sound,
   * and a CSV file's carry the fixed sheet name.
   */
  lemma FileHitsSound(sc: Scanner, path: string, data: FileData, loc: Location)
    requires loc in FileHits(sc, path, data)
    ensures IsTableFile(path) && Sound(sc.detect, path, loc)
    ensures IsCsvFile(path) ==> loc.sheetName == CsvSheetName
  {
    TableFileKinds(path);
    if IsWorkbookFile(path) {
      BookHitsSound(sc.detect, path, data.book.value, loc);
    } else {
      var df := CsvFrame(data.csv, sc.encodings).value;
      FrameHitsSound(sc.detect, path, CsvSheetName, df, loc);
    }
  }

  // ---------------------------------------------------------------- directories

  /** One entry `rglob('*')` walks: its path, whether it is a regular file, whether it sits directly in the directory, and its contents. */
  datatype Entry = Entry(path: string, isFile: bool, topLevel: bool, data: FileData)

  /** What the directory path is. */
  datatype Directory = Missing | NotADirectory | Dir(entries: seq<Entry>)

  /** The collection loop's test: a supported regular file, at the top level unless the scan is recursive. */
  predicate Collected(e: Entry, recursive: bool) {
    e.isFile && (recursive || e.topLevel) && IsTableFile(e.path)
  }

  /** `supported_files`: the collected entries, in walk order. */
  function SupportedFiles(es: seq<Entry>, recursive: bool): seq<Entry> {
    if es == [] then []
    else
      var last := es[|es| - 1];
      SupportedFiles(es[..|es| - 1], recursive) + (if Collected(last, recursive) then [last] else [])
  }

  /** The locations of the files, file after file. */
  function AllHits(sc: Scanner, files: seq<Entry>): seq<Location> {
    if files == [] then []
    else
      var last := files[|files| - 1];
      AllHits(sc, files[..|files| - 1]) + FileHits(sc, last.path, last.data)
  }

  /** The files `scan_directory` scans: none for a missing path or a non-directory. */
  function ScannedFiles(d: Directory, recursive: bool): seq<Entry> {
    match d
    case Missing => []
    case NotADirectory => []
    case Dir(es) => SupportedFiles(es, recursive)
  }

  /** The collection loop of `scan_directory`. */
  method CollectSupported(es: seq<Entry>, recursive: bool) returns (files: seq<Entry>)
    ensures files == SupportedFiles(es, recursive)
  {
    files := [];
    var i := 0;
    while i < |es|
      invariant 0 <= i <= |es|
      invariant files == SupportedFiles(es[..i], recursive)
    {
      PrefixSnoc(es, i);
      var e := es[i];
      assert es[..i + 1][..i] == es[..i];
      if Collected(e, recursive) {
        files := files + [e];
      }
      i := i + 1;
    }
    assert es[..|es|] == es;
  }

  /** The scan loop of `scan_directory`: `all_results.extend(file_results)` per file. */
  method ScanFiles(sc: Scanner, files: seq<Entry>) returns (results: seq<Location>)
    ensures results == AllHits(sc, files)
  {
    results := [];
    var k := 0;
    while k < |files|
      invariant 0 <= k <= |files|
      invariant results == AllHits(sc, files[..k])
    {
      PrefixSnoc(files, k);
      assert files[..k + 1][..k] == files[..k];
      var fileResults := ScanSingleFile(sc, files[k].path, files[k].data);
      results := results + fileResults;
      k := k + 1;
    }
    assert files[..|files|] == files;
  }

  /** `scan_directory`: nothing for a missing path or a non-directory, else collect and scan. */
  method ScanDirectory(sc: Scanner, d: Directory, recursive: bool) returns (results: seq<Location>)
    ensures results == AllHits(sc, ScannedFiles(d, recursive))
  {
    if !d.Dir? {
      return [];
    }
    var files := CollectSupported(d.entries, recursive);
    results := ScanFiles(sc, files);
  }

  /** Every collected file passes the collection test, and there are no more of them than entries. */
  lemma {:induction false} SupportedFilesSpec(es: seq<Entry>, recursive: bool)
    ensures |SupportedFiles(es, recursive)| <= |es|
    ensures forall k :: 0 <= k < |SupportedFiles(es, recursive)| ==> Collected(SupportedFiles(es, recursive)[k], recursive)
  {
    if es != [] {
      SupportedFilesSpec(es[..|es| - 1], recursive);
    }
  }

  /** `loc` is a sound location of the supported file `e`. */
  predicate FromFile(sc: Scanner, e: Entry, loc: Location) {
    IsTableFile(e.path) && Sound(sc.detect, e.path, loc)
  }

  /** Every location of a directory scan is sound for one of the scanned files. */
  lemma {:induction false} AllHitsSound(sc: Scanner, files: seq<Entry>, loc: Location)
    requires loc in AllHits(sc, files)
    ensures exists k :: 0 <= k < |files| && FromFile(sc, files[k], loc)
  {
    var init, last := files[..|files| - 1], files[|files| - 1];
    if loc in AllHits(sc, init) {
      AllHitsSound(sc, init, loc);
      var k :| 0 <= k < |init| && FromFile(sc, init[k], loc);
      assert files[k] == init[k];
    } else {
      assert AllHits(sc, files) == AllHits(sc, init) + FileHits(sc, last.path, last.data);
      FileHitsSound(sc, last.path, last.data, loc);
      assert FromFile(sc, files[|files| - 1], loc);
    }
  }

  // ---------------------------------------------------------------- statistics

  /** The statistics of `process_directory`. */
  datatype Stats = Stats(totalFilesScanned: nat, filesWithVietnamese: nat, totalLocations: nat)

  /** `set(result['excel_file'] for result in results)`. */
  function FileNames(results: seq<Location>): set<string> {
    if results == [] then {}
    else FileNames(results[..|results| - 1]) + {results[|results| - 1].excelFile}
  }

  /**
   * `len(list(Path(directory_path).rglob('*' + ext)))`: every walked entry, file
   * or not, whose name ends with `ext`, letter case kept.
   */
  function GlobCount(es: seq<Entry>, ext: string): nat {
    if es == [] then 0
    else GlobCount(es[..|es| - 1], ext) + (if EndsWith(BaseName(es[|es| - 1].path), ext) then 1 else 0)
  }

  /** `total_files_scanned` as written: the four globs over the whole tree, whatever `recursive` says. */
  function GlobTotal(d: Directory): nat {
    match d
    case Missing => 0
    case NotADirectory => 0
    case Dir(es) => GlobCount(es, ".xlsx") + GlobCount(es, ".xls") + GlobCount(es, ".csv") + GlobCount(es, ".tsv")
  }

  /** The statistics as `process_directory` as written computes them from the scan's results. */
  function ProcessStats(d: Directory, results: seq<Location>): Stats {
    Stats(GlobTotal(d), |FileNames(results)|, |results|)
  }

  /** The set comprehension over the results' file names, as a loop. */
  method DistinctFileNames(results: seq<Location>) returns (names: set<string>)
    ensures names == FileNames(results)
  {
    names := {};
    var k := 0;
    while k < |results|
      invariant 0 <= k <= |results|
      invariant names == FileNames(results[..k])
    {
      PrefixSnoc(results, k);
      assert results[..k + 1][..k] == results[..k];
      names := names + {results[k].excelFile};
      k := k + 1;
    }
    assert results[..|results|] == results;
  }

  /**
   * `process_directory` without the output workbook: the scan with the
   * processor's detector and encodings, and its statistics, with the scanned
   * files counted as the scan selects them (see `ScannedStats`).
   */
  method ProcessDirectory(d: Directory, recursive: bool) returns (stats: Stats, results: seq<Location>)
    ensures results == AllHits(Processor, ScannedFiles(d, recursive))
    ensures stats == ScannedStats(Processor, d, recursive)
    ensures stats.filesWithVietnamese <= stats.totalFilesScanned && stats.filesWithVietnamese <= stats.totalLocations
  {
    results := ScanDirectory(Processor, d, recursive);
    var names := DistinctFileNames(results);
    stats := Stats(|ScannedFiles(d, recursive)|, |names|, |results|);
    ScannedStatsBound(Processor, d, recursive);
  }

  /** A name is counted exactly when some location carries it. */
  lemma {:induction false} FileNamesSpec(results: seq<Location>, name: string)
    ensures name in FileNames(results) <==> exists k :: 0 <= k < |results| && results[k].excelFile == name
  {
    if results != [] {
      var init := results[..|results| - 1];
      FileNamesSpec(init, name);
      if exists k :: 0 <= k < |init| && init[k].excelFile == name {
        var k :| 0 <= k < |init| && init[k].excelFile == name;
        assert results[k] == init[k];
      }
      if exists k :: 0 <= k < |results| && results[k].excelFile == name {
        var k :| 0 <= k < |results| && results[k].excelFile == name;
        if k < |init| {
          assert init[k] == results[k];
        }
      }
    }
  }

  /** Distinct names never outnumber locations. */
  lemma {:induction false} FileNamesBound(results: seq<Location>)
    ensures |FileNames(results)| <= |results|
  {
    if results != [] {
      FileNamesBound(results[..|results| - 1]);
    }
  }

  /** Two files with the same name in different folders count once: the statistic counts names, not files. */
  lemma SameNameCountsOnce(a: Location, b: Location)
    requires a.excelFile == b.excelFile
    ensures |FileNames([a, b])| == 1
  {
    assert [a, b][..1] == [a];
    assert [a][..0] == [];
    assert FileNames([a]) == {a.excelFile};
  }

  /** The names of the files, `file_path.name` for each. */
  function BaseNames(files: seq<Entry>): set<string> {
    if files == [] then {}
    else BaseNames(files[..|files| - 1]) + {BaseName(files[|files| - 1].path)}
  }

  lemma {:induction false} BaseNamesBound(files: seq<Entry>)
    ensures |BaseNames(files)| <= |files|
  {
    if files != [] {
      BaseNamesBound(files[..|files| - 1]);
    }
  }

  lemma {:induction false} BaseNamesMember(files: seq<Entry>, f: nat)
    requires f < |files|
    ensures BaseName(files[f].path) in BaseNames(files)
  {
    if f < |files| - 1 {
      BaseNamesMember(files[..|files| - 1], f);
      assert files[..|files| - 1][f] == files[f];
    }
  }

  /** Every counted name is the name of a scanned file. */
  lemma FileNamesOfScan(sc: Scanner, files: seq<Entry>)
    ensures FileNames(AllHits(sc, files)) <= BaseNames(files)
  {
    var hits := AllHits(sc, files);
    forall name | name in FileNames(hits)
      ensures name in BaseNames(files)
    {
      FileNamesSpec(hits, name);
      var k :| 0 <= k < |hits| && hits[k].excelFile == name;
      AllHitsSound(sc, files, hits[k]);
      var f :| 0 <= f < |files| && FromFile(sc, files[f], hits[k]);
      BaseNamesMember(files, f);
    }
  }

  lemma SubsetCard<T>(a: set<T>, b: set<T>)
    requires a <= b
    ensures |a| <= |b|
  {
    assert b == a + (b - a);
  }

  /** A directory holding one collected entry scans exactly that file. */
  lemma OneEntryScan(sc: Scanner, e: Entry)
    requires Collected(e, false)
    ensures AllHits(sc, ScannedFiles(Dir([e]), false)) == FileHits(sc, e.path, e.data)
  {
    assert [e][..0] == [];
    assert SupportedFiles([e], false) == [e];
  }

  /** The locations of one file that yields any carry exactly one name, the file's. */
  lemma OneFileNames(sc: Scanner, path: string, data: FileData)
    requires FileHits(sc, path, data) != []
    ensures FileNames(FileHits(sc, path, data)) == {BaseName(path)}
  {
    var hits := FileHits(sc, path, data);
    forall n | n in FileNames(hits)
      ensures n == BaseName(path)
    {
      FileNamesSpec(hits, n);
      var k :| 0 <= k < |hits| && hits[k].excelFile == n;
      FileHitsSound(sc, path, data, hits[k]);
    }
    FileHitsSound(sc, path, data, hits[0]);
    FileNamesSpec(hits, BaseName(path));
  }

  /** A glob counts a single entry exactly when its name ends with the pattern's suffix. */
  lemma OneEntryGlob(e: Entry, ext: string)
    ensures GlobCount([e], ext) == if EndsWith(BaseName(e.path), ext) then 1 else 0
  {
    assert [e][..0] == [];
  }

  /**
   * As written, the files counted as holding Vietnamese can outnumber the files
   * counted as scanned: a table named with an upper-case suffix is scanned (the
   * suffix test ignores case) but no glob counts it (the globs keep case).
   */
  lemma UpperCaseSuffixNotCounted(sc: Scanner, e: Entry)
    requires e.isFile && e.topLevel && IsTableFile(e.path) && FileHits(sc, e.path, e.data) != []
    requires var name := BaseName(e.path);
      !EndsWith(name, ".xlsx") && !EndsWith(name, ".xls") && !EndsWith(name, ".csv") && !EndsWith(name, ".tsv")
    ensures var d := Dir([e]);
      var s := ProcessStats(d, AllHits(sc, ScannedFiles(d, false)));
      s.filesWithVietnamese == 1 && s.totalFilesScanned == 0
  {
    OneEntryScan(sc, e);
    OneFileNames(sc, e.path, e.data);
    OneEntryGlob(e, ".xlsx");
    OneEntryGlob(e, ".xls");
    OneEntryGlob(e, ".csv");
    OneEntryGlob(e, ".tsv");
  }

  /** The upper-case workbook name `A.XLSX` is such a table: supported, yet matched by none of the globs. */
  lemma UpperCaseSuffixWitness(path: string)
    requires path == "A.XLSX"
    ensures IsWorkbookFile(path)
    ensures var name := BaseName(path);
      !EndsWith(name, ".xlsx") && !EndsWith(name, ".xls") && !EndsWith(name, ".csv") && !EndsWith(name, ".tsv")
  {
    assert RFindChar(path, '/') == -1;
    assert BaseName(path) == path;
    assert RFindChar(path, '.') == 1;
    assert Suffix(path) == ".XLSX";
    assert Lower(".XLSX") == ".xlsx";
  }

  /** A glob over two entries counts each of them that its suffix matches. */
  lemma TwoEntryGlob(x: Entry, y: Entry, ext: string)
    ensures GlobCount([x, y], ext)
      == (if EndsWith(BaseName(x.path), ext) then 1 else 0) + (if EndsWith(BaseName(y.path), ext) then 1 else 0)
  {
    assert [x, y][..1] == [x];
    OneEntryGlob(x, ext);
  }

  /** A name ending in `.xlsx` is matched by the `.xlsx` glob and by none of the other three. */
  lemma XlsxGlobs(name: string)
    requires EndsWith(name, ".xlsx")
    ensures !EndsWith(name, ".xls") && !EndsWith(name, ".csv") && !EndsWith(name, ".tsv")
  {
    assert name[|name| - 1] == 'x';
    assert ".xls"[3] == 's' && ".csv"[3] == 'v' && ".tsv"[3] == 'v';
  }

  /** The four globs over two entries named `*.xlsx` count two. */
  lemma XlsxPairGlobTotal(a: Entry, b: Entry)
    requires EndsWith(BaseName(a.path), ".xlsx") && EndsWith(BaseName(b.path), ".xlsx")
    ensures GlobTotal(Dir([a, b])) == 2
  {
    XlsxGlobs(BaseName(a.path));
    XlsxGlobs(BaseName(b.path));
    TwoEntryGlob(a, b, ".xlsx");
    TwoEntryGlob(a, b, ".xls");
    TwoEntryGlob(a, b, ".csv");
    TwoEntryGlob(a, b, ".tsv");
  }

  /** A scan that is not recursive collects a top-level table and skips a nested entry. */
  lemma TopLevelOnlyCollected(a: Entry, b: Entry)
    requires a.isFile && a.topLevel && IsTableFile(a.path) && !b.topLevel
    ensures SupportedFiles([a, b], false) == [a]
  {
    assert [a][..0] == [] && SupportedFiles([a], false) == [a];
    assert [a, b][..1] == [a];
  }

  /**
   * As written, a scan that is not recursive still has its files counted over the
   * whole tree: a top-level workbook and a nested one, both named `*.xlsx`, count
   * as two files scanned, though only the top-level one is scanned.
   */
  lemma NonRecursiveCountsNested(sc: Scanner, a: Entry, b: Entry)
    requires a.isFile && a.topLevel && IsTableFile(a.path) && !b.topLevel
    requires EndsWith(BaseName(a.path), ".xlsx") && EndsWith(BaseName(b.path), ".xlsx")
    ensures var d := Dir([a, b]);
      ProcessStats(d, AllHits(sc, ScannedFiles(d, false))).totalFilesScanned == 2
      && ScannedStats(sc, d, false).totalFilesScanned == 1
  {
    XlsxPairGlobTotal(a, b);
    TopLevelOnlyCollected(a, b);
  }

  /** `a.xlsx` names a supported table matched by the `*.xlsx` glob. */
  lemma TopWorkbookName(path: string)
    requires path == "a.xlsx"
    ensures IsTableFile(path) && EndsWith(BaseName(path), ".xlsx")
  {
    assert RFindChar(path, '/') == -1;
    assert RFindChar(path, '.') == 1;
    assert Suffix(path) == ".xlsx";
    assert Lower(".xlsx") == ".xlsx";
  }

  /** `sub/b.xlsx` is named `b.xlsx`, matched by the `*.xlsx` glob. */
  lemma NestedWorkbookName(path: string)
    requires path == "sub/b.xlsx"
    ensures BaseName(path) == "b.xlsx" && EndsWith(BaseName(path), ".xlsx")
  {
    assert RFindChar(path, '/') == 3;
  }

  /**
   * The count on a concrete tree: a top-level `a.xlsx` beside a nested `sub/b.xlsx`,
   * scanned with `recursive` false, counts as two files scanned where one is.
   */
  lemma NonRecursiveWitness(sc: Scanner, top: FileData, nested: FileData)
    ensures var d := Dir([Entry("a.xlsx", true, true, top), Entry("sub/b.xlsx", true, false, nested)]);
      ProcessStats(d, AllHits(sc, ScannedFiles(d, false))).totalFilesScanned == 2
      && ScannedStats(sc, d, false).totalFilesScanned == 1
  {
    var a, b := Entry("a.xlsx", true, true, top), Entry("sub/b.xlsx", true, false, nested);
    TopWorkbookName(a.path);
    NestedWorkbookName(b.path);
    NonRecursiveCountsNested(sc, a, b);
  }

  /** One Vietnamese cell in a readable sheet makes a workbook file report a location. */
  lemma OneCellWorkbookHits(sc: Scanner, path: string, v: string, csv: string -> CsvRead)
    requires IsWorkbookFile(path) && sc.detect(v)
    ensures FileHits(sc, path, FileData(Some([SheetRead("S", Some(Frame(["C"], [[Some(v)]])))]), csv)) != []
  {
    var df := Frame(["C"], [[Some(v)]]);
    var sheets := [SheetRead("S", Some(df))];
    TableFileKinds(path);
    assert sheets[..0] == [];
    assert BookHits(sc.detect, path, sheets) == FrameHits(sc.detect, path, "S", df, 1);
    FrameHitsCompleteAt(sc.detect, path, "S", df, 1, 0, 0, LocationAt(path, "S", df, 0, 0, v));
  }

  /** The statistics with the count the scan evidently means: the files it actually scanned. */
  function ScannedStats(sc: Scanner, d: Directory, recursive: bool): Stats {
    var files := ScannedFiles(d, recursive);
    var results := AllHits(sc, files);
    Stats(|files|, |FileNames(results)|, |results|)
  }

  /** With that count, files holding Vietnamese never outnumber scanned files, nor locations. */
  lemma ScannedStatsBound(sc: Scanner, d: Directory, recursive: bool)
    ensures var s := ScannedStats(sc, d, recursive);
      s.filesWithVietnamese <= s.totalFilesScanned && s.filesWithVietnamese <= s.totalLocations
  {
    var files := ScannedFiles(d, recursive);
    FileNamesOfScan(sc, files);
    BaseNamesBound(files);
    FileNamesBound(AllHits(sc, files));
    SubsetCard(FileNames(AllHits(sc, files)), BaseNames(files));
  }
}
