/**
 * `CrossProjectTranslatorWithCache`: the cross-project translator with its three
 * lookups (workbook load, cell query, file search) routed through a two-layer
 * `CacheManager`, and a hit and a miss counter of its own.
 */
module CachedTranslator {
  import opened Wrappers
  import opened Collections
  import opened Text
  import opened Frames
  import opened CellReference
  import opened Translator
  import opened CacheModel
  import opened Cache

  /** What the translator caches: a loaded workbook, or a text (a cell's content, a found path or the sentinel). */
  datatype Payload = Sheets(wb: Workbook) | Plain(s: string)

  const ExcelPrefix: string := "excel_file:"
  const QueryPrefix: string := "query:"
  const SearchPrefix: string := "file_search:"

  /** What a search that found nothing caches. */
  const NotFound: string := "NOT_FOUND"

  /** The key of a loaded workbook: the prefix and the file's hash (path and modification time). */
  function ExcelKey(fileHash: string): string { ExcelPrefix + fileHash }

  /** The key of a cell query: the sheet name and the reference only. */
  function QueryKey(sheet: string, cellRef: string): string { QueryPrefix + sheet + ":" + cellRef }

  /** The key of a file search: the project directory and the table name. */
  function SearchKey(dir: string, table: string): string { SearchPrefix + dir + ":" + table }

  /** The three kinds of key never collide: their first characters differ. */
  lemma KeyKindsDistinct(fileHash: string, sheet: string, cellRef: string, dir: string, table: string)
    ensures ExcelKey(fileHash) != QueryKey(sheet, cellRef)
    ensures ExcelKey(fileHash) != SearchKey(dir, table)
    ensures QueryKey(sheet, cellRef) != SearchKey(dir, table)
  {
    assert ExcelKey(fileHash)[0] == 'e';
    assert QueryKey(sheet, cellRef)[0] == 'q';
    assert SearchKey(dir, table)[0] == 'f';
  }

  // ---------------------------------------------------------------- reading payloads back

  /** A cached workbook; a text under a workbook key (never stored by the translator) reads as no sheets. */
  function WorkbookOf(p: Payload): Workbook {
    match p
    case Sheets(wb) => wb
    case Plain(_) => EmptyWorkbook()
  }

  /** A cached cell text; a workbook under a query key (never stored by the translator) reads as no content. */
  function TextOf(p: Payload): Option<string> {
    match p
    case Sheets(_) => None
    case Plain(s) => Some(s)
  }

  /** The cached form of a search result: the path, or the sentinel. */
  function EncodeSearch(r: Option<string>): string {
    if r.None? then NotFound else r.value
  }

  /** How a cached search result is read: the sentinel means no file. */
  function DecodeSearch(s: string): Option<string> {
    if s == NotFound then None else Some(s)
  }

  /** A cached search payload; a workbook under a search key (never stored by the translator) reads as no file. */
  function SearchOf(p: Payload): Option<string> {
    match p
    case Sheets(_) => None
    case Plain(s) => DecodeSearch(s)
  }

  /** A path whose last character is, ignoring case, the `s` or `x` that ends `.xls` and `.xlsx`. */
  predicate SpreadsheetPath(p: string) {
    |p| > 0 && (LowerChar(p[|p| - 1]) == 's' || LowerChar(p[|p| - 1]) == 'x')
  }

  /** The joined path ends with the name's last character. */
  lemma JoinLastChar(dir: string, name: string)
    requires |name| > 0
    ensures |Join(dir, name)| > 0 && Join(dir, name)[|Join(dir, name)| - 1] == name[|name| - 1]
  {
  }

  /** Every path the search returns from spelling `k` on is a spreadsheet path. */
  lemma {:induction false} SearchFromSpreadsheet(fs: FileSystem, dir: string, table: string, k: nat)
    requires k <= 4
    ensures SearchFrom(fs, dir, table, k).Some? ==> SpreadsheetPath(SearchFrom(fs, dir, table, k).value)
    decreases 4 - k
  {
    if k < 4 {
      var name := Candidates(table)[k];
      JoinLastChar(dir, name);
      SearchFromSpreadsheet(fs, dir, table, k + 1);
    } else {
      var j := FirstWalkMatch(fs.walk, table, 0);
      if j >= 0 {
        FirstWalkMatchSpec(fs.walk, table, 0);
        var f := fs.walk[j].1;
        var lf := Lower(f);
        assert lf[|lf| - 1] == 's' || lf[|lf| - 1] == 'x' by {
          if EndsWith(lf, ".xlsx") {
            assert lf[|lf| - 5..][4] == 'x';
          } else {
            assert lf[|lf| - 4..][3] == 's';
          }
        }
        JoinLastChar(fs.walk[j].0, f);
      }
    }
  }

  /** No path the search can return is the sentinel. */
  lemma SearchNeverSentinel(fs: FileSystem, dir: string, table: string)
    ensures SearchProjectFile(fs, dir, table) != Some(NotFound)
  {
    SearchFromSpreadsheet(fs, dir, table, 0);
    assert !SpreadsheetPath(NotFound);
  }

  /** Hence the cached form of every search result reads back as that very result. */
  lemma SearchEncodingRoundTrip(fs: FileSystem, dir: string, table: string)
    ensures DecodeSearch(EncodeSearch(SearchProjectFile(fs, dir, table))) == SearchProjectFile(fs, dir, table)
  {
    SearchNeverSentinel(fs, dir, table);
  }

  /**
   * A search answered from the cache within the time to live gives what the
   * search that filled the cache found.
   */
  lemma SearchCacheRepeats(c: Config, l: Layers<Payload>, fs: FileSystem, dir: string, table: string,
                           now: int, later: int, outcome: WriteOutcome)
    requires MemValid(l.mem, c.maxSize)
    requires c.defaultTtl.None? || later - now <= c.defaultTtl.value
    ensures var r := SearchProjectFile(fs, dir, table);
      var l1 := ManagerSet(c, l, SearchKey(dir, table), Some(Plain(EncodeSearch(r))), None, "all", now, outcome);
      var g := ManagerGet(c, l1, SearchKey(dir, table), "all", later);
      g.value.Some? && SearchOf(g.value.value) == r
  {
    var r := SearchProjectFile(fs, dir, table);
    ManagerSetThenGet(c, l, SearchKey(dir, table), Plain(EncodeSearch(r)), None, now, later, outcome);
    SearchEncodingRoundTrip(fs, dir, table);
  }

  // ---------------------------------------------------------------- the query key

  /** A one-row, one-column sheet `sheet` holding `v` answers any reference to its only cell (such as `A1`) with `v`. */
  lemma SingleCellExample(sheet: string, cellRef: string, v: string)
    requires ParseCellReference(cellRef) == Some((1, 1))
    ensures FindContent(Workbook([(sheet, Frame(["H"], [[Some(v)]]))]), sheet, cellRef) == Some(v)
  {
    var df := Frame(["H"], [[Some(v)]]);
    assert SheetOf(Workbook([(sheet, df)]), sheet) == Some(df);
    FindContentParsed(Workbook([(sheet, df)]), sheet, cellRef, 0, 0);
    assert CellText(CellAt(df, 0, 0)) == v;
  }

  /**
   * A query's key leaves the workbook out: once the first
   * workbook's cell has been answered and cached as `x`, the same query against
   * a second workbook whose cell holds `y` is answered from the cache with `x`.
   */
  lemma StaleQueryExample(c: Config, l: Layers<Payload>, now: int, outcome: WriteOutcome, sheet: string,
                          cellRef: string, x: string, y: string)
    requires MemValid(l.mem, c.maxSize)
    requires c.defaultTtl.None? || c.defaultTtl.value >= 0
    requires ParseCellReference(cellRef) == Some((1, 1))
    ensures FindContent(Workbook([(sheet, Frame(["H"], [[Some(x)]]))]), sheet, cellRef) == Some(x)
    ensures FindContent(Workbook([(sheet, Frame(["H"], [[Some(y)]]))]), sheet, cellRef) == Some(y)
    ensures ManagerGet(c, ManagerSet(c, l, QueryKey(sheet, cellRef), Some(Plain(x)), None, "all", now, outcome),
                       QueryKey(sheet, cellRef), "all", now).value == Some(Plain(x))
  {
    SingleCellExample(sheet, cellRef, x);
    SingleCellExample(sheet, cellRef, y);
    ManagerSetThenGet(c, l, QueryKey(sheet, cellRef), Plain(x), None, now, now, outcome);
  }

  // ---------------------------------------------------------------- records

  /** A complete row's record extends the records of the rows before it. */
  lemma RecordsForStep(names: seq<string>, positions: seq<string>, i: nat, results: seq<MappingRecord>,
                       r: MappingRecord)
    requires i < |names| == |positions|
    requires RecordsFor(names, positions, i, results)
    requires names[i] != "" && positions[i] != "" && RowRecord(names[i], positions[i], i + 1, r)
    ensures RecordsFor(names, positions, i + 1, results + [r])
  {
    assert (results + [r])[..|results|] == results;
  }

  // ---------------------------------------------------------------- the row loop as functions

  /** What the row loop threads from row to row: the manager's layers and the translator's two counters. */
  datatype CacheRun = CacheRun(layers: Layers<Payload>, hits: nat, misses: nat)

  /**
   * `find_project_file` on run state `s`: every call consults the cache once; a
   * call the cache does not answer is the uncached search.
   */
  function CachedSearch(c: Config, s: CacheRun, dir: string, table: string, fs: FileSystem, now: int,
                        outcome: WriteOutcome): (r: (Option<string>, CacheRun))
    ensures r.1.hits >= s.hits && r.1.misses >= s.misses && r.1.hits + r.1.misses == s.hits + s.misses + 1
    ensures r.1.hits == s.hits ==> r.0 == SearchProjectFile(fs, dir, table)
  {
    var key := SearchKey(dir, table);
    var g := ManagerGet(c, s.layers, key, "all", now);
    if g.value.Some? then (SearchOf(g.value.value), CacheRun(g.layers, s.hits + 1, s.misses))
    else
      var path := SearchProjectFile(fs, dir, table);
      (path, CacheRun(ManagerSet(c, g.layers, key, Some(Plain(EncodeSearch(path))), None, "all", now, outcome),
                      s.hits, s.misses + 1))
  }

  /**
   * `load_project_file` on run state `s`: an existing path consults the cache
   * once, a missing one not at all; a load the cache does not answer reads the
   * disk, or gives no sheets.
   */
  function CachedLoad(c: Config, s: CacheRun, fileHash: string -> string, path: string, fs: FileSystem,
                      disk: map<string, Workbook>, now: int, outcome: WriteOutcome): (r: (Workbook, CacheRun))
    ensures r.1.hits >= s.hits && r.1.misses >= s.misses
    ensures r.1.hits + r.1.misses == s.hits + s.misses + (if path in fs.existing then 1 else 0)
    ensures r.1.hits == s.hits ==> r.0 == if Loadable(path, fs, disk) then disk[path] else EmptyWorkbook()
  {
    if path !in fs.existing then (EmptyWorkbook(), s)
    else
      var key := ExcelKey(fileHash(path));
      var g := ManagerGet(c, s.layers, key, "all", now);
      if g.value.Some? then (WorkbookOf(g.value.value), CacheRun(g.layers, s.hits + 1, s.misses))
      else if path in disk then
        (disk[path], CacheRun(ManagerSet(c, g.layers, key, Some(Sheets(disk[path])), None, "all", now, outcome),
                              s.hits, s.misses + 1))
      else (EmptyWorkbook(), CacheRun(g.layers, s.hits, s.misses + 1))
  }

  /** Workbook keys are equal exactly when the hashes are. */
  lemma ExcelKeyInjective(a: string, b: string)
    ensures ExcelKey(a) == ExcelKey(b) <==> a == b
  {
    if ExcelKey(a) == ExcelKey(b) {
      assert a == ExcelKey(a)[|ExcelPrefix|..];
      assert b == ExcelKey(b)[|ExcelPrefix|..];
    }
  }

  /**
   * A load whose hash has no entry in either layer (a file not loaded before, or
   * one edited since, whose modification time and so whose key has changed)
   * misses and reads the workbook from disk.
   */
  lemma UnseenHashReloads(c: Config, s: CacheRun, fileHash: string -> string, path: string, fs: FileSystem,
                          disk: map<string, Workbook>, now: int, outcome: WriteOutcome)
    requires Loadable(path, fs, disk)
    requires CacheModel.Lookup(s.layers.mem.cache, ExcelKey(fileHash(path))).None?
    requires c.useFileCache ==> c.fileName(ExcelKey(fileHash(path))) !in s.layers.dir
    ensures var r := CachedLoad(c, s, fileHash, path, fs, disk, now, outcome);
      r.0 == disk[path] && r.1.hits == s.hits && r.1.misses == s.misses + 1
  {
    var key := ExcelKey(fileHash(path));
    assert IndexOf(s.layers.mem.cache, key) < 0;
    assert ManagerGet(c, s.layers, key, "all", now).value.None?;
  }

  /**
   * A workbook edited between two loads is read again. `before` and `after` are
   * `_get_file_hash` at the two loads; they differ once the modification time has
   * changed (barring a collision of the 16-digit MD5 prefix), and a hash never
   * cached before misses whatever the first load found or stored. Distinct keys
   * are taken to name distinct cache files (no MD5 collision in `_get_cache_path`).
   */
  lemma EditedWorkbookReloads(c: Config, s: CacheRun, before: string -> string, after: string -> string,
                              path: string, fs: FileSystem, disk: map<string, Workbook>, now: int,
                              outcome: WriteOutcome, fs': FileSystem, disk': map<string, Workbook>, now': int,
                              outcome': WriteOutcome)
    requires MemValid(s.layers.mem, c.maxSize) && Loadable(path, fs', disk')
    requires before(path) != after(path)
    requires c.useFileCache ==> c.fileName(ExcelKey(before(path))) != c.fileName(ExcelKey(after(path)))
    requires CacheModel.Lookup(s.layers.mem.cache, ExcelKey(after(path))).None?
    requires c.useFileCache ==> c.fileName(ExcelKey(after(path))) !in s.layers.dir
    ensures var s1 := CachedLoad(c, s, before, path, fs, disk, now, outcome).1;
      var r := CachedLoad(c, s1, after, path, fs', disk', now', outcome');
      r.0 == disk'[path] && r.1.hits == s1.hits && r.1.misses == s1.misses + 1
  {
    var s1 := CachedLoad(c, s, before, path, fs, disk, now, outcome).1;
    var oldKey, newKey := ExcelKey(before(path)), ExcelKey(after(path));
    ExcelKeyInjective(before(path), after(path));
    if path in fs.existing {
      ManagerGetKeepsAbsent(c, s.layers, oldKey, now, newKey);
      var g := ManagerGet(c, s.layers, oldKey, "all", now);
      if g.value.None? && path in disk {
        ManagerSetKeepsAbsent(c, g.layers, oldKey, Some(Sheets(disk[path])), now, outcome, newKey);
      }
    }
    UnseenHashReloads(c, s1, after, path, fs', disk', now', outcome');
  }

  /**
   * `find_content_by_reference` on run state `s`: a present sheet consults the
   * cache once, an absent one not at all; a lookup the cache does not answer is
   * the uncached lookup.
   */
  function CachedQuery(c: Config, s: CacheRun, wb: Workbook, sheet: string, cellRef: string, now: int,
                       outcome: WriteOutcome): (r: (Option<string>, CacheRun))
    ensures r.1.hits >= s.hits && r.1.misses >= s.misses
    ensures r.1.hits + r.1.misses == s.hits + s.misses + (if SheetOf(wb, sheet).Some? then 1 else 0)
    ensures r.1.hits == s.hits ==> r.0 == FindContent(wb, sheet, cellRef)
  {
    if SheetOf(wb, sheet).None? then (None, s)
    else
      var key := QueryKey(sheet, cellRef);
      var g := ManagerGet(c, s.layers, key, "all", now);
      if g.value.Some? then (TextOf(g.value.value), CacheRun(g.layers, s.hits + 1, s.misses))
      else
        var content := FindContent(wb, sheet, cellRef);
        (content, CacheRun(if content.None? then g.layers
                           else ManagerSet(c, g.layers, key, Some(Plain(content.value)), None, "all", now, outcome),
                           s.hits, s.misses + 1))
  }

  /** The path a row's file name resolves to: the joined path when it exists (no cache), else the cached search. */
  function CachedResolve(c: Config, s: CacheRun, dir: string, fileName: string, fs: FileSystem, now: int,
                         outcome: WriteOutcome): (r: (Option<string>, CacheRun))
    ensures Join(dir, fileName) in fs.existing ==> r == (Some(Join(dir, fileName)), s)
    ensures r.1.hits >= s.hits && r.1.misses >= s.misses
    ensures r.1.hits == s.hits ==> r.0 == Resolve(fs, dir, fileName)
  {
    if Join(dir, fileName) in fs.existing then (Some(Join(dir, fileName)), s)
    else CachedSearch(c, s, dir, fileName, fs, now, outcome)
  }

  /**
   * One complete mapping row on run state `s`: no path gives `FileNotFound`;
   * otherwise the cached load, the split of the position against the loaded
   * workbook, and the cached lookup of that sheet and reference.
   */
  function CachedRow(c: Config, s: CacheRun, fileHash: string -> string, index: nat, fileName: string,
                     position: string, dir: string, fs: FileSystem, disk: map<string, Workbook>, now: int,
                     outcome: WriteOutcome): (r: (MappingRecord, CacheRun))
    ensures RowRecord(fileName, position, index, r.0)
    ensures r.1.hits >= s.hits && r.1.misses >= s.misses
  {
    var (resolved, s1) := CachedResolve(c, s, dir, fileName, fs, now, outcome);
    match resolved
    case None => (MappingRecord(index, fileName, position, FileNotFound), s1)
    case Some(path) =>
      var (wb, s2) := CachedLoad(c, s1, fileHash, path, fs, disk, now, outcome);
      var (sheet, ref) := SplitPosition(position, wb);
      var (content, s3) := CachedQuery(c, s2, wb, sheet, ref, now, outcome);
      (MappingRecord(index, fileName, position, Looked(sheet, ref, content, path)), s3)
  }

  /**
   * A row's lookup is `FileNotFound` exactly when its file name resolves to
   * nothing, and otherwise holds the resolved path, the split of the position
   * against the workbook that path loaded, and that sheet and reference's content.
   */
  lemma CachedRowLookup(c: Config, s: CacheRun, fileHash: string -> string, index: nat, fileName: string,
                        position: string, dir: string, fs: FileSystem, disk: map<string, Workbook>, now: int,
                        outcome: WriteOutcome)
    ensures var l := CachedRow(c, s, fileHash, index, fileName, position, dir, fs, disk, now, outcome).0.lookup;
      var (resolved, s1) := CachedResolve(c, s, dir, fileName, fs, now, outcome);
      && (l.FileNotFound? <==> resolved.None?)
      && (Join(dir, fileName) in fs.existing ==> l.Looked? && l.projectFile == Join(dir, fileName))
      && (l.Looked? ==>
            var (wb, s2) := CachedLoad(c, s1, fileHash, l.projectFile, fs, disk, now, outcome);
            && resolved == Some(l.projectFile)
            && (l.sheetName, l.cellRef) == SplitPosition(position, wb)
            && l.content == CachedQuery(c, s2, wb, l.sheetName, l.cellRef, now, outcome).0)
  {
  }

  /** The lookup the uncached translator gives record `r`'s file name and position, against an empty memo. */
  predicate UncachedLookup(r: MappingRecord, dir: string, fs: FileSystem, disk: map<string, Workbook>) {
    r.lookup == RowLookup(Resolve(fs, dir, r.fileName), r.cellReference, map[], fs, disk).0
  }

  /**
   * A row the cache answered nothing for is the uncached translator's row,
   * looked up against an empty memo.
   */
  lemma CachedRowWithoutHits(c: Config, s: CacheRun, fileHash: string -> string, index: nat, fileName: string,
                             position: string, dir: string, fs: FileSystem, disk: map<string, Workbook>, now: int,
                             outcome: WriteOutcome)
    ensures var r := CachedRow(c, s, fileHash, index, fileName, position, dir, fs, disk, now, outcome);
      r.1.hits == s.hits ==> UncachedLookup(r.0, dir, fs, disk)
  {
    var (resolved, s1) := CachedResolve(c, s, dir, fileName, fs, now, outcome);
    if resolved.Some? {
      var path := resolved.value;
      var (wb, s2) := CachedLoad(c, s1, fileHash, path, fs, disk, now, outcome);
      assert Loaded(Memoise(map[], path, fs, disk), path) == if Loadable(path, fs, disk) then disk[path] else EmptyWorkbook();
    }
  }

  /** Records that are all uncached lookups stay so when one more such record is appended. */
  lemma UncachedLookupSnoc(rs: seq<MappingRecord>, r: MappingRecord, dir: string, fs: FileSystem,
                           disk: map<string, Workbook>)
    ensures (forall x :: x in rs ==> UncachedLookup(x, dir, fs, disk)) && UncachedLookup(r, dir, fs, disk) ==>
              forall x :: x in rs + [r] ==> UncachedLookup(x, dir, fs, disk)
  {
    if (forall x :: x in rs ==> UncachedLookup(x, dir, fs, disk)) && UncachedLookup(r, dir, fs, disk) {
      AllOfAppend(rs, [r], x => UncachedLookup(x, dir, fs, disk));
    }
  }

  /**
   * The row loop over the first `n` rows, given their stripped file names and
   * positions; in a run the cache answered nothing for, every record is the
   * uncached translator's lookup of its row.
   */
  function CachedRows(c: Config, s: CacheRun, fileHash: string -> string, names: seq<string>, positions: seq<string>,
                      n: nat, dir: string, fs: FileSystem, disk: map<string, Workbook>, now: int,
                      outcome: WriteOutcome): (r: (seq<MappingRecord>, CacheRun))
    requires n <= |names| == |positions|
    ensures RecordsFor(names, positions, n, r.0)
    ensures r.1.hits >= s.hits && r.1.misses >= s.misses
    ensures r.1.hits == s.hits ==> forall x :: x in r.0 ==> UncachedLookup(x, dir, fs, disk)
  {
    if n == 0 then ([], s)
    else
      var (rs, s') := CachedRows(c, s, fileHash, names, positions, n - 1, dir, fs, disk, now, outcome);
      if names[n - 1] != "" && positions[n - 1] != "" then
        var (record, s'') := CachedRow(c, s', fileHash, n, names[n - 1], positions[n - 1], dir, fs, disk, now, outcome);
        RecordsForStep(names, positions, n - 1, rs, record);
        CachedRowWithoutHits(c, s', fileHash, n, names[n - 1], positions[n - 1], dir, fs, disk, now, outcome);
        UncachedLookupSnoc(rs, record, dir, fs, disk);
        (rs + [record], s'')
      else (rs, s')
  }

  /** The cached run's statistics: totals, and the translator's own hit and miss counts. */
  datatype CachedStatistics = CachedStatistics(total: nat, success: nat, error: nat, hits: nat, misses: nat)

  /** `get_cache_stats`: the manager's figures and the translator's counters. */
  datatype CacheReport = CacheReport(manager: ManagerStats, hits: nat, misses: nat)

  // ---------------------------------------------------------------- the translator

  /** `CrossProjectTranslatorWithCache`: its cache manager, counters and the last run's results. */
  class CachedProjectTranslator {
    const cache: CacheManager<Payload>
    var cacheHits: nat
    var cacheMisses: nat
    var translationResults: seq<MappingRecord>

    ghost predicate Valid()
      reads this, cache, cache.memory
    {
      cache.Valid()
    }

    /** The state the row loop threads: the manager's layers and the two counters. */
    function State(): CacheRun
      reads this, cache, cache.memory, cache.file
    {
      CacheRun(cache.Layers(), cacheHits, cacheMisses)
    }

    /** `__init__`: memory size 1000, ttl one day and the file layer on by default; both counters zero. */
    constructor (cacheFileName: string -> string, enableFileCache: bool, memoryCacheSize: int,
                 cacheTtl: Option<int>, existing: Dir<Option<Payload>>)
      ensures Valid() && fresh(cache) && fresh(cache.memory)
      ensures cache.useFileCache == enableFileCache && cache.defaultTtl == cacheTtl
      ensures cache.memory.maxSize == memoryCacheSize && cache.memory.State() == MemState([], 0, 0)
      ensures enableFileCache ==> cache.file.files == existing
      ensures cacheHits == 0 && cacheMisses == 0 && translationResults == []
    {
      cache := new CacheManager(memoryCacheSize, cacheTtl, enableFileCache, cacheFileName, existing);
      cacheHits := 0;
      cacheMisses := 0;
      translationResults := [];
    }

    /**
     * `load_project_file`: a missing path gives no sheets and touches nothing;
     * otherwise a cached workbook is a hit; on a miss the file is read and
     * cached, and a file the reader rejects gives no sheets and is not cached.
     * `fileHash` is `_get_file_hash` at the time of the call: a digest of the
     * path and the file's modification time then, so an edited file has a new key.
     */
    method LoadProjectFile(path: string, fileHash: string -> string, fs: FileSystem, disk: map<string, Workbook>,
                           now: int, outcome: WriteOutcome) returns (wb: Workbook)
      requires Valid()
      modifies this, cache.memory, cache.file
      ensures Valid() && translationResults == old(translationResults)
      ensures (wb, State()) == CachedLoad(cache.Config(), old(State()), fileHash, path, fs, disk, now, outcome)
    {
      if path !in fs.existing {
        return EmptyWorkbook();
      }
      ghost var s0 := State();
      ghost var q := CachedLoad(cache.Config(), s0, fileHash, path, fs, disk, now, outcome);
      var key := ExcelKey(fileHash(path));
      ghost var g := ManagerGet(cache.Config(), s0.layers, key, "all", now);
      var cached := cache.Get(key, "all", now);
      if cached.Some? {
        assert q == (WorkbookOf(cached.value), CacheRun(cache.Layers(), s0.hits + 1, s0.misses));
        cacheHits := cacheHits + 1;
        return WorkbookOf(cached.value);
      }
      cacheMisses := cacheMisses + 1;
      if path !in disk {
        assert q == (EmptyWorkbook(), CacheRun(cache.Layers(), s0.hits, s0.misses + 1));
        return EmptyWorkbook();
      }
      wb := disk[path];
      cache.Set(key, Some(Sheets(wb)), None, "all", now, outcome);
      assert wb == q.0 && cache.Layers() == q.1.layers;
      assert cacheHits == q.1.hits && cacheMisses == q.1.misses;
    }

    /**
     * `find_content_by_reference`: an absent sheet gives `None` before the cache
     * is consulted; a cached text is a hit; on a miss the lookup of the uncached
     * translator runs and a found text (never `None`) is cached.
     */
    method FindContentByReference(wb: Workbook, sheet: string, cellRef: string, now: int, outcome: WriteOutcome)
      returns (content: Option<string>)
      requires Valid()
      modifies this, cache.memory, cache.file
      ensures Valid() && translationResults == old(translationResults)
      ensures (content, State()) == CachedQuery(cache.Config(), old(State()), wb, sheet, cellRef, now, outcome)
    {
      if SheetOf(wb, sheet).None? {
        return None;
      }
      ghost var s0 := State();
      ghost var q := CachedQuery(cache.Config(), s0, wb, sheet, cellRef, now, outcome);
      var key := QueryKey(sheet, cellRef);
      ghost var g := ManagerGet(cache.Config(), s0.layers, key, "all", now);
      var cached := cache.Get(key, "all", now);
      if cached.Some? {
        assert q == (TextOf(cached.value), CacheRun(cache.Layers(), s0.hits + 1, s0.misses));
        cacheHits := cacheHits + 1;
        return TextOf(cached.value);
      }
      cacheMisses := cacheMisses + 1;
      content := FindContent(wb, sheet, cellRef);
      if content.Some? {
        cache.Set(key, Some(Plain(content.value)), None, "all", now, outcome);
      }
      assert content == q.0 && cache.Layers() == q.1.layers;
      assert cacheHits == q.1.hits && cacheMisses == q.1.misses;
    }

    /**
     * `find_project_file`: a cached answer is a hit (the sentinel reads as no
     * file); on a miss the uncached search runs and its answer, a path or the
     * sentinel, is cached.
     */
    method FindProjectFile(dir: string, table: string, fs: FileSystem, now: int, outcome: WriteOutcome)
      returns (path: Option<string>)
      requires Valid()
      modifies this, cache.memory, cache.file
      ensures Valid() && translationResults == old(translationResults)
      ensures (path, State()) == CachedSearch(cache.Config(), old(State()), dir, table, fs, now, outcome)
    {
      ghost var s0 := State();
      ghost var q := CachedSearch(cache.Config(), s0, dir, table, fs, now, outcome);
      var key := SearchKey(dir, table);
      ghost var g := ManagerGet(cache.Config(), s0.layers, key, "all", now);
      var cached := cache.Get(key, "all", now);
      if cached.Some? {
        assert q == (SearchOf(cached.value), CacheRun(cache.Layers(), s0.hits + 1, s0.misses));
        cacheHits := cacheHits + 1;
        return SearchOf(cached.value);
      }
      cacheMisses := cacheMisses + 1;
      path := SearchProjectFile(fs, dir, table);
      cache.Set(key, Some(Plain(EncodeSearch(path))), None, "all", now, outcome);
      assert path == q.0 && cache.Layers() == q.1.layers;
      assert cacheHits == q.1.hits && cacheMisses == q.1.misses;
    }

    /**
     * One complete mapping row: the joined path when it exists, else the cached
     * search; then the cached load, the position split and the cached lookup.
     */
    method TranslateRow(index: nat, fileName: string, position: string, dir: string, fileHash: string -> string,
                        fs: FileSystem,
                        disk: map<string, Workbook>, now: int, outcome: WriteOutcome) returns (record: MappingRecord)
      requires Valid()
      modifies this, cache.memory, cache.file
      ensures Valid() && translationResults == old(translationResults)
      ensures (record, State())
              == CachedRow(cache.Config(), old(State()), fileHash, index, fileName, position, dir, fs, disk, now, outcome)
    {
      var resolved: Option<string>;
      if Join(dir, fileName) in fs.existing {
        resolved := Some(Join(dir, fileName));
      } else {
        resolved := FindProjectFile(dir, fileName, fs, now, outcome);
      }
      if resolved.None? {
        return MappingRecord(index, fileName, position, FileNotFound);
      }
      var wb := LoadProjectFile(resolved.value, fileHash, fs, disk, now, outcome);
      var (sheet, ref) := SplitPosition(position, wb);
      var content := FindContentByReference(wb, sheet, ref, now, outcome);
      record := MappingRecord(index, fileName, position, Looked(sheet, ref, content, resolved.value));
    }

    /**
     * `process_translation_mapping` with the cache: without a mapping frame or
     * its two columns the result is `[]` and nothing changes; otherwise one
     * record per complete row, in row order, which also becomes
     * `translationResults`. The whole run sees one clock reading and one state of the files.
     */
    method ProcessTranslationMapping(mapping: Option<Frame<string>>, dir: string, fileHash: string -> string,
                                     fs: FileSystem,
                                     disk: map<string, Workbook>, now: int, outcome: WriteOutcome)
      returns (results: seq<MappingRecord>)
      requires Valid()
      modifies this, cache.memory, cache.file
      ensures Valid()
      ensures cacheHits >= old(cacheHits) && cacheMisses >= old(cacheMisses)
      ensures mapping.None? || MappingColumns(mapping.value.columns).None? ==>
                && results == [] && translationResults == old(translationResults)
                && cache.Layers() == old(cache.Layers())
                && cacheHits == old(cacheHits) && cacheMisses == old(cacheMisses)
      ensures mapping.Some? && MappingColumns(mapping.value.columns).Some? ==>
                var df, cols := mapping.value, MappingColumns(mapping.value.columns).value;
                var names := FieldColumn(df.rows, ColumnIndex(df.columns, cols.0));
                var positions := FieldColumn(df.rows, ColumnIndex(df.columns, cols.1));
                && translationResults == results
                && (results, State()) == CachedRows(cache.Config(), old(State()), fileHash, names, positions, |df.rows|,
                                                    dir, fs, disk, now, outcome)
                && RecordsFor(names, positions, |df.rows|, results)
    {
      if mapping.None? {
        return [];
      }
      var df := mapping.value;
      var cols := MappingColumns(df.columns);
      if cols.None? {
        return [];
      }
      var names := FieldColumn(df.rows, ColumnIndex(df.columns, cols.value.0));
      var positions := FieldColumn(df.rows, ColumnIndex(df.columns, cols.value.1));
      results := TranslateAll(names, positions, dir, fileHash, fs, disk, now, outcome);
      translationResults := results;
    }

    /** One row of the row loop: a complete row's record joins the results, any other row is skipped. */
    method StepRow(names: seq<string>, positions: seq<string>, ghost start: CacheRun, i: nat, results: seq<MappingRecord>,
                   dir: string, fileHash: string -> string, fs: FileSystem, disk: map<string, Workbook>, now: int,
                   outcome: WriteOutcome)
      returns (next: seq<MappingRecord>)
      requires Valid() && i < |names| == |positions|
      requires (results, State()) == CachedRows(cache.Config(), start, fileHash, names, positions, i, dir, fs, disk, now, outcome)
      modifies this, cache.memory, cache.file
      ensures Valid() && translationResults == old(translationResults)
      ensures (next, State()) == CachedRows(cache.Config(), start, fileHash, names, positions, i + 1, dir, fs, disk, now, outcome)
    {
      if names[i] != "" && positions[i] != "" {
        var record := TranslateRow(i + 1, names[i], positions[i], dir, fileHash, fs, disk, now, outcome);
        next := results + [record];
      } else {
        next := results;
      }
    }

    /** The row loop, given each row's stripped file name and position. */
    method TranslateAll(names: seq<string>, positions: seq<string>, dir: string, fileHash: string -> string,
                        fs: FileSystem,
                        disk: map<string, Workbook>, now: int, outcome: WriteOutcome) returns (results: seq<MappingRecord>)
      requires Valid() && |names| == |positions|
      modifies this, cache.memory, cache.file
      ensures Valid() && translationResults == old(translationResults)
      ensures (results, State())
              == CachedRows(cache.Config(), old(State()), fileHash, names, positions, |names|, dir, fs, disk, now, outcome)
    {
      results := [];
      var i := 0;
      while i < |names|
        invariant 0 <= i <= |names|
        invariant Valid() && translationResults == old(translationResults)
        invariant (results, State())
                  == CachedRows(cache.Config(), old(State()), fileHash, names, positions, i, dir, fs, disk, now, outcome)
      {
        results := StepRow(names, positions, old(State()), i, results, dir, fileHash, fs, disk, now, outcome);
        i := i + 1;
      }
    }

    /** `_create_statistics`: `None` (the source's `[]`) for no results; errors are the non-successes. */
    method CreateStatistics() returns (stats: Option<CachedStatistics>)
      ensures stats.None? <==> translationResults == []
      ensures stats.Some? ==>
                && stats.value.total == |translationResults|
                && stats.value.success == CountSuccess(translationResults)
                && stats.value.success + stats.value.error == stats.value.total
                && stats.value.hits == cacheHits && stats.value.misses == cacheMisses
    {
      var rs := translationResults;
      if rs == [] {
        return None;
      }
      var success := 0;
      var i := 0;
      while i < |rs|
        invariant 0 <= i <= |rs|
        invariant success == CountSuccess(rs[..i])
      {
        assert rs[..i + 1][..i] == rs[..i];
        if StatusOf(rs[i]) == Success {
          success := success + 1;
        }
        i := i + 1;
      }
      assert rs[..|rs|] == rs;
      stats := Some(CachedStatistics(|rs|, success, |rs| - success, cacheHits, cacheMisses));
    }

    /** `get_cache_stats`: the manager's statistics with the translator's counters. */
    method GetCacheStats() returns (report: CacheReport)
      requires Valid()
      ensures report.hits == cacheHits && report.misses == cacheMisses
      ensures report.manager.memory == MemStatsOf(cache.memory.State(), cache.memory.maxSize)
      ensures report.manager.fileCount.Some? <==> cache.useFileCache
      ensures cache.useFileCache ==> report.manager.fileCount.value == |cache.file.files|
    {
      var m := cache.GetStats();
      report := CacheReport(m, cacheHits, cacheMisses);
    }

    /** `clear_cache`: both layers emptied and both counters reset. */
    method ClearCache()
      requires Valid()
      modifies this, cache.memory, cache.file
      ensures Valid() && translationResults == old(translationResults)
      ensures cache.Layers() == ManagerClear(cache.Config(), old(cache.Layers()))
      ensures cacheHits == 0 && cacheMisses == 0
    {
      cache.Clear();
      cacheHits := 0;
      cacheMisses := 0;
    }

    /** `cleanup_expired_cache`: the manager's clean-up of both layers and its figures; the counters stay. */
    method CleanupExpiredCache(now: int) returns (result: ManagerCleanup)
      requires Valid()
      modifies cache.memory, cache.file
      ensures Valid()
      ensures cache.memory.State() == MemCleanup(old(cache.memory.State()), now).state
      ensures result.memoryCleaned == MemCleanup(old(cache.memory.State()), now).removed
      ensures result.fileCleaned.Some? <==> cache.useFileCache
      ensures cache.useFileCache ==> cache.file.files == Unexpired(old(cache.file.files), now)
                                     && result.fileCleaned.value + |cache.file.files| == |old(cache.file.files)|
    {
      result := cache.CleanupExpired(now);
    }
  }
}
