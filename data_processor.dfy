/**
 * The Excel data processor: it splits a sheet into groups by the values of one
 * column, names the resulting sheets and files, writes one file per group
 * (skipping files that already exist) and builds the summary sheet.
 */
module DataProcessor {
  import opened Wrappers
  import opened Collections
  import opened Text
  import opened Frames

  // ---------------------------------------------------------------- cell values

  /** A value of the grouping column: an integer or a text. */
  datatype Value = Num(n: int) | Txt(s: string)

  /** `str(value)`. */
  function ValueText(v: Value): string {
    match v
    case Num(n) => IntToString(n)
    case Txt(s) => s
  }

  /** `str(cell)` for a cell that may be NaN. */
  function CellText(c: Option<Value>): string {
    match c
    case None => "nan"
    case Some(v) => ValueText(v)
  }

  /** A number and the text of its digits are different values with the same `str`. */
  lemma NumberAndTextCollide(n: nat)
    ensures Num(n) != Txt(NatToString(n))
    ensures ValueText(Num(n)) == ValueText(Txt(NatToString(n)))
  {
  }

  // ---------------------------------------------------------------- the order of the groups

  /** Python's string order: lexicographic by code point. */
  predicate TextBefore(a: string, b: string) {
    if a == [] then b != []
    else b != [] && (a[0] < b[0] || (a[0] == b[0] && TextBefore(a[1..], b[1..])))
  }

  lemma {:induction false} TextBeforeAsymmetric(a: string, b: string)
    requires TextBefore(a, b)
    ensures !TextBefore(b, a)
  {
    if a != [] && a[0] == b[0] {
      TextBeforeAsymmetric(a[1..], b[1..]);
    }
  }

  /** The order in which `groupby` yields mixed keys: numbers ascending, then texts in string order. */
  predicate ValueBefore(a: Value, b: Value) {
    match (a, b)
    case (Num(x), Num(y)) => x < y
    case (Num(_), Txt(_)) => true
    case (Txt(_), Num(_)) => false
    case (Txt(x), Txt(y)) => TextBefore(x, y)
  }

  lemma ValueBeforeAsymmetric(a: Value, b: Value)
    requires ValueBefore(a, b)
    ensures !ValueBefore(b, a)
  {
    if a.Txt? && b.Txt? {
      TextBeforeAsymmetric(a.s, b.s);
    }
  }

  /** No neighbour comes before its predecessor. */
  predicate Sorted(s: seq<Value>) {
    forall i :: 0 < i < |s| ==> !ValueBefore(s[i], s[i - 1])
  }

  function Insert(v: Value, s: seq<Value>): (r: seq<Value>)
    ensures multiset(r) == multiset(s) + multiset{v}
    ensures Sorted(s) ==> Sorted(r)
    ensures r != [] && (r[0] == v || (s != [] && r[0] == s[0]))
  {
    if s == [] || !ValueBefore(s[0], v) then [v] + s
    else
      assert s == [s[0]] + s[1..];
      ValueBeforeAsymmetric(s[0], v);
      [s[0]] + Insert(v, s[1..])
  }

  /** Sorting of the distinct keys, as an insertion sort. */
  function SortValues(s: seq<Value>): (r: seq<Value>)
    ensures multiset(r) == multiset(s)
    ensures Sorted(r)
  {
    if s == [] then []
    else
      assert s == [s[0]] + s[1..];
      Insert(s[0], SortValues(s[1..]))
  }

  // ---------------------------------------------------------------- grouping

  /** The values of column `j` in the first `m` rows, NaN cells dropped. */
  function KeyValues(df: Frame<Value>, j: nat, m: nat): seq<Value>
    requires m <= |df.rows|
  {
    if m == 0 then []
    else
      var init := KeyValues(df, j, m - 1);
      match CellAt(df, m - 1, j)
      case None => init
      case Some(v) => init + [v]
  }

  lemma {:induction false} KeyValuesSpec(df: Frame<Value>, j: nat, m: nat, v: Value)
    requires m <= |df.rows|
    ensures v in KeyValues(df, j, m) <==> exists i :: 0 <= i < m && CellAt(df, i, j) == Some(v)
  {
    if m > 0 {
      KeyValuesSpec(df, j, m - 1, v);
    }
  }

  /** The group keys of `df.groupby(column j)` in iteration order: the distinct non-NaN values, sorted. */
  function GroupOrder(df: Frame<Value>, j: nat): seq<Value> {
    SortValues(Dedup(KeyValues(df, j, |df.rows|)))
  }

  /** The groups are exactly the values present in the column, in sorted order: NaN forms no group. */
  lemma GroupOrderSpec(df: Frame<Value>, j: nat, v: Value)
    ensures Sorted(GroupOrder(df, j))
    ensures v in GroupOrder(df, j) <==> exists i :: 0 <= i < |df.rows| && CellAt(df, i, j) == Some(v)
  {
    var d := Dedup(KeyValues(df, j, |df.rows|));
    assert v in GroupOrder(df, j) <==> v in multiset(d);
    KeyValuesSpec(df, j, |df.rows|, v);
  }

  /** The rows among the first `m` whose column `j` holds `v`, in order. */
  function RowsWith(df: Frame<Value>, j: nat, v: Value, m: nat): seq<seq<Option<Value>>>
    requires m <= |df.rows|
  {
    if m == 0 then []
    else RowsWith(df, j, v, m - 1) + (if CellAt(df, m - 1, j) == Some(v) then [df.rows[m - 1]] else [])
  }

  lemma {:induction false} RowsWithSpec(df: Frame<Value>, j: nat, v: Value, m: nat)
    requires m <= |df.rows|
    ensures |RowsWith(df, j, v, m)| <= m
    ensures forall r :: r in RowsWith(df, j, v, m) ==> RowCell(r, j) == Some(v)
  {
    if m > 0 {
      RowsWithSpec(df, j, v, m - 1);
    }
  }

  /** `group_df.reset_index(drop=True)`: the rows of one group under the original columns. */
  function GroupFrame(df: Frame<Value>, j: nat, v: Value): Frame<Value> {
    Frame(df.columns, RowsWith(df, j, v, |df.rows|))
  }

  /** `split_data` after the loop over the groups in `order`, each stored under `str(value)`. */
  function SplitData(df: Frame<Value>, j: nat, order: seq<Value>): Dict<string, Frame<Value>> {
    if order == [] then []
    else
      var last := order[|order| - 1];
      Put(SplitData(df, j, order[..|order| - 1]), ValueText(last), GroupFrame(df, j, last))
  }

  /** The keys `str(value)` of `order`. */
  function Texts(order: seq<Value>): (r: seq<string>)
    ensures |r| == |order| && forall i :: 0 <= i < |order| ==> r[i] == ValueText(order[i])
  {
    if order == [] then [] else Texts(order[..|order| - 1]) + [ValueText(order[|order| - 1])]
  }

  /** The last position in `order` whose value has text `k`, or -1. */
  function LastWithText(order: seq<Value>, k: string): (i: int)
    ensures -1 <= i < |order|
    ensures i >= 0 ==> ValueText(order[i]) == k
    ensures forall l :: i < l < |order| ==> ValueText(order[l]) != k
  {
    if order == [] then -1
    else if ValueText(order[|order| - 1]) == k then |order| - 1
    else LastWithText(order[..|order| - 1], k)
  }

  /** The keys of `split_data` are the distinct `str` forms of the groups, in first-seen order. */
  lemma {:induction false} SplitDataKeys(df: Frame<Value>, j: nat, order: seq<Value>)
    ensures Keys(SplitData(df, j, order)) == Dedup(Texts(order))
  {
    if order != [] {
      var init := order[..|order| - 1];
      var last := order[|order| - 1];
      SplitDataKeys(df, j, init);
      PutKeys(SplitData(df, j, init), ValueText(last), GroupFrame(df, j, last));
      assert Texts(order) == Texts(init) + [ValueText(last)];
      DedupSnoc(Texts(init), ValueText(last));
    }
  }

  /** Under each key lies the group of the LAST value with that `str`: earlier groups are overwritten. */
  lemma {:induction false} SplitDataGet(df: Frame<Value>, j: nat, order: seq<Value>, k: string)
    ensures var i := LastWithText(order, k);
            Get(SplitData(df, j, order), k) == if i < 0 then None else Some(GroupFrame(df, j, order[i]))
  {
    if order != [] {
      var init := order[..|order| - 1];
      var last := order[|order| - 1];
      PutGet(SplitData(df, j, init), ValueText(last), GroupFrame(df, j, last), k);
      if ValueText(last) != k {
        SplitDataGet(df, j, init, k);
      }
    }
  }

  /** The grouping column: the given one, or the first column. */
  function GroupColumn(df: Frame<Value>, groupColumn: Option<string>): string
    requires groupColumn.Some? || |df.columns| > 0
  {
    match groupColumn
    case Some(c) => c
    case None => df.columns[0]
  }

  function MissingColumnMessage(col: string): string {
    "分组列 '" + col + "' 不存在"
  }

  /** What `process_by_column_a` returns or raises. */
  function Grouped(df: Frame<Value>, groupColumn: Option<string>): Result<Dict<string, Frame<Value>>> {
    if IsEmpty(df) then Ok([])
    else
      var col := GroupColumn(df, groupColumn);
      var j := ColumnIndex(df.columns, col);
      if j < 0 then Raised(MissingColumnMessage(col))
      else Ok(SplitData(df, j, GroupOrder(df, j)))
  }

  /** An empty frame gives `{}`, a missing column raises, and the default column is the first. */
  lemma GroupedSpec(df: Frame<Value>, groupColumn: Option<string>)
    ensures IsEmpty(df) ==> Grouped(df, groupColumn) == Ok([])
    ensures !IsEmpty(df) ==> (Grouped(df, groupColumn).Raised? <==> GroupColumn(df, groupColumn) !in df.columns)
    ensures !IsEmpty(df) && groupColumn.None? ==> Grouped(df, groupColumn) == Ok(SplitData(df, 0, GroupOrder(df, 0)))
  {
  }

  /** With an existing column, the keys are the distinct `str` forms and each holds its last group. */
  lemma GroupedKeys(df: Frame<Value>, groupColumn: Option<string>, k: string)
    requires Grouped(df, groupColumn).Ok? && !IsEmpty(df)
    ensures var j := ColumnIndex(df.columns, GroupColumn(df, groupColumn));
            var order := GroupOrder(df, j);
            var i := LastWithText(order, k);
            && Keys(Grouped(df, groupColumn).value) == Dedup(Texts(order))
            && Get(Grouped(df, groupColumn).value, k) == if i < 0 then None else Some(GroupFrame(df, j, order[i]))
  {
    var j := ColumnIndex(df.columns, GroupColumn(df, groupColumn));
    SplitDataKeys(df, j, GroupOrder(df, j));
    SplitDataGet(df, j, GroupOrder(df, j), k);
  }

  // ---------------------------------------------------------------- sheet names

  const SheetInvalidChars: seq<char> := ['\\', '/', '*', '?', ':', '[', ']']
  const DefaultSheetName := "数据"
  const SummarySheetName := "汇总信息"

  /** `_clean_sheet_name`: invalid characters become `_`, whitespace is stripped, `"数据"` replaces nothing. */
  function CleanedSheetName(name: string): string {
    var s := Strip(ReplaceAll(name, SheetInvalidChars, '_'));
    if s == [] then DefaultSheetName else s
  }

  /** A clean sheet name is non-empty, free of invalid characters and of surrounding whitespace. */
  predicate IsCleanSheetName(s: string) {
    && s != []
    && (forall c :: c in s ==> c !in SheetInvalidChars)
    && !IsSpace(s[0]) && !IsSpace(s[|s| - 1])
  }

  lemma DefaultSheetNameIsClean()
    ensures IsCleanSheetName(DefaultSheetName)
  {
  }

  /** The cleaned sheet name satisfies `IsCleanSheetName`. */
  lemma CleanedSheetNameSpec(name: string)
    ensures IsCleanSheetName(CleanedSheetName(name))
  {
    var t := ReplaceAll(name, SheetInvalidChars, '_');
    ReplaceAllAvoids(name, SheetInvalidChars, '_');
    StripInside(t);
    DefaultSheetNameIsClean();
  }

  /** Stripping a string that neither starts nor ends with whitespace changes nothing. */
  lemma StripFixed(s: string)
    requires s != [] ==> !IsSpace(s[0]) && !IsSpace(s[|s| - 1])
    ensures Strip(s) == s
  {
  }

  /** Cleaning a cleaned sheet name changes nothing. */
  lemma CleanedSheetNameIdempotent(name: string)
    ensures CleanedSheetName(CleanedSheetName(name)) == CleanedSheetName(name)
  {
    var s := CleanedSheetName(name);
    CleanedSheetNameSpec(name);
    ReplaceAllAbsent(s, SheetInvalidChars, '_');
    StripFixed(s);
  }

  /** `_clean_sheet_name`. */
  method CleanSheetName(name: string) returns (cleanName: string)
    ensures cleanName == CleanedSheetName(name)
  {
    cleanName := ReplaceEach(name, SheetInvalidChars, '_');
    cleanName := Strip(cleanName);
    if cleanName == [] {
      cleanName := DefaultSheetName;
    }
  }

  /** `f"{n:03d}"`. */
  function Pad3(n: nat): string {
    var d := NatToString(n);
    if |d| >= 3 then d else seq(3 - |d|, _ => '0') + d
  }

  lemma NatToStringShort(n: nat)
    requires n < 1000
    ensures |NatToString(n)| <= 3
  {
    if n >= 10 {
      assert NatToString(n) == NatToString(n / 10) + [DigitChar(n % 10)];
      if n / 10 >= 10 {
        assert NatToString(n / 10) == NatToString(n / 10 / 10) + [DigitChar(n / 10 % 10)];
      }
    }
  }

  lemma Pad3Length(n: nat)
    requires n < 1000
    ensures |Pad3(n)| == 3
  {
    NatToStringShort(n);
  }

  /** The sheet name of `create_processed_excel` as written: over 31 characters, the first 28 plus `_` and the counter. */
  function TruncatedSheetName(clean: string, count: nat): string {
    if |clean| > 31 then clean[..28] + "_" + Pad3(count) else clean
  }

  /** As written, a truncated name has 32 characters, one more than a sheet name may have. */
  lemma TruncatedSheetNameTooLong(clean: string, count: nat)
    requires |clean| > 31 && count < 1000
    ensures |TruncatedSheetName(clean, count)| == 32
  {
    Pad3Length(count);
  }

  /** The evidently intended truncation: 27 characters, `_` and the counter. */
  function BoundedSheetName(clean: string, count: nat): string {
    if |clean| > 31 then clean[..27] + "_" + Pad3(count) else clean
  }

  lemma BoundedSheetNameFits(clean: string, count: nat)
    requires count < 1000
    ensures |BoundedSheetName(clean, count)| <= 31
    ensures |clean| <= 31 ==> BoundedSheetName(clean, count) == clean
    ensures |clean| > 31 ==> BoundedSheetName(clean, count)[..27] == clean[..27]
  {
    Pad3Length(count);
  }

  /** The group sheet names of `create_processed_excel` for the group keys `keys`, counter = position. */
  function SheetNames(keys: seq<string>, prefix: string): (r: seq<string>)
    ensures |r| == |keys|
  {
    if keys == [] then []
    else
      var init := keys[..|keys| - 1];
      SheetNames(init, prefix) + [BoundedSheetName(CleanedSheetName(prefix + keys[|keys| - 1]), |init|)]
  }

  lemma SheetNamesSnoc(keys: seq<string>, prefix: string, k: nat)
    requires k < |keys|
    ensures SheetNames(keys[..k + 1], prefix)
            == SheetNames(keys[..k], prefix) + [BoundedSheetName(CleanedSheetName(prefix + keys[k]), k)]
  {
    assert keys[..k + 1][..k] == keys[..k];
  }

  /** The `i`-th sheet is the cleaned `prefix + key`, cut with counter `i` when too long. */
  lemma {:induction false} SheetNamesAt(keys: seq<string>, prefix: string, i: nat)
    requires i < |keys|
    ensures SheetNames(keys, prefix)[i] == BoundedSheetName(CleanedSheetName(prefix + keys[i]), i)
  {
    if i < |keys| - 1 {
      var init := keys[..|keys| - 1];
      SheetNamesAt(init, prefix, i);
      assert SheetNames(keys, prefix)[i] == SheetNames(init, prefix)[i];
    }
  }

  /** With fewer than a thousand groups every sheet name fits Excel's 31-character limit. */
  lemma SheetNamesFit(keys: seq<string>, prefix: string, i: nat)
    requires i < |keys| < 1000
    ensures |SheetNames(keys, prefix)[i]| <= 31
  {
    SheetNamesAt(keys, prefix, i);
    BoundedSheetNameFits(CleanedSheetName(prefix + keys[i]), i);
  }

  // ---------------------------------------------------------------- file names

  const FileInvalidChars: seq<char> := ['\\', '/', ':', '*', '?', '"', '<', '>', '|']
  const MaxFilename := 200
  const XlsxSuffix := ".xlsx"
  const DefaultOutputName := "处理结果.xlsx"
  const FallbackStem := "拆分结果"

  predicate IsSpaceOrDot(c: char) { c == ' ' || c == '.' }

  /** The first 200 characters of a name longer than that. */
  function CutFilename(s: string): string {
    if |s| > MaxFilename then s[..MaxFilename] else s
  }

  /** `_clean_filename`: invalid characters become `_`, spaces and dots are stripped, 200 characters kept. */
  function CleanedFilename(name: string): string {
    CutFilename(StripBy(ReplaceAll(name, FileInvalidChars, '_'), IsSpaceOrDot))
  }

  /** Stripping spaces and dots, then keeping 200 characters. */
  lemma StripTakeShape(t: string)
    ensures var s := StripBy(t, IsSpaceOrDot);
            var r := CutFilename(s);
            && |r| <= MaxFilename
            && (forall c :: c in r ==> c in t)
            && (r != [] ==> !IsSpaceOrDot(r[0]))
            && (r != [] && IsSpaceOrDot(r[|r| - 1]) ==> |s| > MaxFilename)
  {
    var s := StripBy(t, IsSpaceOrDot);
    var r := CutFilename(s);
    forall c | c in r ensures c in t {
      assert c in s;
    }
    if r != [] {
      assert r[0] == s[0];
    }
  }

  /**
   * A cleaned file name has at most 200 characters, none of the invalid ones, no leading space or
   * dot, and ends in a space or dot only when the cut at 200 exposed one.
   */
  lemma CleanedFilenameSpec(name: string)
    ensures var r := CleanedFilename(name);
            && |r| <= MaxFilename
            && (forall c :: c in r ==> c !in FileInvalidChars)
            && (r != [] ==> !IsSpaceOrDot(r[0]))
            && (r != [] && IsSpaceOrDot(r[|r| - 1]) ==>
                  |StripBy(ReplaceAll(name, FileInvalidChars, '_'), IsSpaceOrDot)| > MaxFilename)
  {
    ReplaceAllAvoids(name, FileInvalidChars, '_');
    StripTakeShape(ReplaceAll(name, FileInvalidChars, '_'));
  }

  /** `_clean_filename`. */
  method CleanFilename(filename: string) returns (cleanName: string)
    ensures cleanName == CleanedFilename(filename)
  {
    cleanName := ReplaceEach(filename, FileInvalidChars, '_');
    cleanName := StripBy(cleanName, IsSpaceOrDot);
    if |cleanName| > MaxFilename {
      cleanName := cleanName[..MaxFilename];
    }
  }

  /** `.xlsx` appended unless already there. */
  function WithXlsx(f: string): (r: string)
    ensures EndsWith(r, XlsxSuffix)
    ensures EndsWith(f, XlsxSuffix) ==> r == f
  {
    if EndsWith(f, XlsxSuffix) then f
    else
      var r := f + XlsxSuffix;
      assert r[|r| - |XlsxSuffix|..] == XlsxSuffix;
      r
  }

  /** The cleaned `str` of the first unique value, `"拆分结果"` when nothing is left, as an `.xlsx` name. */
  function FilenameFromValue(text: string): string {
    var f := CleanedFilename(text);
    WithXlsx(if f == [] then FallbackStem else f)
  }

  /** `_generate_filename_from_data`: the cleaned first value of the grouping column, as an `.xlsx` name. */
  function GeneratedFilename(df: Frame<Value>, groupColumn: Option<string>): string {
    if IsEmpty(df) then DefaultOutputName
    else
      FilenameFromFirstRow(df.columns, df.rows[0], groupColumn)
  }

  /** The name generated from a non-empty frame with columns `columns` and first row `row`. */
  function FilenameFromFirstRow(columns: seq<string>, row: seq<Option<Value>>, groupColumn: Option<string>): string
    requires columns != []
  {
    var col := match groupColumn case Some(c) => c case None => columns[0];
    var j := ColumnIndex(columns, col);
    if j < 0 then DefaultOutputName else FilenameFromValue(CellText(RowCell(row, j)))
  }

  /** The generated name ends in `.xlsx`, and only the header and the first row decide it. */
  lemma GeneratedFilenameIsXlsx(df: Frame<Value>, groupColumn: Option<string>)
    ensures EndsWith(GeneratedFilename(df, groupColumn), XlsxSuffix)
  {
    assert EndsWith(DefaultOutputName, XlsxSuffix);
  }

  /** Only the header and the first row decide the name: one unique value or many, the first is used. */
  lemma GeneratedFilenameFirstRow(df: Frame<Value>, groupColumn: Option<string>)
    ensures GeneratedFilename(df, groupColumn) == GeneratedFilename(Frame(df.columns, Take(df.rows, 1)), groupColumn)
  {
    var first := Frame(df.columns, Take(df.rows, 1));
    if !IsEmpty(df) {
      assert first.rows[0] == df.rows[0];
    }
  }

  /** The output file name of one group in `_create_separate_files`. */
  function GroupFileName(key: string): string {
    WithXlsx(CleanedFilename(key))
  }

  /** `os.path.join(output_folder, filename)` for the group key `key`. */
  function OutputPath(folder: string, key: string): string {
    Join(folder, GroupFileName(key))
  }

  /** The output path of every group key, for the folder `folder`. */
  function OutputPaths(folder: string): string -> string {
    key => OutputPath(folder, key)
  }

  // ---------------------------------------------------------------- one file per group

  /** The lists and the output folder's files during `_create_separate_files`. */
  datatype FilesRun = FilesRun(ok: bool, created: seq<string>, skipped: seq<string>, existing: set<string>)

  /**
   * The rest of `_create_separate_files` for the group keys `keys`: `pathOf` names each key's
   * file and `writeOk` says whether writing a path succeeds.
   */
  function SeparateFrom(keys: seq<string>, pathOf: string -> string, skip: bool, writeOk: string -> bool, st: FilesRun): FilesRun
    decreases |keys|
  {
    if keys == [] then st
    else
      var path := pathOf(keys[0]);
      if skip && path in st.existing then
        SeparateFrom(keys[1..], pathOf, skip, writeOk, st.(skipped := st.skipped + [path]))
      else if writeOk(path) then
        SeparateFrom(keys[1..], pathOf, skip, writeOk, st.(created := st.created + [path], existing := st.existing + {path}))
      else st.(ok := false)
  }

  /** One step of the run, at position `k` of the keys. */
  lemma SeparateStep(keys: seq<string>, k: nat, pathOf: string -> string, skip: bool, writeOk: string -> bool, st: FilesRun)
    requires k < |keys|
    ensures SeparateFrom(keys[k..], pathOf, skip, writeOk, st) ==
              var path := pathOf(keys[k]);
              if skip && path in st.existing then
                SeparateFrom(keys[k + 1..], pathOf, skip, writeOk, st.(skipped := st.skipped + [path]))
              else if writeOk(path) then
                SeparateFrom(keys[k + 1..], pathOf, skip, writeOk, st.(created := st.created + [path], existing := st.existing + {path}))
              else st.(ok := false)
  {
    assert keys[k..][0] == keys[k];
    assert keys[k..][1..] == keys[k + 1..];
  }

  /** The run only appends to the two lists, and every path it created was written successfully. */
  lemma {:induction false} SeparateAppends(keys: seq<string>, pathOf: string -> string, skip: bool,
                                           writeOk: string -> bool, st: FilesRun)
    ensures var r := SeparateFrom(keys, pathOf, skip, writeOk, st);
            && |st.created| <= |r.created| && r.created[..|st.created|] == st.created
            && |st.skipped| <= |r.skipped| && r.skipped[..|st.skipped|] == st.skipped
            && (forall i :: |st.created| <= i < |r.created| ==> writeOk(r.created[i]))
  {
    if keys != [] {
      var path := pathOf(keys[0]);
      if skip && path in st.existing {
        var st' := st.(skipped := st.skipped + [path]);
        SeparateAppends(keys[1..], pathOf, skip, writeOk, st');
        var r := SeparateFrom(keys[1..], pathOf, skip, writeOk, st');
        assert r.skipped[..|st.skipped|] == r.skipped[..|st'.skipped|][..|st.skipped|];
      } else if writeOk(path) {
        var st' := st.(created := st.created + [path], existing := st.existing + {path});
        SeparateAppends(keys[1..], pathOf, skip, writeOk, st');
        var r := SeparateFrom(keys[1..], pathOf, skip, writeOk, st');
        assert r.created[..|st.created|] == r.created[..|st'.created|][..|st.created|];
      }
    }
  }

  /**
   * The run handles the keys in order and stops at the first failed write: on success every key
   * was created or skipped; on failure the key after the handled ones was neither skippable nor
   * writable.
   */
  lemma {:induction false} SeparateStopsAtFirstFailure(keys: seq<string>, pathOf: string -> string, skip: bool,
                                                       writeOk: string -> bool, st: FilesRun)
    requires st.ok
    ensures var r := SeparateFrom(keys, pathOf, skip, writeOk, st);
            var n := |r.created| + |r.skipped| - |st.created| - |st.skipped|;
            && (r.ok ==> n == |keys|)
            && (!r.ok ==> 0 <= n < |keys| && !writeOk(pathOf(keys[n])) && !(skip && pathOf(keys[n]) in r.existing))
  {
    SeparateAppends(keys, pathOf, skip, writeOk, st);
    if keys != [] {
      var path := pathOf(keys[0]);
      if skip && path in st.existing {
        SeparateStopsAtFirstFailure(keys[1..], pathOf, skip, writeOk, st.(skipped := st.skipped + [path]));
      } else if writeOk(path) {
        SeparateStopsAtFirstFailure(keys[1..], pathOf, skip, writeOk, st.(created := st.created + [path], existing := st.existing + {path}));
      }
    }
  }

  /** When every write succeeds, the run succeeds. */
  lemma SeparateSucceeds(keys: seq<string>, pathOf: string -> string, skip: bool, writeOk: string -> bool, st: FilesRun)
    requires st.ok
    requires forall i :: 0 <= i < |keys| ==> writeOk(pathOf(keys[i]))
    ensures SeparateFrom(keys, pathOf, skip, writeOk, st).ok
  {
    SeparateStopsAtFirstFailure(keys, pathOf, skip, writeOk, st);
  }

  /**
   * With `skip_duplicates`, no file that existed is written again: every path created by the run
   * was absent from the folder beforehand, and the created paths are distinct.
   */
  lemma {:induction false} SeparateSkipsExisting(keys: seq<string>, pathOf: string -> string, writeOk: string -> bool, st: FilesRun)
    requires forall p :: p in st.created ==> p in st.existing
    requires Distinct(st.created)
    ensures var r := SeparateFrom(keys, pathOf, true, writeOk, st);
            && (forall p :: p in r.created ==> p in r.existing)
            && st.existing <= r.existing
            && Distinct(r.created)
            && |st.created| <= |r.created|
            && (forall i :: |st.created| <= i < |r.created| ==> r.created[i] !in st.existing)
  {
    if keys != [] {
      var path := pathOf(keys[0]);
      if path in st.existing {
        SeparateSkipsExisting(keys[1..], pathOf, writeOk, st.(skipped := st.skipped + [path]));
      } else if writeOk(path) {
        var st' := st.(created := st.created + [path], existing := st.existing + {path});
        assert Distinct(st'.created) by {
          forall i, j | 0 <= i < j < |st'.created| ensures st'.created[i] != st'.created[j] {
            if j == |st.created| {
              assert st'.created[i] in st.created;
            }
          }
        }
        SeparateSkipsExisting(keys[1..], pathOf, writeOk, st');
        SeparateAppends(keys[1..], pathOf, true, writeOk, st');
        var r := SeparateFrom(keys[1..], pathOf, true, writeOk, st');
        assert r.created[|st.created|] == r.created[..|st'.created|][|st.created|];
      }
    }
  }

  // ---------------------------------------------------------------- the summary sheet

  /** The output path of one group in `_create_separate_files`. */
  method GroupOutputPath(outputFolder: string, key: string) returns (outputPath: string)
    ensures outputPath == OutputPaths(outputFolder)(key)
  {
    var filename := CleanFilename(key);
    if !EndsWith(filename, XlsxSuffix) {
      filename := filename + XlsxSuffix;
    }
    outputPath := Join(outputFolder, filename);
  }

  /** One row of the summary sheet: `{"项目": item, "值": value}`. */
  datatype SummaryRow = SummaryRow(item: string, value: nat)

  const GroupCountItem := "总分组数"
  const ColumnCountItem := "原始列数"
  const RowTotalItem := "总行数"

  function GroupCountLabel(key: string): string {
    "分组 '" + key + "' 行数"
  }

  /** One row per group: its key and its number of rows. */
  function GroupRowsSummary(data: Dict<string, Frame<Value>>): (r: seq<SummaryRow>)
    ensures |r| == |data|
  {
    if data == [] then []
    else
      var last := data[|data| - 1];
      GroupRowsSummary(data[..|data| - 1]) + [SummaryRow(GroupCountLabel(last.0), |last.1.rows|)]
  }

  /** The number of rows over all groups. */
  function RowTotal(data: Dict<string, Frame<Value>>): nat {
    if data == [] then 0 else RowTotal(data[..|data| - 1]) + |data[|data| - 1].1.rows|
  }

  /** The sum of the values of summary rows. */
  function SumValues(rows: seq<SummaryRow>): nat {
    if rows == [] then 0 else SumValues(rows[..|rows| - 1]) + rows[|rows| - 1].value
  }

  /** `_create_summary_data` for the groups `data` and `columnCount` original columns. */
  function Summary(data: Dict<string, Frame<Value>>, columnCount: nat): seq<SummaryRow> {
    [SummaryRow(GroupCountItem, |data|), SummaryRow(ColumnCountItem, columnCount)]
      + GroupRowsSummary(data)
      + [SummaryRow(RowTotalItem, RowTotal(data))]
  }

  lemma {:induction false} GroupRowsSummaryAt(data: Dict<string, Frame<Value>>, i: nat)
    requires i < |data|
    ensures GroupRowsSummary(data)[i] == SummaryRow(GroupCountLabel(data[i].0), |data[i].1.rows|)
  {
    if i < |data| - 1 {
      GroupRowsSummaryAt(data[..|data| - 1], i);
    }
  }

  lemma {:induction false} RowTotalIsSum(data: Dict<string, Frame<Value>>)
    ensures RowTotal(data) == SumValues(GroupRowsSummary(data))
  {
    if data != [] {
      var init := data[..|data| - 1];
      RowTotalIsSum(init);
      var g := GroupRowsSummary(data);
      assert g[..|g| - 1] == GroupRowsSummary(init);
    }
  }

  /**
   * The summary has the group count, the column count, one row per group with its row count,
   * and last the total, which is the sum of the per-group rows.
   */
  lemma SummaryShape(data: Dict<string, Frame<Value>>, columnCount: nat)
    ensures var s := Summary(data, columnCount);
            && |s| == |data| + 3
            && s[0] == SummaryRow(GroupCountItem, |data|)
            && s[1] == SummaryRow(ColumnCountItem, columnCount)
            && (forall i :: 0 <= i < |data| ==> s[i + 2] == SummaryRow(GroupCountLabel(data[i].0), |data[i].1.rows|))
            && s[|data| + 2] == SummaryRow(RowTotalItem, SumValues(s[2..|data| + 2]))
  {
    var s := Summary(data, columnCount);
    assert s[2..|data| + 2] == GroupRowsSummary(data);
    RowTotalIsSum(data);
    forall i | 0 <= i < |data|
      ensures s[i + 2] == SummaryRow(GroupCountLabel(data[i].0), |data[i].1.rows|)
    {
      GroupRowsSummaryAt(data, i);
    }
  }

  // ---------------------------------------------------------------- the processor

  /**
   * The loop of `create_processed_excel` naming one sheet per group key, `sheet_count` counting them;
   * a long name keeps 27 characters here, where the source keeps 28 (see `TruncatedSheetName`).
   */
  method GroupSheetNames(keys: seq<string>, sheetPrefix: string) returns (sheets: seq<string>)
    ensures sheets == SheetNames(keys, sheetPrefix)
  {
    sheets := [];
    var sheetCount := 0;
    while sheetCount < |keys|
      invariant 0 <= sheetCount <= |keys|
      invariant sheets == SheetNames(keys[..sheetCount], sheetPrefix)
    {
      SheetNamesSnoc(keys, sheetPrefix, sheetCount);
      var cleanSheetName := CleanSheetName(sheetPrefix + keys[sheetCount]);
      if |cleanSheetName| > 31 {
        cleanSheetName := cleanSheetName[..27] + "_" + Pad3(sheetCount);
      }
      sheets := sheets + [cleanSheetName];
      sheetCount := sheetCount + 1;
    }
    assert keys[..|keys|] == keys;
  }

  /** The loop of `process_by_column_a` over the groups `grouped`, storing each under `str(value)`. */
  method SplitGroups(df: Frame<Value>, j: nat, grouped: seq<Value>) returns (splitData: Dict<string, Frame<Value>>)
    ensures splitData == SplitData(df, j, grouped)
  {
    splitData := [];
    var k := 0;
    while k < |grouped|
      invariant 0 <= k <= |grouped|
      invariant splitData == SplitData(df, j, grouped[..k])
    {
      PrefixSnoc(grouped, k);
      assert grouped[..k + 1][..k] == grouped[..k];
      splitData := Put(splitData, ValueText(grouped[k]), GroupFrame(df, j, grouped[k]));
      k := k + 1;
    }
    assert grouped[..|grouped|] == grouped;
  }

  /** `ExcelDataProcessor`: the groups of the last split and the columns of the frame they came from. */
  class ExcelDataProcessor {
    var consolidatedData: Dict<string, Frame<Value>>
    var originalColumns: seq<string>

    constructor()
      ensures consolidatedData == [] && originalColumns == []
    {
      consolidatedData := [];
      originalColumns := [];
    }

    /** `process_by_column_a`: on success the groups and the columns are kept; otherwise nothing changes. */
    method ProcessByColumnA(df: Frame<Value>, groupColumn: Option<string>) returns (r: Result<Dict<string, Frame<Value>>>)
      modifies this
      ensures r == Grouped(df, groupColumn)
      ensures r.Ok? && !IsEmpty(df) ==> consolidatedData == r.value && originalColumns == df.columns
      ensures r.Raised? || IsEmpty(df) ==>
                consolidatedData == old(consolidatedData) && originalColumns == old(originalColumns)
    {
      if IsEmpty(df) {
        return Ok([]);
      }
      var col := GroupColumn(df, groupColumn);
      var j := ColumnIndex(df.columns, col);
      if j < 0 {
        return Raised(MissingColumnMessage(col));
      }
      var splitData := SplitGroups(df, j, GroupOrder(df, j));
      originalColumns := df.columns;
      consolidatedData := splitData;
      r := Ok(splitData);
    }

    /** `_create_summary_data`. */
    method CreateSummaryData() returns (summary: seq<SummaryRow>)
      ensures summary == Summary(consolidatedData, |originalColumns|)
    {
      var data := consolidatedData;
      var head := [SummaryRow(GroupCountItem, |data|), SummaryRow(ColumnCountItem, |originalColumns|)];
      summary := head;
      var totalRows := 0;
      var k := 0;
      while k < |data|
        invariant 0 <= k <= |data|
        invariant summary == head + GroupRowsSummary(data[..k])
        invariant totalRows == RowTotal(data[..k])
      {
        PrefixSnoc(data, k);
        assert data[..k + 1][..k] == data[..k];
        var rowCount := |data[k].1.rows|;
        totalRows := totalRows + rowCount;
        summary := summary + [SummaryRow(GroupCountLabel(data[k].0), rowCount)];
        k := k + 1;
      }
      assert data[..|data|] == data;
      summary := summary + [SummaryRow(RowTotalItem, totalRows)];
    }

    /**
     * `create_processed_excel`: `false` without groups; otherwise one sheet per group, named with
     * the corrected truncation (see `BoundedSheetName`), then the summary sheet when asked for; the result is
     * whether writing the workbook to `outputPath` succeeds.
     */
    method CreateProcessedExcel(outputPath: string, includeSummary: bool, sheetPrefix: string, writeOk: string -> bool)
      returns (ok: bool, sheets: seq<string>)
      ensures consolidatedData == [] ==> !ok && sheets == []
      ensures consolidatedData != [] ==>
                && ok == writeOk(outputPath)
                && sheets == SheetNames(Keys(consolidatedData), sheetPrefix)
                             + (if includeSummary then [SummarySheetName] else [])
    {
      if consolidatedData == [] {
        return false, [];
      }
      sheets := GroupSheetNames(Keys(consolidatedData), sheetPrefix);
      if includeSummary {
        sheets := sheets + [SummarySheetName];
      }
      ok := writeOk(outputPath);
    }

    /**
     * `_create_separate_files`: one file per group in the output folder, skipping existing paths
     * when `skipDuplicates` holds and stopping at the first failed write.
     */
    method CreateSeparateFiles(outputFolder: string, skipDuplicates: bool, existing: set<string>, writeOk: string -> bool)
      returns (ok: bool, createdFiles: seq<string>, skippedFiles: seq<string>, existingAfter: set<string>)
      ensures FilesRun(ok, createdFiles, skippedFiles, existingAfter)
              == SeparateFrom(Keys(consolidatedData), OutputPaths(outputFolder), skipDuplicates, writeOk, FilesRun(true, [], [], existing))
    {
      var keys := Keys(consolidatedData);
      createdFiles, skippedFiles, existingAfter := [], [], existing;
      var k := 0;
      while k < |keys|
        invariant 0 <= k <= |keys|
        invariant SeparateFrom(keys[k..], OutputPaths(outputFolder), skipDuplicates, writeOk, FilesRun(true, createdFiles, skippedFiles, existingAfter))
                  == SeparateFrom(keys, OutputPaths(outputFolder), skipDuplicates, writeOk, FilesRun(true, [], [], existing))
      {
        var outputPath := GroupOutputPath(outputFolder, keys[k]);
        SeparateStep(keys, k, OutputPaths(outputFolder), skipDuplicates, writeOk,
                     FilesRun(true, createdFiles, skippedFiles, existingAfter));
        if skipDuplicates && outputPath in existingAfter {
          skippedFiles := skippedFiles + [outputPath];
        } else if writeOk(outputPath) {
          createdFiles := createdFiles + [outputPath];
          existingAfter := existingAfter + {outputPath};
        } else {
          return false, createdFiles, skippedFiles, existingAfter;
        }
        k := k + 1;
      }
      assert keys[|keys|..] == [];
      ok := true;
    }
  }
}
