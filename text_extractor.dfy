/**
 * The Excel text extractor: from the seventh row of every sheet on, each cell
 * whose text counts as text content is collected with its row's first-column
 * value; repeated texts are dropped, sheets whose seventh row marks them as
 * planner sheets are skipped, and a summary sheet and per-run statistics are
 * kept.
 */
module TextExtractor {
  import opened Wrappers
  import opened Collections
  import opened Text
  import opened Frames
  import Localization

  // ---------------------------------------------------------------- character classes

  /** `[一-鿿]`. */
  predicate IsChinese(c: char) { '\U{4E00}' <= c <= '\U{9FFF}' }

  /** `[Ḁ-ỿἀ-῿Ā-ſƀ-ɏ]`, the extractor's Vietnamese class. */
  predicate IsLatinExtended(c: char) { '\U{1E00}' <= c <= '\U{1FFF}' || '\U{0100}' <= c <= '\U{024F}' }

  predicate HasChinese(s: string) { exists i :: 0 <= i < |s| && IsChinese(s[i]) }
  predicate HasVietnamese(s: string) { exists i :: 0 <= i < |s| && IsLatinExtended(s[i]) }
  predicate HasEnglish(s: string) { exists i :: 0 <= i < |s| && IsAsciiLetter(s[i]) }

  // ---------------------------------------------------------------- text types

  const ChineseVietnamese := "中越混合"
  const ChineseEnglish := "中英混合"
  const VietnameseEnglish := "越英混合"
  const ChineseOnly := "中文"
  const VietnameseOnly := "越南文"
  const EnglishOnly := "英文"
  const OtherType := "其他"

  /** The decision table of `_analyze_text_type` over the three searches. */
  function TypeLabel(chinese: bool, vietnamese: bool, english: bool): string {
    if chinese && vietnamese then ChineseVietnamese
    else if chinese && english then ChineseEnglish
    else if vietnamese && english then VietnameseEnglish
    else if chinese then ChineseOnly
    else if vietnamese then VietnameseOnly
    else if english then EnglishOnly
    else OtherType
  }

  /** `_analyze_text_type`. */
  function AnalyzeTextType(text: string): string {
    TypeLabel(HasChinese(text), HasVietnamese(text), HasEnglish(text))
  }

  predicate NamesChinese(l: string) { l == ChineseVietnamese || l == ChineseEnglish || l == ChineseOnly }
  predicate NamesVietnamese(l: string) { l == ChineseVietnamese || l == VietnameseEnglish || l == VietnameseOnly }
  predicate NamesEnglish(l: string) { l == ChineseEnglish || l == VietnameseEnglish || l == EnglishOnly }

  /**
   * The label names Chinese exactly when there is Chinese, Vietnamese exactly when there is
   * Vietnamese, and English when there is English unless Chinese and Vietnamese are both present;
   * `其他` means none of the three.
   */
  lemma TypeLabelNames(chinese: bool, vietnamese: bool, english: bool)
    ensures var l := TypeLabel(chinese, vietnamese, english);
            && (NamesChinese(l) <==> chinese)
            && (NamesVietnamese(l) <==> vietnamese)
            && (NamesEnglish(l) <==> english && !(chinese && vietnamese))
            && (l == OtherType <==> !chinese && !vietnamese && !english)
  {
  }

  lemma AnalyzeTextTypeNames(text: string)
    ensures var l := AnalyzeTextType(text);
            && (NamesChinese(l) <==> HasChinese(text))
            && (NamesVietnamese(l) <==> HasVietnamese(text))
            && (NamesEnglish(l) <==> HasEnglish(text) && !(HasChinese(text) && HasVietnamese(text)))
            && (l == OtherType <==> !HasChinese(text) && !HasVietnamese(text) && !HasEnglish(text))
  {
    TypeLabelNames(HasChinese(text), HasVietnamese(text), HasEnglish(text));
  }

  /** `à` (U+00E0) lies below the extractor's Latin-extended ranges, so alone it is of type `其他`. */
  lemma GraveANotVietnamese(text: string)
    requires text == "à"
    ensures AnalyzeTextType(text) == OtherType
  {
    assert !HasVietnamese(text) by {
      forall i | 0 <= i < |text| ensures !IsLatinExtended(text[i]) {
        assert text[i] == 'à';
      }
    }
    assert !HasEnglish(text) by {
      forall i | 0 <= i < |text| ensures !IsAsciiLetter(text[i]) {
        assert text[i] == 'à';
      }
    }
  }

  // ---------------------------------------------------------------- text content

  /**
   * What the extractor cannot compute itself: whether Python's `float()` accepts a text, and
   * whether a character is a word character (`\w`) of Python's Unicode regular expressions.
   */
  datatype Oracles = Oracles(parsesAsFloat: string -> bool, isWordChar: char -> bool)

  /** `not text or len(text.strip()) == 0`. */
  predicate IsBlank(text: string) { Strip(text) == [] }

  /** `text.isdigit()` for ASCII digits. */
  predicate IsDigitText(text: string) { text != [] && AllDigits(text) }

  /** `re.match(r'^\d{4}-\d{2}-\d{2}$', text)`: `$` also lets one final newline through. */
  predicate IsDateText(text: string) {
    var t := DropFinalNewline(text);
    |t| == 10 && forall i :: 0 <= i < 10 ==> if i == 4 || i == 7 then t[i] == '-' else IsDigit(t[i])
  }

  /** `re.match(r'^\d{2}:\d{2}:\d{2}$', text)`, with the same final newline. */
  predicate IsTimeText(text: string) {
    var t := DropFinalNewline(text);
    |t| == 8 && forall i :: 0 <= i < 8 ==> if i == 2 || i == 5 then t[i] == ':' else IsDigit(t[i])
  }

  /** `[^\w\s\d]`: a character that is neither a word character nor whitespace. */
  predicate HasSymbol(o: Oracles, t: string) {
    exists i :: 0 <= i < |t| && !o.isWordChar(t[i]) && !IsSpace(t[i])
  }

  /** The early rejections of `_is_text_content`. */
  predicate Rejected(o: Oracles, t: string) {
    IsBlank(t) || IsDigitText(t) || IsDateText(t) || IsTimeText(t) || o.parsesAsFloat(t)
  }

  /** `_is_text_content`. */
  function IsTextContent(o: Oracles, text: string): bool {
    if IsBlank(text) then false
    else if IsDigitText(text) then false
    else if IsDateText(text) then false
    else if IsTimeText(text) then false
    else if o.parsesAsFloat(text) then false
    else if HasChinese(text) then true
    else if HasVietnamese(text) then true
    else if HasEnglish(text) then true
    else HasSymbol(o, text)
  }

  /** A text that is not rejected and has a type other than `其他` is text content. */
  lemma TypedTextIsContent(o: Oracles, t: string)
    requires !Rejected(o, t) && AnalyzeTextType(t) != OtherType
    ensures IsTextContent(o, t)
  {
    AnalyzeTextTypeNames(t);
  }

  /** A blank text is all whitespace. */
  lemma BlankIsSpace(t: string)
    requires IsBlank(t)
    ensures forall i :: 0 <= i < |t| ==> IsSpace(t[i])
  {
    var l := StripLeft(t);
    StripLeftSuffix(t);
    StripRightPrefix(l);
  }

  /** A date of the form `dddd-dd-dd` is rejected, bare or followed by one newline. */
  lemma DateTextRejected(o: Oracles, t: string)
    requires |t| == 10 && forall i :: 0 <= i < 10 ==> if i == 4 || i == 7 then t[i] == '-' else IsDigit(t[i])
    ensures !IsTextContent(o, t) && !IsTextContent(o, t + "\n")
  {
    assert t[9] != '\n';
    assert DropFinalNewline(t) == t;
    assert DropFinalNewline(t + "\n") == t;
  }

  /** A time of the form `dd:dd:dd` is rejected, bare or followed by one newline. */
  lemma TimeTextRejected(o: Oracles, t: string)
    requires |t| == 8 && forall i :: 0 <= i < 8 ==> if i == 2 || i == 5 then t[i] == ':' else IsDigit(t[i])
    ensures !IsTextContent(o, t) && !IsTextContent(o, t + "\n")
  {
    assert t[7] != '\n';
    assert DropFinalNewline(t) == t;
    assert DropFinalNewline(t + "\n") == t;
  }

  /** A text with a character other than a digit, `-`, `:` or a newline is neither a date nor a time. */
  lemma NotDateOrTime(t: string, i: nat)
    requires i < |t| && !IsDigit(t[i]) && t[i] != '-' && t[i] != ':' && t[i] != '\n'
    ensures !IsDateText(t) && !IsTimeText(t)
  {
    var s := DropFinalNewline(t);
    assert i < |s| && s[i] == t[i];
  }

  /** Text with a Chinese character is text content unless `float()` accepts it. */
  lemma ChineseTextIsContent(o: Oracles, t: string)
    requires HasChinese(t) && !o.parsesAsFloat(t)
    ensures IsTextContent(o, t)
  {
    var i :| 0 <= i < |t| && IsChinese(t[i]);
    if IsBlank(t) {
      BlankIsSpace(t);
      assert false;
    }
    assert !IsDigit(t[i]);
    NotDateOrTime(t, i);
  }

  // ---------------------------------------------------------------- sheet names

  const SheetInvalidChars: seq<char> := ['\\', '/', '*', '?', ':', '[', ']']
  const DefaultSheetName := "文本数据"
  const MaxSheetName := 31

  /** The last two steps of `_clean_sheet_name`: keep 31 characters, then fall back to `"文本数据"`. */
  function CutSheetName(s: string): string {
    var cut := if |s| > MaxSheetName then s[..MaxSheetName] else s;
    if cut == [] then DefaultSheetName else cut
  }

  /** `_clean_sheet_name` of the extractor: replace, strip, cut. */
  function CleanedSheetName(name: string): string {
    CutSheetName(Strip(ReplaceAll(name, SheetInvalidChars, '_')))
  }

  /** A name Excel accepts: non-empty, at most 31 characters, no invalid character, no leading whitespace. */
  predicate IsValidSheetName(s: string) {
    && s != []
    && |s| <= MaxSheetName
    && (forall c :: c in s ==> c !in SheetInvalidChars)
    && !IsSpace(s[0])
  }

  lemma DefaultSheetNameIsValid()
    ensures IsValidSheetName(DefaultSheetName)
  {
  }

  /** Cutting a name free of invalid characters and of leading whitespace gives a valid name. */
  lemma CutSheetNameIsValid(s: string)
    requires forall c :: c in s ==> c !in SheetInvalidChars
    requires s != [] ==> !IsSpace(s[0])
    ensures IsValidSheetName(CutSheetName(s))
  {
    DefaultSheetNameIsValid();
    if |s| > MaxSheetName {
      var cut := s[..MaxSheetName];
      forall c | c in cut ensures c !in SheetInvalidChars {
        var i :| 0 <= i < |cut| && cut[i] == c;
        assert s[i] == c;
      }
    }
  }

  /** Unlike the processor's sheet names, these always fit Excel's 31-character limit. */
  lemma CleanedSheetNameSpec(name: string)
    ensures IsValidSheetName(CleanedSheetName(name))
  {
    var t := ReplaceAll(name, SheetInvalidChars, '_');
    ReplaceAllAvoids(name, SheetInvalidChars, '_');
    StripInside(t);
    CutSheetNameIsValid(Strip(t));
  }

  method CleanSheetName(name: string) returns (cleanName: string)
    ensures cleanName == CleanedSheetName(name)
  {
    cleanName := ReplaceEach(name, SheetInvalidChars, '_');
    cleanName := Strip(cleanName);
    if |cleanName| > MaxSheetName {
      cleanName := cleanName[..MaxSheetName];
    }
    if cleanName == [] {
      cleanName := DefaultSheetName;
    }
  }

  // ---------------------------------------------------------------- the planner row

  const PlannerMark := "策划"
  /** Row index 6, the seventh row under the header: the planner row and the first scanned row. */
  const FirstRow := 6

  predicate PlannerCell(c: Option<string>) { c.Some? && Contains(Strip(c.value), PlannerMark) }

  /** `_is_planner_row`: at least seven rows, and some cell of row index 6 contains `"策划"`. */
  predicate PlannerRow(df: Frame<string>) {
    |df.rows| > FirstRow && exists j :: 0 <= j < |df.columns| && PlannerCell(CellAt(df, FirstRow, j))
  }

  /** The loop of `_is_planner_row` over row index 6. */
  method IsPlannerRow(df: Frame<string>) returns (b: bool)
    ensures b == PlannerRow(df)
  {
    if |df.rows| <= FirstRow {
      return false;
    }
    for j := 0 to |df.columns|
      invariant forall l :: 0 <= l < j ==> !PlannerCell(CellAt(df, FirstRow, l))
    {
      if PlannerCell(CellAt(df, FirstRow, j)) {
        return true;
      }
    }
    return false;
  }

  // ---------------------------------------------------------------- extraction

  /** One extracted text: `{'text', 'a_column', 'row', 'column'}`. */
  datatype Item = Item(text: string, aColumn: string, row: nat, column: string)

  // The scan below is stated for any `strip` and `keep`; the extractor uses `Strip` (`str.strip`)
  // and `Content(o)` (`_is_text_content`).

  /** `str(row[a_column]).strip()`, or `""` for NaN. */
  function AColumnValue(strip: string -> string, df: Frame<string>, i: nat): string
    requires i < |df.rows|
  {
    match CellAt(df, i, 0)
    case None => ""
    case Some(v) => strip(v)
  }

  /** The item cell `(i, j)` contributes: its stripped text when that is non-empty and kept. */
  function CellItems(strip: string -> string, keep: string -> bool, df: Frame<string>, i: nat, j: nat): seq<Item>
    requires i < |df.rows| && j < |df.columns|
  {
    match CellAt(df, i, j)
    case None => []
    case Some(v) =>
      var text := strip(v);
      if text != [] && keep(text) then [Item(text, AColumnValue(strip, df, i), i + 1, df.columns[j])] else []
  }

  /** The items of the first `n` columns of row `i`. */
  function RowItems(strip: string -> string, keep: string -> bool, df: Frame<string>, i: nat, n: nat): seq<Item>
    requires i < |df.rows| && n <= |df.columns|
  {
    if n == 0 then [] else RowItems(strip, keep, df, i, n - 1) + CellItems(strip, keep, df, i, n - 1)
  }

  /** `extracted_items` after the rows from index 6 up to `m`. */
  function Collected(strip: string -> string, keep: string -> bool, df: Frame<string>, m: nat): seq<Item>
    requires m <= |df.rows|
  {
    if m <= FirstRow then [] else Collected(strip, keep, df, m - 1) + RowItems(strip, keep, df, m - 1, |df.columns|)
  }

  lemma CollectedStep(strip: string -> string, keep: string -> bool, df: Frame<string>, i: nat)
    requires FirstRow <= i < |df.rows|
    ensures Collected(strip, keep, df, i + 1) == Collected(strip, keep, df, i) + RowItems(strip, keep, df, i, |df.columns|)
  {
  }

  /** The inner loop of `_extract_texts_from_dataframe`, over the columns of row `i`. */
  method CollectRow(strip: string -> string, keep: string -> bool, df: Frame<string>, i: nat) returns (rowItems: seq<Item>)
    requires i < |df.rows|
    ensures rowItems == RowItems(strip, keep, df, i, |df.columns|)
  {
    rowItems := [];
    for j := 0 to |df.columns|
      invariant rowItems == RowItems(strip, keep, df, i, j)
    {
      rowItems := rowItems + CellItems(strip, keep, df, i, j);
    }
  }

  /** The outer loop of `_extract_texts_from_dataframe`, over the rows from index 6. */
  method CollectItems(strip: string -> string, keep: string -> bool, df: Frame<string>) returns (items: seq<Item>)
    ensures items == Collected(strip, keep, df, |df.rows|)
  {
    items := [];
    if |df.rows| <= FirstRow {
      return;
    }
    for i := FirstRow to |df.rows|
      invariant items == Collected(strip, keep, df, i)
    {
      var rowItems := CollectRow(strip, keep, df, i);
      CollectedStep(strip, keep, df, i);
      items := items + rowItems;
    }
  }

  /** What an item says about the frame: its row holds its text in its column, and the text is kept. */
  predicate ItemFrom(strip: string -> string, keep: string -> bool, df: Frame<string>, item: Item) {
    && FirstRow + 1 <= item.row <= |df.rows|
    && keep(item.text)
    && exists j :: 0 <= j < |df.columns| && df.columns[j] == item.column
                   && CellAt(df, item.row - 1, j).Some? && strip(CellAt(df, item.row - 1, j).value) == item.text
  }

  /** The item a cell contributes, if any, says where it comes from. */
  lemma CellItemsSound(strip: string -> string, keep: string -> bool, df: Frame<string>, i: nat, j: nat)
    requires FirstRow <= i < |df.rows| && j < |df.columns|
    ensures forall item :: item in CellItems(strip, keep, df, i, j) ==> item.row == i + 1 && ItemFrom(strip, keep, df, item)
  {
    var c := CellItems(strip, keep, df, i, j);
    if c != [] {
      assert c[0].column == df.columns[j];
      assert CellAt(df, c[0].row - 1, j).Some? && strip(CellAt(df, c[0].row - 1, j).value) == c[0].text;
    }
  }

  lemma {:induction false} RowItemsSound(strip: string -> string, keep: string -> bool, df: Frame<string>, i: nat, n: nat)
    requires FirstRow <= i < |df.rows| && n <= |df.columns|
    ensures forall item :: item in RowItems(strip, keep, df, i, n) ==> item.row == i + 1 && ItemFrom(strip, keep, df, item)
  {
    if n > 0 {
      var init := RowItems(strip, keep, df, i, n - 1);
      var cell := CellItems(strip, keep, df, i, n - 1);
      RowItemsSound(strip, keep, df, i, n - 1);
      CellItemsSound(strip, keep, df, i, n - 1);
      assert RowItems(strip, keep, df, i, n) == init + cell;
      forall item: Item | item in init + cell ensures item.row == i + 1 && ItemFrom(strip, keep, df, item) {
        if item in init {} else {}
      }
    }
  }

  lemma {:induction false} CollectedSound(strip: string -> string, keep: string -> bool, df: Frame<string>, m: nat)
    requires m <= |df.rows|
    ensures forall item :: item in Collected(strip, keep, df, m) ==> ItemFrom(strip, keep, df, item)
  {
    if m > FirstRow {
      var init := Collected(strip, keep, df, m - 1);
      var row := RowItems(strip, keep, df, m - 1, |df.columns|);
      assert Collected(strip, keep, df, m) == init + row;
      CollectedSound(strip, keep, df, m - 1);
      RowItemsSound(strip, keep, df, m - 1, |df.columns|);
      AllOfAppend(init, row, item => ItemFrom(strip, keep, df, item));
    }
  }

  /** A cell whose stripped text is non-empty and kept. */
  predicate ContentCell(strip: string -> string, keep: string -> bool, df: Frame<string>, i: nat, j: nat)
    requires i < |df.rows|
  {
    CellAt(df, i, j).Some? && strip(CellAt(df, i, j).value) != [] && keep(strip(CellAt(df, i, j).value))
  }

  lemma {:induction false} RowItemsComplete(strip: string -> string, keep: string -> bool, df: Frame<string>, i: nat, n: nat, j: nat)
    returns (k: nat)
    requires i < |df.rows| && j < n <= |df.columns| && ContentCell(strip, keep, df, i, j)
    ensures k < |RowItems(strip, keep, df, i, n)| && RowItems(strip, keep, df, i, n)[k].text == strip(CellAt(df, i, j).value)
  {
    var init := RowItems(strip, keep, df, i, n - 1);
    var cell := CellItems(strip, keep, df, i, n - 1);
    assert RowItems(strip, keep, df, i, n) == init + cell;
    if j < n - 1 {
      k := RowItemsComplete(strip, keep, df, i, n - 1, j);
    } else {
      k := |init|;
    }
  }

  /** Where the items of the last row start: after the items of the earlier rows. */
  lemma CollectedLastRow(strip: string -> string, keep: string -> bool, df: Frame<string>, m: nat, l: nat)
    requires FirstRow < m <= |df.rows| && l < |RowItems(strip, keep, df, m - 1, |df.columns|)|
    ensures var k := |Collected(strip, keep, df, m - 1)| + l;
            k < |Collected(strip, keep, df, m)|
            && Collected(strip, keep, df, m)[k] == RowItems(strip, keep, df, m - 1, |df.columns|)[l]
  {
    CollectedStep(strip, keep, df, m - 1);
  }

  /** The items of the earlier rows keep their places. */
  lemma CollectedEarlierRows(strip: string -> string, keep: string -> bool, df: Frame<string>, m: nat, k: nat)
    requires FirstRow < m <= |df.rows| && k < |Collected(strip, keep, df, m - 1)|
    ensures k < |Collected(strip, keep, df, m)| && Collected(strip, keep, df, m)[k] == Collected(strip, keep, df, m - 1)[k]
  {
    CollectedStep(strip, keep, df, m - 1);
  }

  lemma {:induction false} CollectedComplete(strip: string -> string, keep: string -> bool, df: Frame<string>, m: nat, i: nat, j: nat)
    returns (k: nat)
    requires FirstRow <= i < m <= |df.rows| && j < |df.columns| && ContentCell(strip, keep, df, i, j)
    ensures k < |Collected(strip, keep, df, m)| && Collected(strip, keep, df, m)[k].text == strip(CellAt(df, i, j).value)
  {
    if i < m - 1 {
      k := CollectedComplete(strip, keep, df, m - 1, i, j);
      CollectedEarlierRows(strip, keep, df, m, k);
    } else {
      var l := RowItemsComplete(strip, keep, df, i, |df.columns|, j);
      k := |Collected(strip, keep, df, m - 1)| + l;
      CollectedLastRow(strip, keep, df, m, l);
    }
  }

  // ---------------------------------------------------------------- de-duplication

  /** The texts of the first `k` items: `seen_texts` after `k` steps. */
  function TextsBefore(items: seq<Item>, k: nat): set<string>
    requires k <= |items|
  {
    if k == 0 then {} else TextsBefore(items, k - 1) + {items[k - 1].text}
  }

  lemma {:induction false} TextsBeforeSpec(items: seq<Item>, k: nat, t: string)
    requires k <= |items|
    ensures t in TextsBefore(items, k) <==> exists i :: 0 <= i < k && items[i].text == t
  {
    if k > 0 {
      TextsBeforeSpec(items, k - 1, t);
    }
  }

  /** The positions below `n` holding the first occurrence of their text, in increasing order. */
  function Firsts(items: seq<Item>, n: nat): (r: seq<nat>)
    requires n <= |items|
    ensures forall k :: 0 <= k < |r| ==> r[k] < n && items[r[k]].text !in TextsBefore(items, r[k])
    ensures forall k, l :: 0 <= k < l < |r| ==> r[k] < r[l]
  {
    if n == 0 then []
    else
      var r := Firsts(items, n - 1);
      if items[n - 1].text in TextsBefore(items, n - 1) then r else r + [n - 1]
  }

  /** The items at positions `idx`. */
  function Pick(items: seq<Item>, idx: seq<nat>): (r: seq<Item>)
    requires forall k :: 0 <= k < |idx| ==> idx[k] < |items|
    ensures |r| == |idx| && forall k :: 0 <= k < |idx| ==> r[k] == items[idx[k]]
  {
    if idx == [] then [] else Pick(items, idx[..|idx| - 1]) + [items[idx[|idx| - 1]]]
  }

  /** `unique_items`: the first occurrence of every text, in order. */
  function Unique(items: seq<Item>): seq<Item> {
    Pick(items, Firsts(items, |items|))
  }

  /** The kept items have pairwise distinct texts, and they are an ordered selection of the items. */
  lemma UniqueSpec(items: seq<Item>)
    ensures var u := Unique(items);
            var idx := Firsts(items, |items|);
            && (forall k, l :: 0 <= k < l < |u| ==> u[k].text != u[l].text)
            && (forall k :: 0 <= k < |u| ==> u[k] == items[idx[k]])
            && (forall k, l :: 0 <= k < l < |idx| ==> idx[k] < idx[l])
  {
    var u := Unique(items);
    var idx := Firsts(items, |items|);
    forall k, l | 0 <= k < l < |u| ensures u[k].text != u[l].text {
      TextsBeforeSpec(items, idx[l], u[k].text);
    }
  }

  /** Every text of the items is kept, at its first occurrence. */
  lemma {:induction false} FirstsComplete(items: seq<Item>, n: nat, i: nat) returns (k: nat)
    requires i < n <= |items|
    ensures k < |Firsts(items, n)| && items[Firsts(items, n)[k]].text == items[i].text
  {
    var r := Firsts(items, n - 1);
    var f := Firsts(items, n);
    assert f == r || f == r + [n - 1];
    assert |r| <= |f| && f[..|r|] == r;
    if i < n - 1 {
      k := FirstsComplete(items, n - 1, i);
      assert f[k] == r[k];
    } else if items[i].text in TextsBefore(items, n - 1) {
      TextsBeforeSpec(items, n - 1, items[i].text);
      var i' :| 0 <= i' < n - 1 && items[i'].text == items[i].text;
      k := FirstsComplete(items, n - 1, i');
      assert f[k] == r[k];
      assert items[f[k]].text == items[i'].text;
    } else {
      k := |r|;
      assert f == r + [i];
      assert f[k] == i;
    }
  }

  lemma UniqueComplete(items: seq<Item>, i: nat)
    requires i < |items|
    ensures exists k :: 0 <= k < |Unique(items)| && Unique(items)[k].text == items[i].text
  {
    var k := FirstsComplete(items, |items|, i);
    assert Unique(items)[k] == items[Firsts(items, |items|)[k]];
  }

  /** The `seen_texts` loop of `_extract_texts_from_dataframe`. */
  method DedupItems(items: seq<Item>) returns (uniqueItems: seq<Item>)
    ensures uniqueItems == Unique(items)
  {
    var seenTexts: set<string> := {};
    uniqueItems := [];
    for k := 0 to |items|
      invariant seenTexts == TextsBefore(items, k)
      invariant uniqueItems == Pick(items, Firsts(items, k))
    {
      if items[k].text !in seenTexts {
        var f := Firsts(items, k);
        assert (f + [k])[..|f|] == f;
        seenTexts := seenTexts + {items[k].text};
        uniqueItems := uniqueItems + [items[k]];
      }
    }
  }

  /** `_is_text_content` as a function value. */
  function Content(o: Oracles): string -> bool {
    t => IsTextContent(o, t)
  }

  /** `_extract_texts_from_dataframe`. */
  function Extracted(o: Oracles, df: Frame<string>): seq<Item> {
    if PlannerRow(df) || |df.columns| == 0 then [] else Unique(Collected(Strip, Content(o), df, |df.rows|))
  }

  method ExtractTextsFromDataframe(o: Oracles, df: Frame<string>) returns (uniqueItems: seq<Item>)
    ensures uniqueItems == Extracted(o, df)
  {
    var planner := IsPlannerRow(df);
    if planner || |df.columns| == 0 {
      return [];
    }
    var extractedItems := CollectItems(Strip, Content(o), df);
    uniqueItems := DedupItems(extractedItems);
  }

  /**
   * A planner sheet gives nothing. Otherwise every reported item is a text-content cell of a
   * row from index 6 on, reported with row number index + 1, the texts are pairwise distinct,
   * and every text-content cell of those rows has its text reported.
   */
  lemma ExtractedSpec(o: Oracles, df: Frame<string>)
    ensures PlannerRow(df) ==> Extracted(o, df) == []
    ensures forall item :: item in Extracted(o, df) ==> ItemFrom(Strip, Content(o), df, item)
    ensures forall k, l :: 0 <= k < l < |Extracted(o, df)| ==> Extracted(o, df)[k].text != Extracted(o, df)[l].text
  {
    if !PlannerRow(df) && |df.columns| > 0 {
      var items := Collected(Strip, Content(o), df, |df.rows|);
      CollectedSound(Strip, Content(o), df, |df.rows|);
      UniqueSpec(items);
      forall item | item in Extracted(o, df) ensures ItemFrom(Strip, Content(o), df, item) {
        var k :| 0 <= k < |Unique(items)| && Unique(items)[k] == item;
      }
    }
  }

  lemma ExtractedComplete(o: Oracles, df: Frame<string>, i: nat, j: nat)
    requires !PlannerRow(df)
    requires FirstRow <= i < |df.rows| && j < |df.columns| && ContentCell(Strip, Content(o), df, i, j)
    ensures exists item :: item in Extracted(o, df) && item.text == Strip(CellAt(df, i, j).value)
  {
    var items := Collected(Strip, Content(o), df, |df.rows|);
    var p := CollectedComplete(Strip, Content(o), df, |df.rows|, i, j);
    UniqueComplete(items, p);
    var k :| 0 <= k < |Unique(items)| && Unique(items)[k].text == items[p].text;
    assert Unique(items)[k] in Extracted(o, df);
  }

  // ---------------------------------------------------------------- one workbook

  /** `extract_text_from_excel`: the non-empty extractions per sheet; an unreadable file gives `{}`. */
  function ExtractedBook(o: Oracles, book: Option<Workbook>): Dict<string, seq<Item>> {
    match book
    case None => []
    case Some(wb) => ExtractedSheets(o, wb.sheets)
  }

  function ExtractedSheets(o: Oracles, sheets: Dict<string, Frame<string>>): Dict<string, seq<Item>> {
    if sheets == [] then []
    else
      var init := ExtractedSheets(o, sheets[..|sheets| - 1]);
      var (name, df) := sheets[|sheets| - 1];
      var texts := Extracted(o, df);
      if texts != [] then Put(init, name, texts) else init
  }

  // ---------------------------------------------------------------- the summary sheet

  /** A summary value: a text or a count. */
  datatype SummaryValue = Str(s: string) | Count(n: nat)

  /** One row of the summary sheet: `{'项目': item, '值': value}`. */
  datatype SummaryRow = SummaryRow(item: string, value: SummaryValue)

  const SourceFileItem := "源文件"
  const SourcePathItem := "源文件路径"
  const SheetCountItem := "工作表数量"
  const TextTotalItem := "提取文本总数"

  function SheetCountLabel(name: string): string {
    "工作表 '" + name + "' 文本数"
  }

  /** `sum(len(texts) for texts in extracted_data.values())`. */
  function TextTotal(data: Dict<string, seq<Item>>): nat {
    if data == [] then 0 else TextTotal(data[..|data| - 1]) + |data[|data| - 1].1|
  }

  function SheetRows(data: Dict<string, seq<Item>>): (r: seq<SummaryRow>)
    ensures |r| == |data|
  {
    if data == [] then []
    else SheetRows(data[..|data| - 1]) + [SummaryRow(SheetCountLabel(data[|data| - 1].0), Count(|data[|data| - 1].1|))]
  }

  /** `_create_summary_data`. */
  function ExtractionSummary(data: Dict<string, seq<Item>>, sourceFile: string): seq<SummaryRow> {
    [ SummaryRow(SourceFileItem, Str(Localization.BaseName(sourceFile))),
      SummaryRow(SourcePathItem, Str(sourceFile)),
      SummaryRow(SheetCountItem, Count(|data|)),
      SummaryRow(TextTotalItem, Count(TextTotal(data))) ]
    + SheetRows(data)
  }

  /** The sum of the counts among summary rows. */
  function CountSum(rows: seq<SummaryRow>): nat {
    if rows == [] then 0
    else CountSum(rows[..|rows| - 1]) + (match rows[|rows| - 1].value case Count(n) => n case Str(_) => 0)
  }

  lemma {:induction false} TextTotalIsSum(data: Dict<string, seq<Item>>)
    ensures TextTotal(data) == CountSum(SheetRows(data))
  {
    if data != [] {
      TextTotalIsSum(data[..|data| - 1]);
      var r := SheetRows(data);
      assert r[..|r| - 1] == SheetRows(data[..|data| - 1]);
    }
  }

  lemma {:induction false} SheetRowsAt(data: Dict<string, seq<Item>>, i: nat)
    requires i < |data|
    ensures SheetRows(data)[i] == SummaryRow(SheetCountLabel(data[i].0), Count(|data[i].1|))
  {
    if i < |data| - 1 {
      SheetRowsAt(data[..|data| - 1], i);
    }
  }

  /**
   * The summary has four fixed rows and one per sheet; the sheet count is the number of sheets and
   * the text total is the sum of the per-sheet counts.
   */
  lemma ExtractionSummaryShape(data: Dict<string, seq<Item>>, sourceFile: string)
    ensures var s := ExtractionSummary(data, sourceFile);
            && |s| == 4 + |data|
            && s[2] == SummaryRow(SheetCountItem, Count(|data|))
            && s[3] == SummaryRow(TextTotalItem, Count(CountSum(s[4..])))
            && forall i :: 0 <= i < |data| ==> s[4 + i] == SummaryRow(SheetCountLabel(data[i].0), Count(|data[i].1|))
  {
    var s := ExtractionSummary(data, sourceFile);
    assert s[4..] == SheetRows(data);
    TextTotalIsSum(data);
    forall i | 0 <= i < |data| ensures s[4 + i] == SummaryRow(SheetCountLabel(data[i].0), Count(|data[i].1|)) {
      SheetRowsAt(data, i);
    }
  }

  /** The loop of `_create_summary_data` appending one row per sheet. */
  method CreateSummaryData(data: Dict<string, seq<Item>>, sourceFile: string) returns (summaryData: seq<SummaryRow>)
    ensures summaryData == ExtractionSummary(data, sourceFile)
  {
    var head := [ SummaryRow(SourceFileItem, Str(Localization.BaseName(sourceFile))),
                  SummaryRow(SourcePathItem, Str(sourceFile)),
                  SummaryRow(SheetCountItem, Count(|data|)),
                  SummaryRow(TextTotalItem, Count(TextTotal(data))) ];
    summaryData := head;
    for k := 0 to |data|
      invariant summaryData == head + SheetRows(data[..k])
    {
      PrefixSnoc(data, k);
      assert data[..k + 1][..k] == data[..k];
      summaryData := summaryData + [SummaryRow(SheetCountLabel(data[k].0), Count(|data[k].1|))];
    }
    assert data[..|data|] == data;
  }

  // ---------------------------------------------------------------- a directory

  /** `Path(file_path).stem`. */
  function Stem(path: string): string {
    var name := Localization.BaseName(path);
    name[..|name| - |Localization.Suffix(name)|]
  }

  /** `os.path.join(output_directory, f"{stem}_文本提取.xlsx")`. */
  function OutputPathFor(outputDirectory: string, file: string): string {
    Join(outputDirectory, Stem(file) + "_文本提取.xlsx")
  }

  /** The outcome of the files `files`: the output paths written and the input files that failed. */
  datatype Outcomes = Outcomes(processed: seq<string>, failed: seq<string>)

  /**
   * One file of `process_directory`: the output path written, or `None` when nothing was
   * extracted or the write failed.
   */
  function FileResult(o: Oracles, file: string, outputDirectory: string,
                      read: string -> Option<Workbook>, writeOk: string -> bool): Option<string>
  {
    if ExtractedBook(o, read(file)) == [] then None
    else
      var outputPath := OutputPathFor(outputDirectory, file);
      if writeOk(outputPath) then Some(outputPath) else None
  }

  /** The loop of `process_directory`: each file adds its output path or, failing, itself. */
  function FileOutcomes(o: Oracles, files: seq<string>, outputDirectory: string,
                        read: string -> Option<Workbook>, writeOk: string -> bool): Outcomes
  {
    if files == [] then Outcomes([], [])
    else
      var init := FileOutcomes(o, files[..|files| - 1], outputDirectory, read, writeOk);
      var file := files[|files| - 1];
      match FileResult(o, file, outputDirectory, read, writeOk)
      case Some(outputPath) => init.(processed := init.processed + [outputPath])
      case None => init.(failed := init.failed + [file])
  }

  /** The body of the loop for one file: extract, then write the text workbook if anything was found. */
  method HandleFile(o: Oracles, file: string, outputDirectory: string,
                    read: string -> Option<Workbook>, writeOk: string -> bool) returns (written: Option<string>)
    ensures written.Some? ==> written.value == OutputPathFor(outputDirectory, file) && writeOk(written.value)
    ensures written == FileResult(o, file, outputDirectory, read, writeOk)
  {
    var extractedData := ExtractedBook(o, read(file));
    if extractedData != [] {
      var outputPath := OutputPathFor(outputDirectory, file);
      if writeOk(outputPath) {
        written := Some(outputPath);
      } else {
        written := None;
      }
    } else {
      written := None;
    }
  }

  /** Every file lands in exactly one of the two lists; the failed ones are input files, in order. */
  lemma {:induction false} FileOutcomesPartition(o: Oracles, files: seq<string>, outputDirectory: string,
                                                 read: string -> Option<Workbook>, writeOk: string -> bool)
    ensures var r := FileOutcomes(o, files, outputDirectory, read, writeOk);
            && |r.processed| + |r.failed| == |files|
            && (forall p :: p in r.failed ==> p in files)
            && (forall p :: p in r.processed ==> exists f :: f in files && p == OutputPathFor(outputDirectory, f) && writeOk(p))
  {
    if files != [] {
      var init := files[..|files| - 1];
      FileOutcomesPartition(o, init, outputDirectory, read, writeOk);
      var r := FileOutcomes(o, files, outputDirectory, read, writeOk);
      forall p | p in r.processed
        ensures exists f :: f in files && p == OutputPathFor(outputDirectory, f) && writeOk(p)
      {
        var ri := FileOutcomes(o, init, outputDirectory, read, writeOk);
        if p in ri.processed {
          var f :| f in init && p == OutputPathFor(outputDirectory, f) && writeOk(p);
          assert f in files;
        } else {
          assert files[|files| - 1] in files;
        }
      }
    }
  }

  /** `ExcelTextExtractor` and its `processing_stats`. */
  class ExcelTextExtractor {
    var totalFiles: nat
    var processedFiles: nat
    var failedFiles: nat
    var totalTexts: nat

    constructor()
      ensures totalFiles == 0 && processedFiles == 0 && failedFiles == 0 && totalTexts == 0
    {
      totalFiles, processedFiles, failedFiles, totalTexts := 0, 0, 0, 0;
    }

    /**
     * `process_directory` given the result of `scan_directory`: a failed scan returns `false` and
     * changes nothing; otherwise `total_files` is overwritten, the other two counters grow by the
     * files processed and failed in this call, and `total_texts` is never touched.
     */
    method ProcessDirectory(o: Oracles, inputDirectory: string, outputDirectory: Option<string>,
                            scan: Result<seq<string>>, read: string -> Option<Workbook>, writeOk: string -> bool)
      returns (ok: bool, processed: seq<string>, failed: seq<string>)
      modifies this
      ensures scan.Raised? ==> !ok && processed == [] && failed == []
      ensures scan.Raised? ==> totalFiles == old(totalFiles) && processedFiles == old(processedFiles)
                               && failedFiles == old(failedFiles)
      ensures scan.Ok? ==> ok && totalFiles == |scan.value|
                           && Outcomes(processed, failed)
                              == FileOutcomes(o, scan.value, outputDirectory.GetOr(inputDirectory), read, writeOk)
                           && processedFiles == old(processedFiles) + |processed|
                           && failedFiles == old(failedFiles) + |failed|
      ensures totalTexts == old(totalTexts)
    {
      var outDir := outputDirectory.GetOr(inputDirectory);
      if scan.Raised? {
        return false, [], [];
      }
      var excelFiles := scan.value;
      totalFiles := |excelFiles|;
      processed, failed := [], [];
      for k := 0 to |excelFiles|
        invariant Outcomes(processed, failed) == FileOutcomes(o, excelFiles[..k], outDir, read, writeOk)
        invariant processedFiles == old(processedFiles) + |processed|
        invariant failedFiles == old(failedFiles) + |failed|
        invariant totalFiles == |excelFiles| && totalTexts == old(totalTexts)
      {
        PrefixSnoc(excelFiles, k);
        assert excelFiles[..k + 1][..k] == excelFiles[..k];
        var filePath := excelFiles[k];
        var written := HandleFile(o, filePath, outDir, read, writeOk);
        if written.Some? {
          processed := processed + [written.value];
          processedFiles := processedFiles + 1;
        } else {
          failed := failed + [filePath];
          failedFiles := failedFiles + 1;
        }
      }
      assert excelFiles[..|excelFiles|] == excelFiles;
      ok := true;
    }
  }
}
