/**
 * The localisation checker: a Vietnamese-character detector, the table-file
 * suffix rule, the per-table check and the directory scan that collects the
 * names of tables holding Vietnamese text.
 */
module Localization {
  import opened Wrappers
  import opened Text

  // ---------------------------------------------------------------- the detector

  /**
   * The detector's fourteen character classes, lower-case vowels with tones and
   * `đ`, then their upper-case forms. The source matches each class ignoring
   * case; the classes together hold both cases of every letter they list and no
   * other character has a case form among them, so matching them exactly gives
   * the same overall answer.
   */
  const VietnamesePatterns: seq<set<char>> := [
    {'à', 'á', 'ạ', 'ả', 'ã', 'â', 'ầ', 'ấ', 'ậ', 'ẩ', 'ẫ', 'ă', 'ằ', 'ắ', 'ặ', 'ẳ', 'ẵ'},
    {'è', 'é', 'ẹ', 'ẻ', 'ẽ', 'ê', 'ề', 'ế', 'ệ', 'ể', 'ễ'},
    {'ì', 'í', 'ị', 'ỉ', 'ĩ'},
    {'ò', 'ó', 'ọ', 'ỏ', 'õ', 'ô', 'ồ', 'ố', 'ộ', 'ổ', 'ỗ', 'ơ', 'ờ', 'ớ', 'ợ', 'ở', 'ỡ'},
    {'ù', 'ú', 'ụ', 'ủ', 'ũ', 'ư', 'ừ', 'ứ', 'ự', 'ử', 'ữ'},
    {'ỳ', 'ý', 'ỵ', 'ỷ', 'ỹ'},
    {'đ'},
    {'À', 'Á', 'Ạ', 'Ả', 'Ã', 'Â', 'Ầ', 'Ấ', 'Ậ', 'Ẩ', 'Ẫ', 'Ă', 'Ằ', 'Ắ', 'Ặ', 'Ẳ', 'Ẵ'},
    {'È', 'É', 'Ẹ', 'Ẻ', 'Ẽ', 'Ê', 'Ề', 'Ế', 'Ệ', 'Ể', 'Ễ'},
    {'Ì', 'Í', 'Ị', 'Ỉ', 'Ĩ'},
    {'Ò', 'Ó', 'Ọ', 'Ỏ', 'Õ', 'Ô', 'Ồ', 'Ố', 'Ộ', 'Ổ', 'Ỗ', 'Ơ', 'Ờ', 'Ớ', 'Ợ', 'Ở', 'Ỡ'},
    {'Ù', 'Ú', 'Ụ', 'Ủ', 'Ũ', 'Ư', 'Ừ', 'Ứ', 'Ự', 'Ử', 'Ữ'},
    {'Ỳ', 'Ý', 'Ỵ', 'Ỷ', 'Ỹ'},
    {'Đ'}
  ]

  /** `pattern.search(text)` for a one-character class: some character of `text` is in `cls`. */
  function Search(cls: set<char>, text: string): bool {
    text != [] && (text[0] in cls || Search(cls, text[1..]))
  }

  /** The loop over the patterns, returning `True` at the first that matches. */
  function AnyPatternMatches(patterns: seq<set<char>>, text: string): bool {
    patterns != [] && (Search(patterns[0], text) || AnyPatternMatches(patterns[1..], text))
  }

  /** `contains_vietnamese` on a string. */
  function ContainsVietnamese(text: string): bool {
    AnyPatternMatches(VietnamesePatterns, text)
  }

  /** `contains_vietnamese` on any value, `None` standing for a non-string: `False` for those. */
  function ContainsVietnameseValue(v: Option<string>): (r: bool)
    ensures v.None? ==> !r
    ensures v.Some? ==> (r <==> ContainsVietnamese(v.value))
  {
    match v
    case None => false
    case Some(s) => ContainsVietnamese(s)
  }

  /** All the classes' characters. */
  function Union(ps: seq<set<char>>): set<char> {
    if ps == [] then {} else ps[0] + Union(ps[1..])
  }

  /** The reference set: the characters the detector recognises. */
  predicate IsVietnameseChar(c: char) { c in Union(VietnamesePatterns) }

  lemma {:induction false} SearchSpec(cls: set<char>, text: string)
    ensures Search(cls, text) <==> exists i :: 0 <= i < |text| && text[i] in cls
  {
    if text != [] {
      SearchSpec(cls, text[1..]);
      if Search(cls, text[1..]) {
        var i :| 0 <= i < |text[1..]| && text[1..][i] in cls;
        assert text[i + 1] in cls;
      }
      if exists i :: 0 <= i < |text| && text[i] in cls {
        var i :| 0 <= i < |text| && text[i] in cls;
        if i > 0 {
          assert text[1..][i - 1] in cls;
        }
      }
    }
  }

  lemma {:induction false} InUnion(ps: seq<set<char>>, c: char)
    ensures c in Union(ps) <==> exists k :: 0 <= k < |ps| && c in ps[k]
  {
    if ps != [] {
      InUnion(ps[1..], c);
      if exists k :: 0 <= k < |ps[1..]| && c in ps[1..][k] {
        var k :| 0 <= k < |ps[1..]| && c in ps[1..][k];
        assert c in ps[k + 1];
      }
      if exists k :: 0 <= k < |ps| && c in ps[k] {
        var k :| 0 <= k < |ps| && c in ps[k];
        if k > 0 {
          assert c in ps[1..][k - 1];
        }
      }
    }
  }

  /** Some pattern matches exactly when some character of the text is in the union of the classes. */
  lemma {:induction false} AnyPatternSpec(ps: seq<set<char>>, text: string)
    ensures AnyPatternMatches(ps, text) <==> exists i :: 0 <= i < |text| && text[i] in Union(ps)
  {
    if ps != [] {
      AnyPatternSpec(ps[1..], text);
      SearchSpec(ps[0], text);
      forall i | 0 <= i < |text|
        ensures text[i] in Union(ps) <==> text[i] in ps[0] || text[i] in Union(ps[1..])
      {
      }
    }
  }

  /** The detector fires exactly when the text has a character of the reference set. */
  lemma ContainsVietnameseSpec(text: string)
    ensures ContainsVietnamese(text) <==> exists i :: 0 <= i < |text| && IsVietnameseChar(text[i])
  {
    AnyPatternSpec(VietnamesePatterns, text);
  }

  /** Every recognised character lies outside ASCII. */
  lemma VietnameseCharsAreNotAscii(c: char)
    requires IsVietnameseChar(c)
    ensures c as int >= 128
  {
    InUnion(VietnamesePatterns, c);
    PatternsAreNonAscii();
    var k :| 0 <= k < |VietnamesePatterns| && c in VietnamesePatterns[k];
    assert NonAsciiClass(VietnamesePatterns[k]);
  }

  /** Each class, checked one by one, holds only non-ASCII characters. */
  lemma PatternsAreNonAscii()
    ensures forall k :: 0 <= k < |VietnamesePatterns| ==> NonAsciiClass(VietnamesePatterns[k])
  {
    forall k | 0 <= k < |VietnamesePatterns|
      ensures NonAsciiClass(VietnamesePatterns[k])
    {
      var cls := VietnamesePatterns[k];
      forall x | x in cls
        ensures x as int >= 128
      {
      }
    }
  }

  /** Every character of the class lies outside ASCII. */
  predicate NonAsciiClass(cls: set<char>) {
    forall x :: x in cls ==> x as int >= 128
  }

  /** Hence the empty string and every ASCII string contain no Vietnamese. */
  lemma AsciiHasNoVietnamese(text: string)
    requires forall i :: 0 <= i < |text| ==> text[i] as int < 128
    ensures !ContainsVietnamese(text)
  {
    ContainsVietnameseSpec(text);
    if ContainsVietnamese(text) {
      var i :| 0 <= i < |text| && IsVietnameseChar(text[i]);
      VietnameseCharsAreNotAscii(text[i]);
    }
  }

  /** A pattern list that matches a text matches every text containing it. */
  lemma PatternsMonotone(ps: seq<set<char>>, a: string, s: string, b: string)
    requires AnyPatternMatches(ps, s)
    ensures AnyPatternMatches(ps, a + s + b)
  {
    AnyPatternSpec(ps, s);
    AnyPatternSpec(ps, a + s + b);
    var i :| 0 <= i < |s| && s[i] in Union(ps);
    assert (a + s + b)[|a| + i] == s[i];
  }

  /** Monotone: a text that contains a Vietnamese text does too. */
  lemma ContainsVietnameseMonotone(a: string, s: string, b: string)
    requires ContainsVietnamese(s)
    ensures ContainsVietnamese(a + s + b)
  {
    PatternsMonotone(VietnamesePatterns, a, s, b);
  }

  // ---------------------------------------------------------------- table files

  /** `Path.name`: the part after the last `/`. */
  function BaseName(path: string): string {
    path[RFindChar(path, '/') + 1..]
  }

  /** `Path.suffix`: from the name's last `.`, unless that dot is its first or last character. */
  function Suffix(name: string): string {
    var i := RFindChar(name, '.');
    if 0 < i < |name| - 1 then name[i..] else ""
  }

  /** The `.xlsx`/`.xls` extensions, read by the workbook reader. */
  predicate IsWorkbookExtension(ext: string) { ext == ".xlsx" || ext == ".xls" }

  /** The `.csv`/`.tsv` extensions, read by the CSV reader. */
  predicate IsCsvExtension(ext: string) { ext == ".csv" || ext == ".tsv" }

  /** The four extensions of `TABLE_EXTENSIONS`. */
  predicate IsTableExtension(ext: string) { IsWorkbookExtension(ext) || IsCsvExtension(ext) }

  /** `is_table_file` (and the Vietnamese processor's `is_supported_file`): the lower-cased suffix is a table extension. */
  predicate IsTableFile(path: string) {
    IsTableExtension(Lower(Suffix(BaseName(path))))
  }

  /** The reader a table file goes to: the workbook reader for `.xlsx`/`.xls`. */
  predicate IsWorkbookFile(path: string) {
    IsWorkbookExtension(Lower(Suffix(BaseName(path))))
  }

  /** ... and the CSV reader for `.csv`/`.tsv`. */
  predicate IsCsvFile(path: string) {
    IsCsvExtension(Lower(Suffix(BaseName(path))))
  }

  lemma LowerSlice(s: string, i: nat)
    requires i <= |s|
    ensures Lower(s[i..]) == Lower(s)[i..]
  {
  }

  /** An extension: a dot followed by at least one character and no further dot. */
  predicate IsExtension(e: string) { |e| >= 2 && e[0] == '.' && '.' !in e[1..] }

  /** A name whose lower-cased suffix is the extension `e` is longer than `e` and, lower-cased, ends with it. */
  lemma {:induction false} SuffixGivesEnding(name: string, e: string)
    requires IsExtension(e) && Lower(Suffix(name)) == e
    ensures |name| > |e| && EndsWith(Lower(name), e)
  {
    var i := RFindChar(name, '.');
    assert Suffix(name) == name[i..];
    LowerSlice(name, i);
  }

  /** Conversely, a longer name that, lower-cased, ends with the extension `e` has `e` as its lower-cased suffix. */
  lemma {:induction false} EndingGivesSuffix(name: string, e: string)
    requires IsExtension(e) && |name| > |e| && EndsWith(Lower(name), e)
    ensures Lower(Suffix(name)) == e
  {
    var j := |name| - |e|;
    EndingDots(name, e);
    LastDotAt(name, j);
    assert Suffix(name) == name[j..];
    LowerSlice(name, j);
  }

  /** A name that, lower-cased, ends with the extension `e` has a dot where `e` starts and none after it. */
  lemma {:induction false} EndingDots(name: string, e: string)
    requires IsExtension(e) && |name| > |e| && EndsWith(Lower(name), e)
    ensures name[|name| - |e|] == '.'
    ensures forall k :: |name| - |e| < k < |name| ==> name[k] != '.'
  {
    var j := |name| - |e|;
    var low := Lower(name);
    assert low[j..] == e;
    forall k | j <= k < |name|
      ensures LowerChar(name[k]) == e[k - j]
    {
      assert low[k] == low[j..][k - j];
    }
    LowerKeepsDot(name[j]);
    forall k | j < k < |name|
      ensures name[k] != '.'
    {
      LowerKeepsDot(name[k]);
      assert e[k - j] == e[1..][k - j - 1];
    }
  }

  /** A dot with no dot after it is the last dot. */
  lemma {:induction false} LastDotAt(s: string, j: nat)
    requires j < |s| && s[j] == '.'
    requires forall k :: j < k < |s| ==> s[k] != '.'
    ensures RFindChar(s, '.') == j
  {
  }

  /** Lower-casing neither makes nor removes a dot. */
  lemma LowerKeepsDot(c: char)
    ensures LowerChar(c) == '.' <==> c == '.'
  {
    if IsAsciiUpper(c) {
      assert LowerChar(c) as int == c as int + 32;
    }
  }

  /** Both directions for one extension. */
  lemma {:induction false} SuffixByEnding(name: string, e: string)
    requires IsExtension(e)
    ensures Lower(Suffix(name)) == e <==> |name| > |e| && EndsWith(Lower(name), e)
  {
    if Lower(Suffix(name)) == e {
      SuffixGivesEnding(name, e);
    }
    if |name| > |e| && EndsWith(Lower(name), e) {
      EndingGivesSuffix(name, e);
    }
  }

  /** The name, lower-cased, ends with `e` and is longer than it. */
  predicate EndsWithExtension(name: string, e: string) {
    |name| > |e| && EndsWith(Lower(name), e)
  }

  /**
   * The suffix rule read as an end-of-name test: a table file's name, lower-cased,
   * ends with one of the four table extensions and is longer than it (a bare
   * `.csv` is a hidden file without a suffix).
   */
  lemma {:induction false} TableFileByEnding(path: string)
    ensures IsTableFile(path) <==>
      var name := BaseName(path);
      EndsWithExtension(name, ".xlsx") || EndsWithExtension(name, ".xls") ||
      EndsWithExtension(name, ".csv") || EndsWithExtension(name, ".tsv")
  {
    var name := BaseName(path);
    SuffixByEnding(name, ".xlsx");
    SuffixByEnding(name, ".xls");
    SuffixByEnding(name, ".csv");
    SuffixByEnding(name, ".tsv");
  }

  /** Workbook and CSV files are exactly the table files. */
  lemma TableFileKinds(path: string)
    ensures IsTableFile(path) <==> IsWorkbookFile(path) || IsCsvFile(path)
    ensures !(IsWorkbookFile(path) && IsCsvFile(path))
  {
  }

  // ---------------------------------------------------------------- tables and directories

  /** The early-return loop over a table's cell texts. */
  function AnyVietnamese(texts: seq<string>): bool {
    texts != [] && (ContainsVietnamese(texts[0]) || AnyVietnamese(texts[1..]))
  }

  /**
   * `check_table_has_vietnamese`, given the cell texts the reader for the file's
   * kind returns (`[]` when reading fails): `False` for a non-table file.
   */
  function CheckTableHasVietnamese(path: string, texts: seq<string>): bool {
    IsTableFile(path) && AnyVietnamese(texts)
  }

  lemma {:induction false} AnyVietnameseSpec(texts: seq<string>)
    ensures AnyVietnamese(texts) <==> exists i :: 0 <= i < |texts| && ContainsVietnamese(texts[i])
  {
    if texts != [] {
      AnyVietnameseSpec(texts[1..]);
      assert forall i :: 0 < i < |texts| ==> texts[i] == texts[1..][i - 1];
    }
  }

  /** A table holds Vietnamese exactly when it is a table file and one of its texts has a Vietnamese character. */
  lemma CheckTableSpec(path: string, texts: seq<string>)
    ensures CheckTableHasVietnamese(path, texts) <==>
      IsTableFile(path) && exists i, j :: 0 <= i < |texts| && 0 <= j < |texts[i]| && IsVietnameseChar(texts[i][j])
  {
    AnyVietnameseSpec(texts);
    forall i | 0 <= i < |texts| {
      ContainsVietnameseSpec(texts[i]);
    }
  }

  /** One listed directory entry: its path, whether it is a regular file, and its cell texts. */
  datatype DirEntry = DirEntry(path: string, isFile: bool, texts: seq<string>)

  /** What listing a directory path finds. */
  datatype Listing = Missing | NotADirectory | Entries(entries: seq<DirEntry>)

  /** An entry the scan reports: a regular table file that holds Vietnamese. */
  predicate Reported(e: DirEntry) {
    e.isFile && IsTableFile(e.path) && CheckTableHasVietnamese(e.path, e.texts)
  }

  /** The names of the reported entries, in listing order. */
  function ValidTables(es: seq<DirEntry>): seq<string> {
    if es == [] then []
    else (if Reported(es[0]) then [BaseName(es[0].path)] else []) + ValidTables(es[1..])
  }

  /**
   * `scan_directory`, given the listing of the mode asked for (`iterdir` or
   * `rglob`): `[]` for a missing path or a non-directory.
   */
  function ScanDirectory(d: Listing): seq<string> {
    match d
    case Missing => []
    case NotADirectory => []
    case Entries(es) => ValidTables(es)
  }

  /** The scan's result is, in order, the names of exactly the reported entries. */
  lemma {:induction false} ValidTablesSpec(es: seq<DirEntry>)
    ensures |ValidTables(es)| <= |es|
    ensures forall n :: n in ValidTables(es) <==> exists k :: 0 <= k < |es| && Reported(es[k]) && BaseName(es[k].path) == n
  {
    if es != [] {
      ValidTablesSpec(es[1..]);
      assert forall k :: 0 < k < |es| ==> es[k] == es[1..][k - 1];
      forall n | exists k :: 0 <= k < |es| && Reported(es[k]) && BaseName(es[k].path) == n
        ensures n in ValidTables(es)
      {
        var k :| 0 <= k < |es| && Reported(es[k]) && BaseName(es[k].path) == n;
        if k > 0 {
          assert Reported(es[1..][k - 1]) && BaseName(es[1..][k - 1].path) == n;
        }
      }
    }
  }
}
