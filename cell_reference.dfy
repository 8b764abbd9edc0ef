/**
 * Excel "A1" cell references: the parser shared by both translators and the
 * formatter of the Vietnamese scanner, which are inverse to each other.
 * Columns are bijective base-26 numerals (A = 1, Z = 26, AA = 27).
 */
module CellReference {
  import opened Wrappers
  import opened Text

  predicate AllUpper(s: string) { forall i :: 0 <= i < |s| ==> IsAsciiUpper(s[i]) }

  predicate AllLetters(s: string) { forall i :: 0 <= i < |s| ==> IsAsciiLetter(s[i]) }

  /** The letter for digit `d` (0 = 'A') of a bijective base-26 numeral. */
  function LetterChar(d: nat): (c: char)
    requires d < 26
    ensures IsAsciiUpper(c)
  {
    ('A' as int + d) as char
  }

  /** The value `ord(c) - ord('A') + 1` of one column letter. */
  function LetterValue(c: char): (v: nat)
    requires IsAsciiUpper(c)
    ensures 1 <= v <= 26
  {
    c as int - 'A' as int + 1
  }

  /** The fold `col = col * 26 + letter` over the letters of a column name. */
  function ColumnValue(letters: string): nat
    requires AllUpper(letters)
  {
    if letters == [] then 0
    else ColumnValue(letters[..|letters| - 1]) * 26 + LetterValue(letters[|letters| - 1])
  }

  /** The letters of column `col`; empty when `col <= 0`. */
  function ColumnLetters(col: int): (r: string)
    ensures AllUpper(r)
    ensures r == [] <==> col <= 0
    decreases col
  {
    if col <= 0 then [] else ColumnLetters((col - 1) / 26) + [LetterChar((col - 1) % 26)]
  }

  /** `_get_excel_cell_reference(row, col)`: the column letters followed by the decimal row. */
  function FormatCellReference(row: int, col: int): string {
    ColumnLetters(col) + IntToString(row)
  }

  /** The number of leading ASCII upper-case letters of `s`. */
  function LeadingUpper(s: string): (n: nat)
    ensures n <= |s| && AllUpper(s[..n])
    ensures n < |s| ==> !IsAsciiUpper(s[n])
  {
    if s == [] || !IsAsciiUpper(s[0]) then 0
    else
      var n := 1 + LeadingUpper(s[1..]);
      assert s[..n] == [s[0]] + s[1..][..n - 1];
      n
  }

  /**
   * `parse_cell_reference`: `Some((row, col))` when the upper-cased reference is
   * one or more letters followed by one or more digits; `None` stands for the
   * `(None, None)` the source returns otherwise.
   */
  function ParseCellReference(cellRef: string): Option<(int, int)> {
    var t := DropFinalNewline(Upper(cellRef));
    var n := LeadingUpper(t);
    if n == 0 || n == |t| || !AllDigits(t[n..]) then None
    else Some((ParseDigits(t[n..]), ColumnValue(t[..n])))
  }

  // ---------------------------------------------------------------- properties

  /** Column numbers and column names are in bijection: the formatter inverts the fold. */
  lemma {:induction false} ColumnValueOfLetters(col: int)
    requires col >= 0
    ensures ColumnValue(ColumnLetters(col)) == col
    decreases col
  {
    if col > 0 {
      var p := ColumnLetters((col - 1) / 26);
      var r := ColumnLetters(col);
      assert r[..|r| - 1] == p;
      ColumnValueOfLetters((col - 1) / 26);
    }
  }

  /** ... and the fold inverts the formatter, so every letter string names exactly one column. */
  lemma {:induction false} LettersOfColumnValue(letters: string)
    requires AllUpper(letters)
    ensures ColumnLetters(ColumnValue(letters)) == letters
  {
    if letters != [] {
      var init := letters[..|letters| - 1];
      var d := LetterValue(letters[|letters| - 1]) - 1;
      var v := ColumnValue(letters);
      assert v - 1 == ColumnValue(init) * 26 + d;
      assert (v - 1) / 26 == ColumnValue(init) && (v - 1) % 26 == d;
      LettersOfColumnValue(init);
      assert LetterChar(d) == letters[|letters| - 1];
    }
  }

  /** Columns 1, 26, 27, 52, 53 and 703 are A, Z, AA, AZ, BA and AAA. */
  lemma ColumnLettersExamples()
    ensures ColumnLetters(1) == "A" && ColumnLetters(26) == "Z" && ColumnLetters(27) == "AA"
    ensures ColumnLetters(52) == "AZ" && ColumnLetters(53) == "BA" && ColumnLetters(703) == "AAA"
  {
    assert ColumnLetters(1) == "A";
    assert ColumnLetters(2) == "B";
    assert ColumnLetters(26) == "Z";
    assert ColumnLetters(27) == "AA";
    assert ColumnLetters(52) == "AZ";
    assert ColumnLetters(53) == "BA";
    assert ColumnLetters(703) == ColumnLetters(27) + "A";
  }

  /** Without a positive column the reference is just the decimal row. */
  lemma FormatWithoutColumn(row: int, col: int)
    requires col <= 0
    ensures FormatCellReference(row, col) == IntToString(row)
  {
  }

  lemma UpperOfUpper(s: string)
    requires AllUpper(s)
    ensures Upper(s) == s
  {
  }

  lemma UpperAppend(a: string, b: string)
    ensures Upper(a + b) == Upper(a) + Upper(b)
  {
    assert forall i :: 0 <= i < |a + b| ==> Upper(a + b)[i] == (Upper(a) + Upper(b))[i];
  }

  lemma UpperOfDigits(s: string)
    requires AllDigits(s)
    ensures Upper(s) == s
  {
  }

  /** Letters followed by digits are split exactly at the first digit. */
  lemma {:induction false} SplitAtDigits(l: string, d: string)
    requires AllUpper(l) && d != [] && AllDigits(d)
    ensures LeadingUpper(l + d) == |l|
    ensures (l + d)[..|l|] == l && (l + d)[|l|..] == d
  {
    if l == [] {
      assert l + d == d;
      assert !IsAsciiUpper(d[0]);
    } else {
      assert (l + d)[1..] == l[1..] + d;
      SplitAtDigits(l[1..], d);
    }
  }

  /** Round trip: parsing a formatted reference gives back the row and column. */
  lemma ParseFormat(row: int, col: int)
    requires row >= 0 && col >= 1
    ensures ParseCellReference(FormatCellReference(row, col)) == Some((row, col))
  {
    var l := ColumnLetters(col);
    var d := NatToString(row);
    var s := l + d;
    assert FormatCellReference(row, col) == s;
    UpperOfUpper(l);
    UpperOfDigits(d);
    UpperAppend(l, d);
    assert Upper(s) == s;
    assert IsDigit(s[|s| - 1]);
    assert DropFinalNewline(s) == s;
    SplitAtDigits(l, d);
    ColumnValueOfLetters(col);
    ParseNatToString(row);
  }

  /**
   * Acceptance, one direction: ASCII letters in either case followed by digits
   * parse to the digits' value and the upper-cased letters' column.
   */
  lemma ParseLettersDigits(l: string, d: string)
    requires l != [] && AllLetters(l) && d != [] && AllDigits(d)
    ensures ParseCellReference(l + d) == Some((ParseDigits(d), ColumnValue(Upper(l))))
  {
    var u := Upper(l);
    assert AllUpper(u) by {
      forall i | 0 <= i < |u| ensures IsAsciiUpper(u[i]) {
        assert IsAsciiLetter(l[i]);
      }
    }
    UpperOfDigits(d);
    UpperAppend(l, d);
    assert Upper(l + d) == u + d;
    assert IsDigit((u + d)[|u + d| - 1]);
    assert DropFinalNewline(u + d) == u + d;
    SplitAtDigits(u, d);
  }

  /**
   * Acceptance, other direction: whatever parses is, once upper-cased, letters
   * followed by digits, possibly with one final newline.
   */
  lemma ParsedShape(cellRef: string)
    requires ParseCellReference(cellRef).Some?
    ensures exists l: string, d: string ::
      l != [] && AllUpper(l) && d != [] && AllDigits(d)
      && (Upper(cellRef) == l + d || Upper(cellRef) == l + d + "\n")
      && ParseCellReference(cellRef) == Some((ParseDigits(d), ColumnValue(l)))
  {
    var t := DropFinalNewline(Upper(cellRef));
    var n := LeadingUpper(t);
    var l, d := t[..n], t[n..];
    assert t == l + d;
  }

  /** Row 0 is accepted: "A0" parses to row 0, column 1. */
  lemma ParseRowZero()
    ensures ParseCellReference("A0") == Some((0, 1))
  {
    ParseLettersDigits("A", "0");
  }
}
