/**
 * Python `str` operations the tools rely on, written out over `seq<char>`.
 * Case mapping is ASCII-only; whitespace is the exact set of characters for which
 * Python's `str.isspace()` holds, so `Strip` and `WordCount` agree with `str.strip()` and `str.split()`.
 */
module Text {

  // ---------------------------------------------------------------- characters

  predicate IsAsciiUpper(c: char) { 'A' <= c <= 'Z' }
  predicate IsAsciiLower(c: char) { 'a' <= c <= 'z' }
  predicate IsAsciiLetter(c: char) { IsAsciiUpper(c) || IsAsciiLower(c) }
  predicate IsDigit(c: char) { '0' <= c <= '9' }

  function UpperChar(c: char): char {
    if IsAsciiLower(c) then (c as int - 32) as char else c
  }

  function LowerChar(c: char): char {
    if IsAsciiUpper(c) then (c as int + 32) as char else c
  }

  /** The characters Python's `str.isspace()` accepts. */
  const SpaceChars: set<char> := {' ', '\t', '\n', '\U{b}', '\U{c}', '\r', '\U{1c}', '\U{1d}', '\U{1e}', '\U{1f}', '\U{85}', '\U{a0}',
    '\U{1680}', '\U{2000}', '\U{2001}', '\U{2002}', '\U{2003}', '\U{2004}', '\U{2005}', '\U{2006}', '\U{2007}', '\U{2008}',
    '\U{2009}', '\U{200a}', '\U{2028}', '\U{2029}', '\U{202f}', '\U{205f}', '\U{3000}'}
  predicate IsSpace(c: char) { c in SpaceChars }

  // ---------------------------------------------------------------- case mapping

  /** `str.upper()` restricted to ASCII letters. */
  function Upper(s: string): (r: string)
    ensures |r| == |s|
    ensures forall i :: 0 <= i < |s| ==> r[i] == UpperChar(s[i])
  {
    if s == [] then [] else [UpperChar(s[0])] + Upper(s[1..])
  }

  /** `str.lower()` restricted to ASCII letters. */
  function Lower(s: string): (r: string)
    ensures |r| == |s|
    ensures forall i :: 0 <= i < |s| ==> r[i] == LowerChar(s[i])
  {
    if s == [] then [] else [LowerChar(s[0])] + Lower(s[1..])
  }

  // ---------------------------------------------------------------- searching

  /** The regex `$` anchor also matches just before one final newline. */
  function DropFinalNewline(s: string): (r: string)
    ensures r == s || s == r + "\n"
  {
    if s != [] && s[|s| - 1] == '\n' then s[..|s| - 1] else s
  }

  predicate StartsWith(s: string, p: string) { |p| <= |s| && s[..|p|] == p }
  predicate EndsWith(s: string, p: string) { |p| <= |s| && s[|s| - |p|..] == p }

  /** `sub` occurs in `s` starting at index `i`. */
  predicate OccursAt(s: string, sub: string, i: int) {
    0 <= i && i + |sub| <= |s| && s[i..i + |sub|] == sub
  }

  /** Python's `sub in s`. */
  predicate Contains(s: string, sub: string) {
    exists i :: 0 <= i <= |s| && OccursAt(s, sub, i)
  }

  predicate HasChar(s: string, c: char) { c in s }

  /** `s.find(sub)`: the first index where `sub` occurs, or -1. */
  function Find(s: string, sub: string): (r: int)
    ensures r == -1 || 0 <= r <= |s| - |sub|
    ensures r == -1 <==> !Contains(s, sub)
    ensures r >= 0 ==> OccursAt(s, sub, r) && forall j :: 0 <= j < r ==> !OccursAt(s, sub, j)
  {
    FindFrom(s, sub, 0)
  }

  function FindFrom(s: string, sub: string, k: nat): (r: int)
    requires k <= |s|
    ensures r == -1 || k <= r <= |s| - |sub|
    ensures r == -1 <==> forall j :: k <= j ==> !OccursAt(s, sub, j)
    ensures r >= 0 ==> OccursAt(s, sub, r) && forall j :: k <= j < r ==> !OccursAt(s, sub, j)
    decreases |s| - k
  {
    if k + |sub| > |s| then -1
    else if OccursAt(s, sub, k) then k
    else FindFrom(s, sub, k + 1)
  }

  /** `s.find(c)` for one character: the first index holding `c`, or -1. */
  function IndexOfChar(s: string, c: char): (r: int)
    ensures -1 <= r < |s|
    ensures r == -1 <==> c !in s
    ensures r >= 0 ==> s[r] == c && c !in s[..r]
  {
    if s == [] then -1
    else if s[0] == c then 0
    else
      var r := IndexOfChar(s[1..], c);
      if r == -1 then -1
      else
        assert s[..r + 1] == [s[0]] + s[1..][..r];
        r + 1
  }

  /** `s.rfind(c)` for one character: the last index holding `c`, or -1. */
  function RFindChar(s: string, c: char): (r: int)
    ensures -1 <= r < |s|
    ensures r == -1 <==> c !in s
    ensures r >= 0 ==> s[r] == c && forall j :: r < j < |s| ==> s[j] != c
  {
    if s == [] then -1
    else if s[|s| - 1] == c then |s| - 1
    else RFindChar(s[..|s| - 1], c)
  }

  /** `os.path.join(dir, name)` (POSIX): an absolute `name` discards `dir`. */
  function Join(dir: string, name: string): string {
    if name != [] && name[0] == '/' then name
    else if dir == [] || dir[|dir| - 1] == '/' then dir + name
    else dir + "/" + name
  }

  /** The joined path ends with the joined name. */
  lemma JoinEndsWithName(dir: string, name: string)
    ensures EndsWith(Join(dir, name), name)
  {
    var p := Join(dir, name);
    assert p[|p| - |name|..] == name;
  }

  // ---------------------------------------------------------------- rewriting

  /** `s.replace(c, d)` for single characters. */
  function ReplaceChar(s: string, c: char, d: char): (r: string)
    ensures |r| == |s|
    ensures forall i :: 0 <= i < |s| ==> r[i] == (if s[i] == c then d else s[i])
  {
    if s == [] then [] else [if s[0] == c then d else s[0]] + ReplaceChar(s[1..], c, d)
  }

  /** Successive `replace(c, d)` for every `c` in `cs`, in order. */
  function ReplaceAll(s: string, cs: seq<char>, d: char): (r: string)
    ensures |r| == |s|
    ensures forall i :: 0 <= i < |s| ==> r[i] == (if s[i] in cs then d else s[i])
    decreases cs
  {
    if cs == [] then s else ReplaceAll(ReplaceChar(s, cs[0], d), cs[1..], d)
  }

  /** After replacing the characters `cs` by `d`, none of them is left (`d` not being one). */
  lemma ReplaceAllAvoids(s: string, cs: seq<char>, d: char)
    requires d !in cs
    ensures forall c :: c in ReplaceAll(s, cs, d) ==> c !in cs
  {
    var t := ReplaceAll(s, cs, d);
    forall c | c in t ensures c !in cs {
      var i :| 0 <= i < |t| && t[i] == c;
    }
  }

  /** Replacing characters that do not occur changes nothing. */
  lemma ReplaceAllAbsent(s: string, cs: seq<char>, d: char)
    requires forall c :: c in s ==> c !in cs
    ensures ReplaceAll(s, cs, d) == s
  {
    var r := ReplaceAll(s, cs, d);
    forall i | 0 <= i < |s| ensures r[i] == s[i] {
      assert s[i] in s;
    }
  }

  /** The loop `for char in invalid_chars: clean_name = clean_name.replace(char, d)` of the name cleaners. */
  method ReplaceEach(name: string, invalidChars: seq<char>, d: char) returns (cleanName: string)
    ensures cleanName == ReplaceAll(name, invalidChars, d)
  {
    cleanName := name;
    assert invalidChars[0..] == invalidChars;
    for k := 0 to |invalidChars|
      invariant ReplaceAll(cleanName, invalidChars[k..], d) == ReplaceAll(name, invalidChars, d)
    {
      assert invalidChars[k..][1..] == invalidChars[k + 1..];
      cleanName := ReplaceChar(cleanName, invalidChars[k], d);
    }
  }

  /** `s.replace(c, "")`: every occurrence of `c` removed. */
  function RemoveChar(s: string, c: char): (r: string)
    ensures |r| <= |s|
    ensures c !in r
  {
    if s == [] then [] else (if s[0] == c then [] else [s[0]]) + RemoveChar(s[1..], c)
  }

  /** `s.count(c)` for one character. */
  function CountChar(s: string, c: char): nat {
    if s == [] then 0 else (if s[0] == c then 1 else 0) + CountChar(s[1..], c)
  }

  // ---------------------------------------------------------------- stripping

  /** `s.lstrip(chars)` where `chars` is given as a predicate on characters. */
  function StripLeftBy(s: string, drop: char -> bool): (r: string)
    ensures |r| <= |s| && r == s[|s| - |r|..]
    ensures r != [] ==> !drop(r[0])
    ensures forall i :: 0 <= i < |s| - |r| ==> drop(s[i])
  {
    if s != [] && drop(s[0]) then StripLeftBy(s[1..], drop) else s
  }

  /** `s.rstrip(chars)` where `chars` is given as a predicate on characters. */
  function StripRightBy(s: string, drop: char -> bool): (r: string)
    ensures |r| <= |s| && r == s[..|r|]
    ensures r != [] ==> !drop(r[|r| - 1])
    ensures forall i :: |r| <= i < |s| ==> drop(s[i])
  {
    if s != [] && drop(s[|s| - 1]) then StripRightBy(s[..|s| - 1], drop) else s
  }

  function StripBy(s: string, drop: char -> bool): (r: string)
    ensures |r| <= |s|
    ensures r != [] ==> !drop(r[0]) && !drop(r[|r| - 1])
    ensures forall c :: c in r ==> c in s
  {
    StripRightBy(StripLeftBy(s, drop), drop)
  }

  /** Python's `s.lstrip()`. */
  function StripLeft(s: string): (r: string)
    ensures |r| <= |s|
    ensures r != [] ==> !IsSpace(r[0])
  {
    if s != [] && IsSpace(s[0]) then StripLeft(s[1..]) else s
  }

  /** Python's `s.rstrip()`. */
  function StripRight(s: string): (r: string)
    ensures |r| <= |s|
    ensures r != [] ==> r[0] == s[0] && !IsSpace(r[|r| - 1])
  {
    if s != [] && IsSpace(s[|s| - 1]) then StripRight(s[..|s| - 1]) else s
  }

  /** Python's `s.strip()`. */
  function Strip(s: string): (r: string)
    ensures |r| <= |s|
    ensures r != [] ==> !IsSpace(r[0]) && !IsSpace(r[|r| - 1])
  {
    StripRight(StripLeft(s))
  }

  /** `lstrip` removes a prefix made of whitespace only. */
  lemma {:induction false} StripLeftSuffix(s: string)
    ensures var r := StripLeft(s); r == s[|s| - |r|..] && forall i :: 0 <= i < |s| - |r| ==> IsSpace(s[i])
  {
    if s != [] && IsSpace(s[0]) {
      StripLeftSuffix(s[1..]);
    }
  }

  /** `rstrip` removes a suffix made of whitespace only. */
  lemma {:induction false} StripRightPrefix(s: string)
    ensures var r := StripRight(s); r == s[..|r|] && forall i :: |r| <= i < |s| ==> IsSpace(s[i])
  {
    if s != [] && IsSpace(s[|s| - 1]) {
      StripRightPrefix(s[..|s| - 1]);
    }
  }

  /** Stripping keeps only characters of the original. */
  lemma StripInside(s: string)
    ensures forall c :: c in Strip(s) ==> c in s
  {
    var l := StripLeft(s);
    StripLeftSuffix(s);
    StripRightPrefix(l);
    assert Strip(s) == l[..|Strip(s)|];
  }

  /** Stripping a string that already starts and ends with kept characters changes nothing. */
  lemma StripByFixed(s: string, drop: char -> bool)
    requires s != [] ==> !drop(s[0]) && !drop(s[|s| - 1])
    ensures StripBy(s, drop) == s
  {
  }

  // ---------------------------------------------------------------- splitting

  /** Python's `s.split(sep)` for a one-character separator: never empty, pieces free of `sep`. */
  function Split(s: string, sep: char): (r: seq<string>)
    ensures |r| == CountChar(s, sep) + 1
    ensures forall i :: 0 <= i < |r| ==> sep !in r[i]
  {
    if s == [] then [""]
    else
      var rest := Split(s[1..], sep);
      if s[0] == sep then [""] + rest else [[s[0]] + rest[0]] + rest[1..]
  }

  /** `len(s.split())`: the number of maximal runs of non-whitespace characters. */
  function WordCount(s: string): nat {
    if s == [] then 0
    else if IsSpace(s[0]) then WordCount(s[1..])
    else 1 + WordCount(StripLeftBy(s, c => !IsSpace(c)))
  }

  // ---------------------------------------------------------------- decimal numbers

  predicate AllDigits(s: string) { forall i :: 0 <= i < |s| ==> IsDigit(s[i]) }

  function DigitChar(d: nat): char
    requires d < 10
  {
    ('0' as int + d) as char
  }

  /** `str(n)` for a natural number. */
  function NatToString(n: nat): (r: string)
    ensures r != [] && AllDigits(r)
  {
    if n < 10 then [DigitChar(n)] else NatToString(n / 10) + [DigitChar(n % 10)]
  }

  /** `str(n)` for an integer: a minus sign before the digits of a negative number. */
  function IntToString(n: int): string
  {
    if n >= 0 then NatToString(n) else "-" + NatToString(-n)
  }

  /** `int(s)` for a string of ASCII digits (leading zeros allowed). */
  function ParseDigits(s: string): nat
    requires AllDigits(s)
  {
    if s == [] then 0 else ParseDigits(s[..|s| - 1]) * 10 + (s[|s| - 1] as int - '0' as int)
  }

  /** `int(str(n)) == n`. */
  lemma {:induction false} ParseNatToString(n: nat)
    ensures ParseDigits(NatToString(n)) == n
  {
    if n >= 10 {
      var s := NatToString(n);
      assert s[..|s| - 1] == NatToString(n / 10);
      ParseNatToString(n / 10);
    }
  }

  /** `str(n)` and `str(m)` differ whenever `n != m`. */
  lemma NatToStringInjective(n: nat, m: nat)
    requires NatToString(n) == NatToString(m)
    ensures n == m
  {
    ParseNatToString(n);
    ParseNatToString(m);
  }

  /** Decimal strings never contain a character outside `'0'..'9'`. */
  lemma NatToStringHasNo(n: nat, c: char)
    requires !IsDigit(c)
    ensures c !in NatToString(n)
  {
  }
}
