/**
 * The JSON error detector: line heuristics for single quotes, comments and trailing commas, a
 * structural walk that flags repeated keys and arrays of mixed element types, the split of the
 * findings into errors and warnings, the text report with its two count lines, and the folder run
 * that reads those counts back out of each file's report.
 */
module JsonErrors {
  import opened Wrappers
  import opened Collections
  import opened Text
  import opened Json

  // ---------------------------------------------------------------- findings

  datatype Severity = Error | Warning

  /** A line or column: a 1-based number, or `'未知'`. */
  datatype Position = Known(n: nat) | Unknown

  /** The `'type'` of a finding; an array mismatch keeps the 1-based position of the element. */
  datatype Kind =
    | SingleQuote | Comment | TrailingCommaObject | TrailingCommaArray
    | ParseError | ReadError | DuplicateKeys | ArrayTypeMismatch(position: nat)
    | EncodingWarning | EncodingError | EncodingCheckError

  /** One finding; its `'message'` is not modelled. */
  datatype Finding = Finding(kind: Kind, line: Position, column: Position, severity: Severity)

  /** The findings of one severity, in order: `[e for e in fs if e['severity'] == s]`. */
  function OfSeverity(fs: seq<Finding>, s: Severity): (r: seq<Finding>)
    ensures |r| <= |fs|
    ensures forall k :: 0 <= k < |r| ==> r[k].severity == s && r[k] in fs
  {
    if fs == [] then [] else (if fs[0].severity == s then [fs[0]] else []) + OfSeverity(fs[1..], s)
  }

  lemma {:induction false} OfSeverityAppend(a: seq<Finding>, b: seq<Finding>, s: Severity)
    ensures OfSeverity(a + b, s) == OfSeverity(a, s) + OfSeverity(b, s)
  {
    if a == [] {
      assert a + b == b;
    } else {
      assert (a + b)[1..] == a[1..] + b;
      OfSeverityAppend(a[1..], b, s);
    }
  }

  /** Errors and warnings split the findings: each finding lands in exactly one of the two lists. */
  lemma {:induction false} OfSeveritySplit(fs: seq<Finding>)
    ensures |OfSeverity(fs, Error)| + |OfSeverity(fs, Warning)| == |fs|
  {
    if fs != [] {
      OfSeveritySplit(fs[1..]);
    }
  }

  /** Findings that all have severity `s` pass the filter unchanged. */
  lemma {:induction false} OfSeverityAll(fs: seq<Finding>, s: Severity)
    requires forall k :: 0 <= k < |fs| ==> fs[k].severity == s
    ensures OfSeverity(fs, s) == fs
  {
    if fs != [] {
      OfSeverityAll(fs[1..], s);
    }
  }

  // ---------------------------------------------------------------- _detect_syntax_errors

  /** The findings for line `i` (1-based) of the content, judged on the stripped line. */
  function LineErrors(line: string, i: nat): (r: seq<Finding>)
    ensures forall k :: 0 <= k < |r| ==> r[k].line == Known(i) && r[k].severity == Error && r[k].column.Known? && r[k].column.n >= 1
  {
    var t := Strip(line);
    if t == [] || StartsWith(t, "//") then [] else QuoteErrors(t, i) + CommentErrors(t, i)
  }

  /** A single quote anywhere in the stripped line, reported at its first occurrence. */
  function QuoteErrors(t: string, i: nat): (r: seq<Finding>)
    ensures |r| <= 1 && (r != [] <==> '\'' in t)
    ensures r != [] ==> r[0].line == Known(i) && r[0].severity == Error && r[0].column.Known? && r[0].column.n >= 1
  {
    if '\'' in t then [Finding(SingleQuote, Known(i), Known(IndexOfChar(t, '\'') + 1), Error)] else []
  }

  /** `//` inside the stripped line but not at its start, reported at its first occurrence. */
  function CommentErrors(t: string, i: nat): (r: seq<Finding>)
    ensures |r| <= 1 && (r != [] <==> Contains(t, "//") && !StartsWith(Strip(t), "//"))
    ensures r != [] ==> r[0].line == Known(i) && r[0].severity == Error && r[0].column.Known? && r[0].column.n >= 1
  {
    if Contains(t, "//") && !StartsWith(Strip(t), "//") then [Finding(Comment, Known(i), Known(Find(t, "//") + 1), Error)] else []
  }

  /** The quote and comment findings of the first `n` lines. */
  function LinesErrors(lines: seq<string>, n: nat): (r: seq<Finding>)
    requires n <= |lines|
    ensures forall k :: 0 <= k < |r| ==>
              r[k].line.Known? && 1 <= r[k].line.n <= n && r[k].severity == Error && r[k].column.Known? && r[k].column.n >= 1
  {
    if n == 0 then [] else LinesErrors(lines, n - 1) + LineErrors(lines[n - 1], n)
  }

  /** `re.search(r',\s*' + close, line)`: a comma, then only whitespace, then `close`. */
  predicate CommaBefore(line: string, close: char) {
    exists p, q :: 0 <= p < q < |line| && line[p] == ',' && line[q] == close && forall k :: p < k < q ==> IsSpace(line[k])
  }

  /** The trailing-comma findings for raw line `i`, each at the last comma of the line. */
  function CommaErrors(line: string, i: nat): (r: seq<Finding>)
    ensures forall k :: 0 <= k < |r| ==>
              r[k].line == Known(i) && r[k].severity == Error && r[k].column.Known? &&
              1 <= r[k].column.n <= |line| && line[r[k].column.n - 1] == ','
    ensures |r| == (if CommaBefore(line, '}') then 1 else 0) + (if CommaBefore(line, ']') then 1 else 0)
  {
    var commaPos := RFindChar(line, ',');
    (if CommaBefore(line, '}') && commaPos != -1 then [Finding(TrailingCommaObject, Known(i), Known(commaPos + 1), Error)] else []) +
    (if CommaBefore(line, ']') && commaPos != -1 then [Finding(TrailingCommaArray, Known(i), Known(commaPos + 1), Error)] else [])
  }

  /** `_detect_trailing_commas` over the first `n` lines. */
  function TrailingCommas(lines: seq<string>, n: nat): (r: seq<Finding>)
    requires n <= |lines|
    ensures forall k :: 0 <= k < |r| ==>
              r[k].line.Known? && 1 <= r[k].line.n <= n && r[k].severity == Error && r[k].column.Known? && r[k].column.n >= 1
  {
    if n == 0 then [] else TrailingCommas(lines, n - 1) + CommaErrors(lines[n - 1], n)
  }

  /** `_detect_syntax_errors`: the per-line findings, then the trailing commas. */
  function SyntaxErrors(content: string): seq<Finding> {
    var lines := Split(content, '\n');
    LinesErrors(lines, |lines|) + TrailingCommas(lines, |lines|)
  }

  /** A matched pattern always has a comma, so the `comma_pos != -1` guard never drops a match. */
  lemma CommaBeforeHasComma(line: string, close: char)
    requires CommaBefore(line, close)
    ensures RFindChar(line, ',') != -1
  {
    var p, q :| 0 <= p < q < |line| && line[p] == ',' && line[q] == close && forall k :: p < k < q ==> IsSpace(line[k]);
    assert ',' in line;
  }

  /** Every syntax finding is an error at a 1-based line no later than the last line, and a column of at least 1. */
  lemma SyntaxErrorsLines(content: string)
    ensures forall f :: f in SyntaxErrors(content) ==>
              f.severity == Error && f.line.Known? && 1 <= f.line.n <= CountChar(content, '\n') + 1 &&
              f.column.Known? && f.column.n >= 1
  {
    var lines := Split(content, '\n');
    var a := LinesErrors(lines, |lines|);
    var b := TrailingCommas(lines, |lines|);
    forall f: Finding | f in a + b
      ensures f.severity == Error && f.line.Known? && 1 <= f.line.n <= |lines| && f.column.Known? && f.column.n >= 1
    {
      if f in a {
        var k :| 0 <= k < |a| && a[k] == f;
      } else {
        var k :| 0 <= k < |b| && b[k] == f;
      }
    }
  }

  /** The bracket a trailing-comma kind is about. */
  function CloseOf(kind: Kind): char {
    if kind == TrailingCommaObject then '}' else ']'
  }

  /** Line `i` of the first `n` has a finding of `kind`. */
  predicate ReportedAt(fs: seq<Finding>, i: nat, kind: Kind) {
    exists k :: 0 <= k < |fs| && fs[k].line == Known(i) && fs[k].kind == kind
  }

  /** A finding of the concatenation is a finding of one of the two parts. */
  lemma ReportedAtAppend(a: seq<Finding>, b: seq<Finding>, i: nat, kind: Kind)
    ensures ReportedAt(a + b, i, kind) <==> ReportedAt(a, i, kind) || ReportedAt(b, i, kind)
  {
    if ReportedAt(a + b, i, kind) {
      var k :| 0 <= k < |a + b| && (a + b)[k].line == Known(i) && (a + b)[k].kind == kind;
      if k >= |a| {
        assert b[k - |a|] == (a + b)[k];
      } else {
        assert a[k] == (a + b)[k];
      }
    }
    if ReportedAt(a, i, kind) {
      var k :| 0 <= k < |a| && a[k].line == Known(i) && a[k].kind == kind;
      assert (a + b)[k] == a[k];
    }
    if ReportedAt(b, i, kind) {
      var k :| 0 <= k < |b| && b[k].line == Known(i) && b[k].kind == kind;
      assert (a + b)[|a| + k] == b[k];
    }
  }

  /** The findings of one raw line: a finding of the bracket's kind exactly when the pattern matches. */
  lemma CommaErrorsExactly(line: string, n: nat, i: nat, kind: Kind)
    requires kind == TrailingCommaObject || kind == TrailingCommaArray
    ensures ReportedAt(CommaErrors(line, n), i, kind) <==> i == n && CommaBefore(line, CloseOf(kind))
  {
    var r := CommaErrors(line, n);
    if CommaBefore(line, CloseOf(kind)) {
      CommaBeforeHasComma(line, CloseOf(kind));
      if kind == TrailingCommaObject {
        assert r[0].kind == kind;
      } else {
        assert r[|r| - 1].kind == kind;
      }
    }
  }

  /**
   * Line `i` gets a trailing-comma finding for a bracket exactly when that raw line has a comma
   * followed, on the same line, by whitespace only and then the bracket.
   */
  lemma {:induction false} TrailingCommasExactly(lines: seq<string>, n: nat, i: nat, kind: Kind)
    requires 1 <= i <= n <= |lines|
    requires kind == TrailingCommaObject || kind == TrailingCommaArray
    ensures ReportedAt(TrailingCommas(lines, n), i, kind) <==> CommaBefore(lines[i - 1], CloseOf(kind))
  {
    var init := TrailingCommas(lines, n - 1);
    ReportedAtAppend(init, CommaErrors(lines[n - 1], n), i, kind);
    CommaErrorsExactly(lines[n - 1], n, i, kind);
    if i < n {
      TrailingCommasExactly(lines, n - 1, i, kind);
    } else {
      assert !ReportedAt(init, i, kind);
    }
  }

  /** A comma whose closing bracket is on the next line is not reported. */
  lemma CommaBeforeNewlineNotReported()
    ensures TrailingCommas(Split("[1,\n]", '\n'), 2) == []
  {
    assert "[1,\n]" == "[1," + "\n" + "]";
    SplitAt("[1,", "]", '\n');
    var lines := Split("[1,\n]", '\n');
    assert lines == ["[1,", "]"];
    assert !CommaBefore(lines[0], ']') && !CommaBefore(lines[0], '}');
    assert !CommaBefore(lines[1], ']') && !CommaBefore(lines[1], '}');
  }

  /** The loop of `_detect_syntax_errors`, followed by `_detect_trailing_commas`. */
  method DetectSyntaxErrors(content: string) returns (errors: seq<Finding>)
    ensures errors == SyntaxErrors(content)
  {
    errors := [];
    var lines := Split(content, '\n');
    for i := 0 to |lines|
      invariant errors == LinesErrors(lines, i)
    {
      var lineErrors := CheckLine(lines[i], i + 1);
      LinesErrorsStep(lines, i, lineErrors);
      errors := errors + lineErrors;
    }
    var trailingCommaErrors := DetectTrailingCommas(content);
    errors := errors + trailingCommaErrors;
  }

  /** The body of the loop of `_detect_syntax_errors` for raw line `lines[i - 1]`. */
  method CheckLine(rawLine: string, i: nat) returns (errors: seq<Finding>)
    ensures errors == LineErrors(rawLine, i)
  {
    var line := Strip(rawLine);
    if line == [] || StartsWith(line, "//") {
      return [];
    }
    var quoteErrors := if '\'' in line then [Finding(SingleQuote, Known(i), Known(IndexOfChar(line, '\'') + 1), Error)] else [];
    var commentErrors :=
      if Contains(line, "//") && !StartsWith(Strip(line), "//") then [Finding(Comment, Known(i), Known(Find(line, "//") + 1), Error)] else [];
    assert quoteErrors == QuoteErrors(line, i);
    assert commentErrors == CommentErrors(line, i);
    errors := quoteErrors + commentErrors;
  }

  lemma LinesErrorsStep(lines: seq<string>, i: nat, step: seq<Finding>)
    requires i < |lines| && step == LineErrors(lines[i], i + 1)
    ensures LinesErrors(lines, i + 1) == LinesErrors(lines, i) + step
  {
  }

  /** The loop of `_detect_trailing_commas`. */
  method DetectTrailingCommas(content: string) returns (errors: seq<Finding>)
    ensures errors == TrailingCommas(Split(content, '\n'), |Split(content, '\n')|)
  {
    errors := [];
    var lines := Split(content, '\n');
    for i := 0 to |lines|
      invariant errors == TrailingCommas(lines, i)
    {
      var lineErrors := CheckCommas(lines[i], i + 1);
      TrailingCommasStep(lines, i, lineErrors);
      errors := errors + lineErrors;
    }
  }

  /** The body of the loop of `_detect_trailing_commas` for one raw line. */
  method CheckCommas(line: string, i: nat) returns (errors: seq<Finding>)
    ensures errors == CommaErrors(line, i)
  {
    var commaPos := RFindChar(line, ',');
    var objectErrors := if CommaBefore(line, '}') && commaPos != -1 then [Finding(TrailingCommaObject, Known(i), Known(commaPos + 1), Error)] else [];
    var arrayErrors := if CommaBefore(line, ']') && commaPos != -1 then [Finding(TrailingCommaArray, Known(i), Known(commaPos + 1), Error)] else [];
    errors := objectErrors + arrayErrors;
  }

  lemma TrailingCommasStep(lines: seq<string>, i: nat, step: seq<Finding>)
    requires i < |lines| && step == CommaErrors(lines[i], i + 1)
    ensures TrailingCommas(lines, i + 1) == TrailingCommas(lines, i) + step
  {
  }

  // ---------------------------------------------------------------- detect_structure_errors

  /** The first element at or after `i` whose type differs from element 0, if any. */
  function FirstOtherType(items: seq<Json>, i: nat): (r: Option<nat>)
    requires 1 <= i <= |items|
    ensures r.None? <==> forall k :: i <= k < |items| ==> TypeOf(items[k]) == TypeOf(items[0])
    ensures r.Some? ==> i <= r.value < |items| && TypeOf(items[r.value]) != TypeOf(items[0]) &&
                        forall k :: i <= k < r.value ==> TypeOf(items[k]) == TypeOf(items[0])
    decreases |items| - i
  {
    if i == |items| then None
    else if TypeOf(items[i]) != TypeOf(items[0]) then Some(i)
    else FirstOtherType(items, i + 1)
  }

  /** The array check: at most one warning, at the first element whose type differs from the first. */
  function ArrayMismatch(items: seq<Json>): (r: seq<Finding>)
    ensures |r| <= 1
    ensures r == [] <==> forall k :: 0 <= k < |items| ==> TypeOf(items[k]) == TypeOf(items[0])
    ensures r != [] ==> r[0].kind.ArrayTypeMismatch?
    ensures r != [] && r[0].kind.ArrayTypeMismatch? ==>
              var p := r[0].kind.position;
              && r[0] == Finding(ArrayTypeMismatch(p), Unknown, Unknown, Warning)
              && 2 <= p <= |items| && TypeOf(items[p - 1]) != TypeOf(items[0])
              && forall k :: 0 <= k < p - 1 ==> TypeOf(items[k]) == TypeOf(items[0])
  {
    if items == [] then []
    else
      match FirstOtherType(items, 1)
      case None => []
      case Some(k) => [Finding(ArrayTypeMismatch(k + 1), Unknown, Unknown, Warning)]
  }

  /** `len(keys) != len(set(keys))`. */
  function DuplicateCheck(members: seq<Member>): (r: seq<Finding>)
    ensures r != [] <==> !DistinctKeys(members)
  {
    if DistinctKeys(members) then [] else [Finding(DuplicateKeys, Unknown, Unknown, Error)]
  }

  /** `detect_structure_errors`: an object's key check, then its container values; an array's type check, then its container items. */
  function StructureErrors(j: Json): seq<Finding>
    decreases j, 1
  {
    match j
    case Obj(members) => DuplicateCheck(members) + MembersErrors(members)
    case Arr(items) => ArrayMismatch(items) + ItemsErrors(items)
    case _ => []
  }

  function ItemsErrors(items: seq<Json>): seq<Finding>
    decreases items, 0
  {
    if items == [] then []
    else (if IsContainer(items[0]) then StructureErrors(items[0]) else []) + ItemsErrors(items[1..])
  }

  function MembersErrors(members: seq<Member>): seq<Finding>
    decreases members, 0
  {
    if members == [] then []
    else (if IsContainer(members[0].value) then StructureErrors(members[0].value) else []) + MembersErrors(members[1..])
  }

  lemma ItemsErrorsStep(items: seq<Json>, k: nat)
    requires k < |items|
    ensures ItemsErrors(items[k..]) == (if IsContainer(items[k]) then StructureErrors(items[k]) else []) + ItemsErrors(items[k + 1..])
  {
    assert items[k..][1..] == items[k + 1..];
  }

  lemma MembersErrorsStep(members: seq<Member>, k: nat)
    requires k < |members|
    ensures MembersErrors(members[k..]) ==
            (if IsContainer(members[k].value) then StructureErrors(members[k].value) else []) + MembersErrors(members[k + 1..])
  {
    assert members[k..][1..] == members[k + 1..];
  }

  /** The loop of `detect_structure_errors` that stops at the first element of another type. */
  method CheckArrayTypes(items: seq<Json>) returns (errors: seq<Finding>)
    ensures errors == ArrayMismatch(items)
  {
    errors := [];
    if items != [] {
      var firstType := TypeOf(items[0]);
      var i := 1;
      while i < |items|
        invariant 1 <= i <= |items|
        invariant FirstOtherType(items, 1) == FirstOtherType(items, i)
      {
        if TypeOf(items[i]) != firstType {
          errors := [Finding(ArrayTypeMismatch(i + 1), Unknown, Unknown, Warning)];
          return;
        }
        i := i + 1;
      }
    }
  }

  /** `detect_structure_errors` with its loops. */
  method DetectStructureErrors(data: Json) returns (errors: seq<Finding>)
    ensures errors == StructureErrors(data)
    decreases data
  {
    ghost var target := StructureErrors(data);
    errors := [];
    if data.Obj? {
      var members := data.members;
      if !DistinctKeys(members) {
        errors := [Finding(DuplicateKeys, Unknown, Unknown, Error)];
      }
      assert members[0..] == members;
      for k := 0 to |members|
        invariant errors + MembersErrors(members[k..]) == target
      {
        ghost var before := errors;
        MembersErrorsStep(members, k);
        var value := members[k].value;
        assert members[k] in members;
        if IsContainer(value) {
          var nested := DetectStructureErrors(value);
          AppendAssoc(before, nested, MembersErrors(members[k + 1..]));
          errors := errors + nested;
        }
      }
      assert members[|members|..] == [];
    } else if data.Arr? {
      var items := data.items;
      errors := CheckArrayTypes(items);
      assert items[0..] == items;
      for k := 0 to |items|
        invariant errors + ItemsErrors(items[k..]) == target
      {
        ghost var before := errors;
        ItemsErrorsStep(items, k);
        if IsContainer(items[k]) {
          var nested := DetectStructureErrors(items[k]);
          AppendAssoc(before, nested, ItemsErrors(items[k + 1..]));
          errors := errors + nested;
        }
      }
      assert items[|items|..] == [];
    }
  }

  /** A parsed tree never repeats a key, so its only structural findings are array-type warnings. */
  lemma {:induction false} ParsedStructure(j: Json)
    requires Parsed(j)
    ensures forall f :: f in StructureErrors(j) ==> f.kind.ArrayTypeMismatch? && f.severity == Warning
    decreases j, 1
  {
    match j
    case Obj(members) =>
      assert j in Nodes(j);
      ParsedMembers(members, 0);
      assert members[0..] == members;
    case Arr(items) =>
      ParsedItems(items, 0);
      assert items[0..] == items;
    case _ =>
  }

  lemma {:induction false} ParsedItems(items: seq<Json>, k: nat)
    requires Parsed(Arr(items)) && k <= |items|
    ensures forall f :: f in ItemsErrors(items[k..]) ==> f.kind.ArrayTypeMismatch? && f.severity == Warning
    decreases items, 0, |items| - k
  {
    if k < |items| {
      ItemsErrorsStep(items, k);
      ParsedItem(items, k);
      ParsedStructure(items[k]);
      ParsedItems(items, k + 1);
    }
  }

  lemma {:induction false} ParsedMembers(members: seq<Member>, k: nat)
    requires Parsed(Obj(members)) && k <= |members|
    ensures forall f :: f in MembersErrors(members[k..]) ==> f.kind.ArrayTypeMismatch? && f.severity == Warning
    decreases members, 0, |members| - k
  {
    if k < |members| {
      MembersErrorsStep(members, k);
      ParsedMember(members, k);
      assert members[k] in members;
      ParsedStructure(members[k].value);
      ParsedMembers(members, k + 1);
    }
  }

  /** The repeated-key error never fires on what `json.loads` returns. */
  lemma ParsedNoDuplicateKeys(j: Json)
    requires Parsed(j)
    ensures forall f :: f in StructureErrors(j) ==> f.kind != DuplicateKeys
    ensures OfSeverity(StructureErrors(j), Error) == []
  {
    ParsedStructure(j);
    var r := OfSeverity(StructureErrors(j), Error);
    if r != [] {
      assert r[0] in StructureErrors(j);
      assert false;
    }
  }

  /** Each array contributes at most one warning: the warnings never outnumber the arrays of the tree. */
  lemma {:induction false} WarningsPerArray(j: Json)
    ensures |OfSeverity(StructureErrors(j), Warning)| <= ArrayCount(Nodes(j))
    decreases j, 1
  {
    match j
    case Obj(members) =>
      WarningsMembers(members);
      OfSeverityAppend(DuplicateCheck(members), MembersErrors(members), Warning);
      ArrayCountAppend([j], MembersNodes(members));
    case Arr(items) =>
      WarningsItems(items);
      OfSeverityAppend(ArrayMismatch(items), ItemsErrors(items), Warning);
      ArrayCountAppend([j], ItemsNodes(items));
    case _ =>
  }

  lemma {:induction false} WarningsItems(items: seq<Json>)
    ensures |OfSeverity(ItemsErrors(items), Warning)| <= ArrayCount(ItemsNodes(items))
    decreases items, 0
  {
    if items != [] {
      WarningsPerArray(items[0]);
      WarningsItems(items[1..]);
      var own := if IsContainer(items[0]) then StructureErrors(items[0]) else [];
      OfSeverityAppend(own, ItemsErrors(items[1..]), Warning);
      ArrayCountAppend(Nodes(items[0]), ItemsNodes(items[1..]));
    }
  }

  lemma {:induction false} WarningsMembers(members: seq<Member>)
    ensures |OfSeverity(MembersErrors(members), Warning)| <= ArrayCount(MembersNodes(members))
    decreases members, 0
  {
    if members != [] {
      WarningsPerArray(members[0].value);
      WarningsMembers(members[1..]);
      var own := if IsContainer(members[0].value) then StructureErrors(members[0].value) else [];
      OfSeverityAppend(own, MembersErrors(members[1..]), Warning);
      ArrayCountAppend(Nodes(members[0].value), MembersNodes(members[1..]));
    }
  }

  // ---------------------------------------------------------------- load_json_file and detect_errors

  /** What `json.loads` does with the content: a value, or a `JSONDecodeError` with its line and column. */
  datatype ParseOutcome = Decoded(data: Json) | DecodeError(line: nat, column: nat)

  /** `load_json_file`'s `(data, errors)` pair. */
  datatype Loaded = Loaded(data: Option<Json>, errors: seq<Finding>)

  /**
   * `load_json_file` as written: when the heuristics pass and parsing fails, the decode error is
   * recorded but nothing is returned (`None` here).
   */
  function LoadJsonFileAsWritten(read: Result<string>, parse: string -> ParseOutcome): Option<Loaded> {
    match read
    case Raised(_) => Some(Loaded(None, [Finding(ReadError, Unknown, Unknown, Error)]))
    case Ok(content) =>
      var syntaxErrors := SyntaxErrors(content);
      if syntaxErrors == [] then
        match parse(content)
        case Decoded(data) => Some(Loaded(Some(data), []))
        case DecodeError(_, _) => None
      else Some(Loaded(None, syntaxErrors))
  }

  /** `load_json_file` returning the decode error it records. */
  function LoadJsonFile(read: Result<string>, parse: string -> ParseOutcome): (r: Loaded)
    ensures forall k :: 0 <= k < |r.errors| ==> r.errors[k].severity == Error
    ensures r.data.Some? <==> read.Ok? && SyntaxErrors(read.value) == [] && parse(read.value).Decoded?
    ensures r.data.Some? ==> r.errors == [] && r.data.value == parse(read.value).data
  {
    match read
    case Raised(_) => Loaded(None, [Finding(ReadError, Unknown, Unknown, Error)])
    case Ok(content) =>
      var syntaxErrors := SyntaxErrors(content);
      SyntaxErrorsLines(content);
      if syntaxErrors == [] then
        match parse(content)
        case Decoded(data) => Loaded(Some(data), [])
        case DecodeError(line, column) => Loaded(None, [Finding(ParseError, Known(line), Known(column), Error)])
      else
        assert forall k :: 0 <= k < |syntaxErrors| ==> syntaxErrors[k] in syntaxErrors;
        Loaded(None, syntaxErrors)
  }

  /** The two agree wherever the code as written returns. */
  lemma LoadJsonFileAgrees(read: Result<string>, parse: string -> ParseOutcome)
    ensures LoadJsonFileAsWritten(read, parse).Some? ==> LoadJsonFileAsWritten(read, parse).value == LoadJsonFile(read, parse)
    ensures LoadJsonFileAsWritten(read, parse).None? <==>
            read.Ok? && SyntaxErrors(read.value) == [] && parse(read.value).DecodeError?
  {
  }

  /** `detect_errors`' two lists. */
  datatype Detection = Detection(errors: seq<Finding>, warnings: seq<Finding>)

  /** `detect_errors` as written: the unpacking of a bare `None` raises. */
  function DetectErrorsAsWritten(encoding: seq<Finding>, read: Result<string>, parse: string -> ParseOutcome): Result<Detection> {
    match LoadJsonFileAsWritten(read, parse)
    case None => Raised("cannot unpack non-iterable NoneType object")
    case Some(loaded) =>
      var structure := if loaded.data.Some? then StructureErrors(loaded.data.value) else [];
      Ok(Detection(OfSeverity(encoding, Error) + loaded.errors + OfSeverity(structure, Error),
                   OfSeverity(encoding, Warning) + OfSeverity(structure, Warning)))
  }

  /** An empty file passes every heuristic, `json.loads` rejects it, and `detect_errors` as written raises. */
  lemma EmptyFileRaises()
    ensures DetectErrorsAsWritten([], Ok(""), s => DecodeError(1, 1)).Raised?
  {
    var lines := Split("", '\n');
    assert lines == [""];
    assert LinesErrors(lines, 1) == LineErrors("", 1) == [];
    assert !CommaBefore("", '}') && !CommaBefore("", ']');
    assert TrailingCommas(lines, 1) == CommaErrors("", 1) == [];
    assert SyntaxErrors("") == [];
  }

  /**
   * `detect_errors`: encoding errors, then load errors, then structural errors form the error list;
   * encoding warnings, then structural warnings form the warning list.
   */
  function DetectErrors(encoding: seq<Finding>, read: Result<string>, parse: string -> ParseOutcome): Detection {
    var loaded := LoadJsonFile(read, parse);
    var structure := if loaded.data.Some? then StructureErrors(loaded.data.value) else [];
    Combine(encoding, loaded.errors, structure)
  }

  /** Sorting the encoding, load and structural findings into the two lists, in that order. */
  function Combine(encoding: seq<Finding>, loadErrors: seq<Finding>, structure: seq<Finding>): Detection {
    Detection(OfSeverity(encoding, Error) + loadErrors + OfSeverity(structure, Error),
              OfSeverity(encoding, Warning) + OfSeverity(structure, Warning))
  }

  lemma CombineSplit(encoding: seq<Finding>, loadErrors: seq<Finding>, structure: seq<Finding>)
    requires forall k :: 0 <= k < |loadErrors| ==> loadErrors[k].severity == Error
    ensures var d := Combine(encoding, loadErrors, structure);
            && (forall k :: 0 <= k < |d.errors| ==> d.errors[k].severity == Error)
            && (forall k :: 0 <= k < |d.warnings| ==> d.warnings[k].severity == Warning)
            && |d.errors| + |d.warnings| == |encoding| + |loadErrors| + |structure|
  {
    OfSeveritySplit(encoding);
    OfSeveritySplit(structure);
  }

  /**
   * The error list holds only errors and the warning list only warnings; together they hold every
   * encoding, load and structural finding once.
   */
  lemma DetectErrorsSplit(encoding: seq<Finding>, read: Result<string>, parse: string -> ParseOutcome)
    ensures var d := DetectErrors(encoding, read, parse);
            var loaded := LoadJsonFile(read, parse);
            var structure := if loaded.data.Some? then StructureErrors(loaded.data.value) else [];
            && (forall k :: 0 <= k < |d.errors| ==> d.errors[k].severity == Error)
            && (forall k :: 0 <= k < |d.warnings| ==> d.warnings[k].severity == Warning)
            && |d.errors| + |d.warnings| == |encoding| + |loaded.errors| + |structure|
  {
    var loaded := LoadJsonFile(read, parse);
    var structure := if loaded.data.Some? then StructureErrors(loaded.data.value) else [];
    CombineSplit(encoding, loaded.errors, structure);
  }

  /** A well-formed file whose parse succeeds gets no error beyond the encoding ones. */
  lemma CleanFileHasNoLoadErrors(encoding: seq<Finding>, content: string, parse: string -> ParseOutcome)
    requires SyntaxErrors(content) == [] && parse(content).Decoded? && Parsed(parse(content).data)
    ensures DetectErrors(encoding, Ok(content), parse).errors == OfSeverity(encoding, Error)
  {
    ParsedNoDuplicateKeys(parse(content).data);
  }

  // ---------------------------------------------------------------- generate_report

  const ErrorsLabel := "错误数量:"
  const WarningsLabel := "警告数量:"

  function TypeName(k: Kind): string {
    match k
    case SingleQuote => "单引号错误"
    case Comment => "注释错误"
    case TrailingCommaObject => "尾随逗号"
    case TrailingCommaArray => "尾随逗号"
    case ParseError => "JSON解析错误"
    case ReadError => "文件读取错误"
    case DuplicateKeys => "重复键"
    case ArrayTypeMismatch(_) => "数组类型不一致"
    case EncodingWarning => "编码警告"
    case EncodingError => "编码错误"
    case EncodingCheckError => "编码检测错误"
  }

  function PositionText(p: Position): string {
    match p
    case Known(n) => NatToString(n)
    case Unknown => "未知"
  }

  function SeverityText(s: Severity): string {
    match s
    case Error => "error"
    case Warning => "warning"
  }

  /** The lines of finding number `i` in a details section (its message line is not modelled). */
  function FindingLines(f: Finding, i: nat): seq<string> {
    [ NatToString(i) + ". " + TypeName(f.kind),
      "   位置: 第" + PositionText(f.line) + "行, 第" + PositionText(f.column) + "列",
      "   严重程度: " + SeverityText(f.severity),
      "" ]
  }

  /** The numbered details of `fs`, starting at number `i`. */
  function Details(fs: seq<Finding>, i: nat): seq<string> {
    if fs == [] then [] else FindingLines(fs[0], i) + Details(fs[1..], i + 1)
  }

  function Rule(c: char, n: nat): (r: string)
    ensures |r| == n && forall k :: 0 <= k < n ==> r[k] == c
  {
    seq(n, _ => c)
  }

  /** `generate_report` as a list of lines: a title, the two count lines, then the details. */
  function ReportLines(d: Detection): seq<string> {
    ReportHeader + CountLines(|d.errors|, |d.warnings|) + DetailLines(d)
  }

  const ReportHeader := [Rule('=', 60), "JSON错误检测报告", Rule('=', 60)]

  function CountLines(e: nat, w: nat): seq<string> {
    [ErrorsLabel + " " + NatToString(e), WarningsLabel + " " + NatToString(w), ""]
  }

  function DetailLines(d: Detection): seq<string> {
    (if d.errors != [] then ["错误详情:", Rule('-', 30)] + Details(d.errors, 1) else []) +
    (if d.warnings != [] then ["警告详情:", Rule('-', 30)] + Details(d.warnings, 1) else []) +
    (if d.errors == [] && d.warnings == [] then ["JSON文件没有发现错误！"] else [])
  }

  // ---------------------------------------------------------------- reading the counts back

  /** `int(line.split(":")[1].strip())`; `None` where Python raises. */
  function ParseCountLine(line: string): Option<nat> {
    var parts := Split(line, ':');
    if |parts| < 2 then None
    else
      var t := Strip(parts[1]);
      if t != [] && AllDigits(t) then Some(ParseDigits(t)) else None
  }

  datatype Counts = Counts(errors: nat, warnings: nat)

  /** The count loop of `detect_errors_in_folder`: the last count line of each kind wins. */
  function ParseCounts(lines: seq<string>, acc: Counts): Option<Counts> {
    if lines == [] then Some(acc)
    else if Contains(lines[0], ErrorsLabel) then
      match ParseCountLine(lines[0])
      case None => None
      case Some(n) => ParseCounts(lines[1..], acc.(errors := n))
    else if Contains(lines[0], WarningsLabel) then
      match ParseCountLine(lines[0])
      case None => None
      case Some(n) => ParseCounts(lines[1..], acc.(warnings := n))
    else ParseCounts(lines[1..], acc)
  }

  lemma {:induction false} ParseCountsAppend(a: seq<string>, b: seq<string>, acc: Counts)
    ensures ParseCounts(a + b, acc) ==
            match ParseCounts(a, acc)
            case None => None
            case Some(c) => ParseCounts(b, c)
  {
    if a == [] {
      assert a + b == b;
    } else {
      assert (a + b)[0] == a[0];
      assert (a + b)[1..] == a[1..] + b;
      var n := ParseCountLine(a[0]);
      if n.Some? {
        ParseCountsAppend(a[1..], b, acc.(errors := n.value));
        ParseCountsAppend(a[1..], b, acc.(warnings := n.value));
      }
      ParseCountsAppend(a[1..], b, acc);
    }
  }

  /** A substring's characters are characters of the string. */
  lemma ContainsChar(s: string, sub: string, c: char)
    requires Contains(s, sub) && c in sub
    ensures c in s
  {
    var i :| 0 <= i <= |s| && OccursAt(s, sub, i);
    var k :| 0 <= k < |sub| && sub[k] == c;
    assert s[i + k] == sub[k];
  }

  /** Lines without `'量'` hold neither label and leave the counts alone. */
  lemma {:induction false} ParseCountsSkip(lines: seq<string>, acc: Counts)
    requires forall k :: 0 <= k < |lines| ==> '量' !in lines[k]
    ensures ParseCounts(lines, acc) == Some(acc)
  {
    if lines != [] {
      assert '量' in ErrorsLabel && '量' in WarningsLabel;
      if Contains(lines[0], ErrorsLabel) {
        ContainsChar(lines[0], ErrorsLabel, '量');
      }
      if Contains(lines[0], WarningsLabel) {
        ContainsChar(lines[0], WarningsLabel, '量');
      }
      ParseCountsSkip(lines[1..], acc);
    }
  }

  lemma NatToStringNoMark(n: nat)
    ensures '量' !in NatToString(n) && '错' !in NatToString(n) && ':' !in NatToString(n)
  {
    NatToStringHasNo(n, '量');
    NatToStringHasNo(n, '错');
    NatToStringHasNo(n, ':');
  }

  lemma {:induction false} DetailsNoMark(fs: seq<Finding>, i: nat)
    ensures forall k :: 0 <= k < |Details(fs, i)| ==> '量' !in Details(fs, i)[k]
  {
    if fs != [] {
      DetailsNoMark(fs[1..], i + 1);
      var f := fs[0];
      NatToStringNoMark(i);
      assert '量' !in TypeName(f.kind) && '量' !in SeverityText(f.severity);
      assert '量' !in PositionText(f.line) && '量' !in PositionText(f.column) by {
        if f.line.Known? { NatToStringNoMark(f.line.n); }
        if f.column.Known? { NatToStringNoMark(f.column.n); }
      }
    }
  }

  /** `(a + sep + b).split(sep)` when neither side holds the separator. */
  lemma {:induction false} SplitAt(a: string, b: string, sep: char)
    requires sep !in a && sep !in b
    ensures Split(a + [sep] + b, sep) == [a, b]
  {
    if a == [] {
      assert a + [sep] + b == [sep] + b;
      assert ([sep] + b)[1..] == b;
      SplitNone(b, sep);
    } else {
      assert (a + [sep] + b)[1..] == a[1..] + [sep] + b;
      SplitAt(a[1..], b, sep);
      assert [a[0]] + a[1..] == a;
    }
  }

  lemma {:induction false} SplitNone(s: string, sep: char)
    requires sep !in s
    ensures Split(s, sep) == [s]
  {
    if s != [] {
      SplitNone(s[1..], sep);
      assert [s[0]] + s[1..] == s;
    }
  }

  /** Stripping a space put before a number gives the number's digits back. */
  lemma StripSpaceDigits(digits: string)
    requires digits != [] && AllDigits(digits)
    ensures Strip(" " + digits) == digits
  {
    assert (" " + digits)[1..] == digits;
    assert !IsSpace(digits[0]) && !IsSpace(digits[|digits| - 1]);
    assert StripLeft(" " + digits) == StripLeft(digits) == digits;
  }

  /** The count line for `n` parses back to `n`. */
  lemma CountLineParses(tag: string, n: nat)
    requires |tag| >= 1 && tag[|tag| - 1] == ':' && ':' !in tag[..|tag| - 1]
    ensures ParseCountLine(tag + " " + NatToString(n)) == Some(n)
  {
    var digits := NatToString(n);
    NatToStringNoMark(n);
    var head := tag[..|tag| - 1];
    assert tag + " " + digits == head + [':'] + (" " + digits);
    assert ':' !in " " + digits;
    SplitAt(head, " " + digits, ':');
    StripSpaceDigits(digits);
    ParseNatToString(n);
  }

  /** The two count lines and the blank line after them read back as the two counts. */
  lemma CountLinesParse(e: nat, w: nat)
    ensures ParseCounts(CountLines(e, w), Counts(0, 0)) == Some(Counts(e, w))
  {
    var lines := CountLines(e, w);
    var errorsLine := lines[0];
    var warningsLine := lines[1];
    CountLineParses(ErrorsLabel, e);
    CountLineParses(WarningsLabel, w);
    assert OccursAt(errorsLine, ErrorsLabel, 0);
    assert OccursAt(warningsLine, WarningsLabel, 0);
    NatToStringNoMark(w);
    assert '错' !in warningsLine;
    if Contains(warningsLine, ErrorsLabel) {
      ContainsChar(warningsLine, ErrorsLabel, '错');
    }
    ParseCountsSkip([""], Counts(e, w));
    assert lines[1..] == [warningsLine, ""] && lines[1..][1..] == [""];
  }

  /** No detail line holds `'量'`, so none of them is read as a count. */
  lemma DetailLinesNoMark(d: Detection)
    ensures forall k :: 0 <= k < |DetailLines(d)| ==> '量' !in DetailLines(d)[k]
  {
    DetailsNoMark(d.errors, 1);
    DetailsNoMark(d.warnings, 1);
    assert '量' !in Rule('-', 30);
  }

  /** The two count lines of a report are read back as the lengths of its two lists. */
  lemma ReportCountsParse(d: Detection)
    ensures ParseCounts(ReportLines(d), Counts(0, 0)) == Some(Counts(|d.errors|, |d.warnings|))
  {
    var counts := CountLines(|d.errors|, |d.warnings|);
    assert ReportLines(d) == ReportHeader + (counts + DetailLines(d));
    assert '量' !in Rule('=', 60);
    ParseCountsSkip(ReportHeader, Counts(0, 0));
    ParseCountsAppend(ReportHeader, counts + DetailLines(d), Counts(0, 0));
    CountLinesParse(|d.errors|, |d.warnings|);
    ParseCountsAppend(counts, DetailLines(d), Counts(0, 0));
    DetailLinesNoMark(d);
    ParseCountsSkip(DetailLines(d), Counts(|d.errors|, |d.warnings|));
  }

  /** The count loop of `detect_errors_in_folder` for one report. */
  method ReadCounts(lines: seq<string>) returns (r: Option<Counts>)
    ensures r == ParseCounts(lines, Counts(0, 0))
  {
    var fileErrors := 0;
    var fileWarnings := 0;
    assert lines[0..] == lines;
    for k := 0 to |lines|
      invariant ParseCounts(lines[k..], Counts(fileErrors, fileWarnings)) == ParseCounts(lines, Counts(0, 0))
    {
      var line := lines[k];
      assert lines[k..][1..] == lines[k + 1..];
      if Contains(line, ErrorsLabel) {
        var n := ParseCountLine(line);
        if n.None? {
          return None;
        }
        fileErrors := n.value;
      } else if Contains(line, WarningsLabel) {
        var n := ParseCountLine(line);
        if n.None? {
          return None;
        }
        fileWarnings := n.value;
      }
    }
    assert lines[|lines|..] == [];
    r := Some(Counts(fileErrors, fileWarnings));
  }

  // ---------------------------------------------------------------- detect_errors_in_folder

  /** One JSON file of the folder: its encoding findings and what reading it gives. */
  datatype JsonFile = JsonFile(encoding: seq<Finding>, read: Result<string>)

  /** The folder summary; `NoFiles` is `"在指定文件夹中未找到JSON文件"`. */
  datatype FolderSummary =
    | NoFiles
    | Summary(found: nat, processed: nat, problems: nat, totalErrors: nat, totalWarnings: nat)

  /** The checked list: the top-level matches, then the recursive matches, without removing repeats. */
  function FolderFiles(topLevel: seq<JsonFile>, recursive: seq<JsonFile>): seq<JsonFile> {
    topLevel + recursive
  }

  /**
   * One file of the folder run: `detect_errors` as written, and on success the two counts
   * read back from its report; a raised exception is passed on.
   */
  method CheckFile(file: JsonFile, parse: string -> ParseOutcome) returns (r: Result<Counts>)
    ensures r.Raised? <==> Detector(parse)(file).Raised?
    ensures r.Ok? ==> r.value == Counts(|Detector(parse)(file).value.errors|, |Detector(parse)(file).value.warnings|)
  {
    var outcome := DetectErrorsAsWritten(file.encoding, file.read, parse);
    if outcome.Raised? {
      return Raised(outcome.message);
    }
    var d := outcome.value;
    var fileCounts := ReadCounts(ReportLines(d));
    ReportCountsParse(d);
    r := Ok(fileCounts.value);
  }

  /** The per-file check of the folder run: `detect_errors` as written, which can raise. */
  function Detector(parse: string -> ParseOutcome): JsonFile -> Result<Detection> {
    (file: JsonFile) => DetectErrorsAsWritten(file.encoding, file.read, parse)
  }

  /** The errors and warnings of the first `n` files, summed over the files whose check returned. */
  function FolderTotals(detect: JsonFile -> Result<Detection>, files: seq<JsonFile>, n: nat): Counts
    requires n <= |files|
  {
    if n == 0 then Counts(0, 0)
    else
      var init := FolderTotals(detect, files, n - 1);
      match detect(files[n - 1])
      case Raised(_) => init
      case Ok(d) => Counts(init.errors + |d.errors|, init.warnings + |d.warnings|)
  }

  /** The number of the first `n` files whose check returned. */
  function ProcessedFiles(detect: JsonFile -> Result<Detection>, files: seq<JsonFile>, n: nat): (r: nat)
    requires n <= |files|
    ensures r <= n
  {
    if n == 0 then 0
    else ProcessedFiles(detect, files, n - 1) + (if detect(files[n - 1]).Ok? then 1 else 0)
  }

  /** A file is a problem when its check raised or found an error or a warning. */
  predicate Problem(outcome: Result<Detection>) {
    outcome.Raised? || outcome.value.errors != [] || outcome.value.warnings != []
  }

  /** The number of problem files among the first `n`. */
  function ProblemFiles(detect: JsonFile -> Result<Detection>, files: seq<JsonFile>, n: nat): (r: nat)
    requires n <= |files|
    ensures r <= n
    ensures r + ProcessedFiles(detect, files, n) >= n
  {
    if n == 0 then 0
    else ProblemFiles(detect, files, n - 1) + (if Problem(detect(files[n - 1])) then 1 else 0)
  }

  /**
   * `detect_errors_in_folder` without its rendered text: a file whose check raises is a problem
   * file but is neither processed nor added to the totals; the totals are the sums of the counts
   * read back from each other file's report.
   */
  method DetectErrorsInFolder(topLevel: seq<JsonFile>, recursive: seq<JsonFile>, parse: string -> ParseOutcome)
    returns (r: FolderSummary)
    ensures FolderFiles(topLevel, recursive) == [] <==> r == NoFiles
    ensures r.Summary? ==>
              var files := FolderFiles(topLevel, recursive);
              && r.found == |files|
              && r.processed == ProcessedFiles(Detector(parse), files, |files|)
              && r.problems == ProblemFiles(Detector(parse), files, |files|)
              && Counts(r.totalErrors, r.totalWarnings) == FolderTotals(Detector(parse), files, |files|)
  {
    var jsonFiles := topLevel + recursive;
    if jsonFiles == [] {
      return NoFiles;
    }
    ghost var detect := Detector(parse);
    var totalErrors: nat := 0;
    var totalWarnings: nat := 0;
    var processedFiles: nat := 0;
    var problemFiles: nat := 0;
    for i := 0 to |jsonFiles|
      invariant processedFiles == ProcessedFiles(detect, jsonFiles, i)
      invariant problemFiles == ProblemFiles(detect, jsonFiles, i)
      invariant Counts(totalErrors, totalWarnings) == FolderTotals(detect, jsonFiles, i)
    {
      var file := jsonFiles[i];
      var counts := CheckFile(file, parse);
      FolderStep(detect, jsonFiles, i);
      if counts.Raised? {
        problemFiles := problemFiles + 1;
      } else {
        totalErrors := totalErrors + counts.value.errors;
        totalWarnings := totalWarnings + counts.value.warnings;
        processedFiles := processedFiles + 1;
        if counts.value.errors > 0 || counts.value.warnings > 0 {
          problemFiles := problemFiles + 1;
        }
      }
    }
    r := Summary(|jsonFiles|, processedFiles, problemFiles, totalErrors, totalWarnings);
  }

  /**
   * Adding one file to the run: a file whose check raises adds a problem file and nothing else;
   * any other file is processed, adds its counts, and is a problem iff it has an error or a warning.
   */
  lemma FolderStep(detect: JsonFile -> Result<Detection>, files: seq<JsonFile>, i: nat)
    requires i < |files|
    ensures detect(files[i]).Raised? ==>
              && FolderTotals(detect, files, i + 1) == FolderTotals(detect, files, i)
              && ProcessedFiles(detect, files, i + 1) == ProcessedFiles(detect, files, i)
              && ProblemFiles(detect, files, i + 1) == ProblemFiles(detect, files, i) + 1
    ensures detect(files[i]).Ok? ==>
              var d := detect(files[i]).value;
              && FolderTotals(detect, files, i + 1) ==
                 Counts(FolderTotals(detect, files, i).errors + |d.errors|, FolderTotals(detect, files, i).warnings + |d.warnings|)
              && ProcessedFiles(detect, files, i + 1) == ProcessedFiles(detect, files, i) + 1
              && ProblemFiles(detect, files, i + 1) ==
                 ProblemFiles(detect, files, i) + (if |d.errors| > 0 || |d.warnings| > 0 then 1 else 0)
  {
  }

  /** Every file is processed exactly when no file's check raises. */
  lemma {:induction false} AllProcessed(detect: JsonFile -> Result<Detection>, files: seq<JsonFile>, n: nat)
    requires n <= |files|
    ensures ProcessedFiles(detect, files, n) == n <==> forall k :: 0 <= k < n ==> detect(files[k]).Ok?
  {
    if n > 0 {
      AllProcessed(detect, files, n - 1);
    }
  }

  /**
   * A file's check raises exactly when it reads, passes the heuristics and `json.loads` rejects it;
   * when it returns, it returns the corrected detection.
   */
  lemma DetectorRaises(parse: string -> ParseOutcome, file: JsonFile)
    ensures Detector(parse)(file).Raised? <==>
              file.read.Ok? && SyntaxErrors(file.read.value) == [] && parse(file.read.value).DecodeError?
    ensures Detector(parse)(file).Ok? ==> Detector(parse)(file).value == DetectErrors(file.encoding, file.read, parse)
  {
    LoadJsonFileAgrees(file.read, parse);
  }

  /** A folder holding one empty file: the file is a problem file but is not processed. */
  lemma EmptyFileInFolder()
    ensures var files, parse := [JsonFile([], Ok(""))], (s: string) => DecodeError(1, 1);
      && ProcessedFiles(Detector(parse), files, 1) == 0
      && ProblemFiles(Detector(parse), files, 1) == 1
      && FolderTotals(Detector(parse), files, 1) == Counts(0, 0)
  {
    EmptyFileRaises();
  }

  lemma {:induction false} FolderTotalsPrefix(detect: JsonFile -> Result<Detection>, a: seq<JsonFile>, b: seq<JsonFile>, n: nat)
    requires n <= |a|
    ensures FolderTotals(detect, a + b, n) == FolderTotals(detect, a, n)
  {
    if n > 0 {
      FolderTotalsPrefix(detect, a, b, n - 1);
      assert (a + b)[n - 1] == a[n - 1];
    }
  }

  lemma {:induction false} FolderTotalsAppend(detect: JsonFile -> Result<Detection>, a: seq<JsonFile>, b: seq<JsonFile>, n: nat)
    requires n <= |b|
    ensures FolderTotals(detect, a + b, |a| + n) ==
            Counts(FolderTotals(detect, a, |a|).errors + FolderTotals(detect, b, n).errors,
                   FolderTotals(detect, a, |a|).warnings + FolderTotals(detect, b, n).warnings)
  {
    if n == 0 {
      FolderTotalsPrefix(detect, a, b, |a|);
    } else {
      FolderTotalsAppend(detect, a, b, n - 1);
      assert (a + b)[|a| + n - 1] == b[n - 1];
    }
  }

  /**
   * A file found by both globs is checked twice: the folder totals are the top-level totals plus
   * the recursive totals.
   */
  lemma FolderCountsTwice(topLevel: seq<JsonFile>, recursive: seq<JsonFile>, detect: JsonFile -> Result<Detection>)
    ensures FolderTotals(detect, FolderFiles(topLevel, recursive), |topLevel| + |recursive|) ==
            Counts(FolderTotals(detect, topLevel, |topLevel|).errors + FolderTotals(detect, recursive, |recursive|).errors,
                   FolderTotals(detect, topLevel, |topLevel|).warnings + FolderTotals(detect, recursive, |recursive|).warnings)
  {
    FolderTotalsAppend(detect, topLevel, recursive, |recursive|);
  }
}
