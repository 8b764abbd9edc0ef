/**
 * The JSON text-format detector: it gathers the string values stored under one key anywhere in a
 * JSON document, measures fourteen features of each, takes for every feature the value shared by at
 * least 70% of the texts as the common format, and reports the texts that differ from it.
 */
module JsonFormat {
  import opened Wrappers
  import opened Collections
  import opened Text
  import opened Json

  // ---------------------------------------------------------------- loading

  /**
   * `load_json_file`, given what `json.load` returned (`None` when reading or parsing failed): an
   * object becomes a one-element list, a list is kept, anything else gives `[]`.
   */
  function LoadData(parsed: Option<Json>): seq<Json> {
    match parsed
    case None => []
    case Some(j) =>
      match j
      case Obj(_) => [j]
      case Arr(items) => items
      case _ => []
  }

  // ---------------------------------------------------------------- text fields

  /** The text an object holds itself: `obj[key]` when that is a string. */
  function OwnText(j: Json, key: string): (r: seq<string>)
    ensures |r| <= 1
  {
    if j.Obj? && Lookup(j.members, key).Some? && Lookup(j.members, key).value.Str?
    then [Lookup(j.members, key).value.s]
    else []
  }

  /** `extract_recursive`: an object's own text, then the texts under its values; a list's items in order. */
  function Texts(j: Json, key: string): seq<string>
    decreases j, 1
  {
    match j
    case Obj(members) => OwnText(j, key) + MembersTexts(members, key)
    case Arr(items) => ItemsTexts(items, key)
    case _ => []
  }

  function ItemsTexts(items: seq<Json>, key: string): seq<string>
    decreases items, 0
  {
    if items == [] then [] else Texts(items[0], key) + ItemsTexts(items[1..], key)
  }

  function MembersTexts(members: seq<Member>, key: string): seq<string>
    decreases members, 0
  {
    if members == [] then [] else Texts(members[0].value, key) + MembersTexts(members[1..], key)
  }

  /** The own texts of a list of nodes, in order. */
  function OwnTexts(ns: seq<Json>, key: string): seq<string> {
    if ns == [] then [] else OwnText(ns[0], key) + OwnTexts(ns[1..], key)
  }

  lemma {:induction false} OwnTextsAppend(a: seq<Json>, b: seq<Json>, key: string)
    ensures OwnTexts(a + b, key) == OwnTexts(a, key) + OwnTexts(b, key)
  {
    if a != [] {
      assert (a + b)[1..] == a[1..] + b;
      OwnTextsAppend(a[1..], b, key);
    } else {
      assert a + b == b;
    }
  }

  /** The texts are the own texts of the tree's nodes in pre-order. */
  lemma {:induction false} TextsPreOrder(j: Json, key: string)
    ensures Texts(j, key) == OwnTexts(Nodes(j), key)
    decreases j, 1
  {
    match j
    case Obj(members) =>
      MembersTextsPreOrder(members, key);
      assert Nodes(j)[1..] == MembersNodes(members);
    case Arr(items) =>
      ItemsTextsPreOrder(items, key);
      assert Nodes(j)[1..] == ItemsNodes(items);
    case _ =>
  }

  lemma {:induction false} ItemsTextsPreOrder(items: seq<Json>, key: string)
    ensures ItemsTexts(items, key) == OwnTexts(ItemsNodes(items), key)
    decreases items, 0
  {
    if items != [] {
      TextsPreOrder(items[0], key);
      ItemsTextsPreOrder(items[1..], key);
      OwnTextsAppend(Nodes(items[0]), ItemsNodes(items[1..]), key);
    }
  }

  lemma {:induction false} MembersTextsPreOrder(members: seq<Member>, key: string)
    ensures MembersTexts(members, key) == OwnTexts(MembersNodes(members), key)
    decreases members, 0
  {
    if members != [] {
      TextsPreOrder(members[0].value, key);
      MembersTextsPreOrder(members[1..], key);
      OwnTextsAppend(Nodes(members[0].value), MembersNodes(members[1..]), key);
    }
  }

  lemma {:induction false} OwnTextsMembers(ns: seq<Json>, key: string, s: string)
    ensures s in OwnTexts(ns, key) <==> exists k :: 0 <= k < |ns| && OwnText(ns[k], key) == [s]
  {
    if ns != [] {
      OwnTextsMembers(ns[1..], key, s);
      if s in OwnTexts(ns[1..], key) {
        var k :| 0 <= k < |ns[1..]| && OwnText(ns[1..][k], key) == [s];
        assert OwnText(ns[k + 1], key) == [s];
      }
      if exists k :: 0 <= k < |ns| && OwnText(ns[k], key) == [s] {
        var k :| 0 <= k < |ns| && OwnText(ns[k], key) == [s];
        if k > 0 {
          assert OwnText(ns[1..][k - 1], key) == [s];
        }
      }
    }
  }

  /** A text is extracted exactly when some object of the tree holds it under `key`. */
  lemma TextsExactly(j: Json, key: string, s: string)
    ensures s in Texts(j, key) <==>
            exists k :: 0 <= k < |Nodes(j)| && Nodes(j)[k].Obj? && Lookup(Nodes(j)[k].members, key) == Some(Str(s))
  {
    TextsPreOrder(j, key);
    OwnTextsMembers(Nodes(j), key, s);
  }

  /** `extract_recursive` appending to `texts`. */
  lemma ItemsTextsStep(items: seq<Json>, k: nat, key: string)
    requires k < |items|
    ensures ItemsTexts(items[k..], key) == Texts(items[k], key) + ItemsTexts(items[k + 1..], key)
  {
    assert items[k..][1..] == items[k + 1..];
  }

  lemma MembersTextsStep(members: seq<Member>, k: nat, key: string)
    requires k < |members|
    ensures MembersTexts(members[k..], key) == Texts(members[k].value, key) + MembersTexts(members[k + 1..], key)
  {
    assert members[k..][1..] == members[k + 1..];
  }

  /** `extract_recursive` appending to `texts`. */
  method ExtractRecursive(obj: Json, key: string, texts: seq<string>) returns (out: seq<string>)
    ensures out == texts + Texts(obj, key)
    decreases obj
  {
    ghost var target := texts + Texts(obj, key);
    out := texts;
    if obj.Obj? {
      var members := obj.members;
      AppendAssoc(texts, OwnText(obj, key), MembersTexts(members, key));
      out := out + OwnText(obj, key);
      assert members[0..] == members;
      for k := 0 to |members|
        invariant out + MembersTexts(members[k..], key) == target
      {
        ghost var before := out;
        MembersTextsStep(members, k, key);
        AppendAssoc(before, Texts(members[k].value, key), MembersTexts(members[k + 1..], key));
        assert members[k] in members;
        out := ExtractRecursive(members[k].value, key, out);
      }
      assert members[|members|..] == [];
    } else if obj.Arr? {
      var items := obj.items;
      assert items[0..] == items;
      for k := 0 to |items|
        invariant out + ItemsTexts(items[k..], key) == target
      {
        ghost var before := out;
        ItemsTextsStep(items, k, key);
        AppendAssoc(before, Texts(items[k], key), ItemsTexts(items[k + 1..], key));
        out := ExtractRecursive(items[k], key, out);
      }
      assert items[|items|..] == [];
    }
  }

  /** `extract_text_fields`: the loop over the loaded items. */
  method ExtractTextFields(data: seq<Json>, key: string) returns (texts: seq<string>)
    ensures texts == ItemsTexts(data, key)
  {
    texts := [];
    assert data[0..] == data;
    for k := 0 to |data|
      invariant texts + ItemsTexts(data[k..], key) == ItemsTexts(data, key)
    {
      ItemsTextsStep(data, k, key);
      AppendAssoc(texts, Texts(data[k], key), ItemsTexts(data[k + 1..], key));
      texts := ExtractRecursive(data[k], key, texts);
    }
    assert data[|data|..] == [];
  }

  // ---------------------------------------------------------------- features

  /** The features of `analyze_text_patterns`, in its order. */
  datatype Feature =
    | Lengths | LineCounts | HasNewlines | HasTabs | HasSpaces | StartsWithSpace | EndsWithSpace
    | HasQuotes | HasBrackets | HasBraces | HasParentheses | HasSpecialChars | WordCounts | CharCounts

  const AllFeatures: seq<Feature> :=
    [ Lengths, LineCounts, HasNewlines, HasTabs, HasSpaces, StartsWithSpace, EndsWithSpace,
      HasQuotes, HasBrackets, HasBraces, HasParentheses, HasSpecialChars, WordCounts, CharCounts ]

  /** A feature value: a count or a flag. */
  datatype FValue = N(n: int) | B(b: bool)

  /** The punctuation `[^\w\s\n\t.,!?;:()\[\]{}"\'-]` lets through. */
  const Punctuation: set<char> := {'.', ',', '!', '?', ';', ':', '(', ')', '[', ']', '{', '}', '"', '\'', '-'}

  /** A character `has_special_chars` looks for; `isWord` is `\w` of Python's regular expressions. */
  predicate SpecialChar(isWord: char -> bool, c: char) {
    !isWord(c) && !IsSpace(c) && c !in Punctuation
  }

  /** `len(text.replace(' ', '').replace('\n', '').replace('\t', ''))`. */
  function CharCount(text: string): nat {
    |RemoveChar(RemoveChar(RemoveChar(text, ' '), '\n'), '\t')|
  }

  /** The value of one feature for one text. */
  function FeatureOf(isWord: char -> bool, f: Feature, text: string): FValue {
    match f
    case Lengths => N(|text|)
    case LineCounts => N(CountChar(text, '\n') + 1)
    case HasNewlines => B('\n' in text)
    case HasTabs => B('\t' in text)
    case HasSpaces => B(' ' in text)
    case StartsWithSpace => B(text != [] && text[0] == ' ')
    case EndsWithSpace => B(text != [] && text[|text| - 1] == ' ')
    case HasQuotes => B('"' in text || '\'' in text)
    case HasBrackets => B('[' in text || ']' in text)
    case HasBraces => B('{' in text || '}' in text)
    case HasParentheses => B('(' in text || ')' in text)
    case HasSpecialChars => B(exists i :: 0 <= i < |text| && SpecialChar(isWord, text[i]))
    case WordCounts => N(WordCount(text))
    case CharCounts => N(CharCount(text))
  }

  /** One feature's list: its value for every text. */
  function Column(isWord: char -> bool, f: Feature, texts: seq<string>): (r: seq<FValue>)
    ensures |r| == |texts| && forall i :: 0 <= i < |texts| ==> r[i] == FeatureOf(isWord, f, texts[i])
  {
    seq(|texts|, i requires 0 <= i < |texts| => FeatureOf(isWord, f, texts[i]))
  }

  /** `analyze_text_patterns`: `{}` for no texts, otherwise one list per feature. */
  function AnalyzeTextPatterns(isWord: char -> bool, texts: seq<string>): Dict<Feature, seq<FValue>> {
    if texts == [] then []
    else seq(|AllFeatures|, k requires 0 <= k < |AllFeatures| => (AllFeatures[k], Column(isWord, AllFeatures[k], texts)))
  }

  lemma {:induction false} CountCharPositive(s: string, c: char)
    ensures CountChar(s, c) > 0 <==> c in s
  {
    if s != [] {
      CountCharPositive(s[1..], c);
      assert s == [s[0]] + s[1..];
    }
  }

  lemma {:induction false} RemoveCharShorter(s: string, c: char)
    ensures |RemoveChar(s, c)| <= |s|
  {
  }

  /** The relations between a text's features that the analysis keeps. */
  lemma FeatureRelations(isWord: char -> bool, text: string)
    ensures FeatureOf(isWord, LineCounts, text).n >= 1
    ensures FeatureOf(isWord, HasNewlines, text).b <==> FeatureOf(isWord, LineCounts, text).n > 1
    ensures FeatureOf(isWord, CharCounts, text).n <= FeatureOf(isWord, Lengths, text).n
  {
    CountCharPositive(text, '\n');
  }

  /**
   * No texts give `{}`; otherwise the features appear in order, each list has one entry per text,
   * and entry `i` is the feature of text `i`.
   */
  lemma AnalyzeTextPatternsShape(isWord: char -> bool, texts: seq<string>)
    ensures var p := AnalyzeTextPatterns(isWord, texts);
            && (texts == [] <==> p == [])
            && (texts != [] ==> Keys(p) == AllFeatures)
            && forall k :: 0 <= k < |p| ==>
                 |p[k].1| == |texts| && forall i :: 0 <= i < |texts| ==> p[k].1[i] == FeatureOf(isWord, p[k].0, texts[i])
  {
    var p := AnalyzeTextPatterns(isWord, texts);
    if texts != [] {
      assert |p| == |AllFeatures|;
    }
  }

  // ---------------------------------------------------------------- common pattern

  /** How often `v` occurs in `values`. */
  function Occurrences(values: seq<FValue>, v: FValue): nat {
    if values == [] then 0
    else Occurrences(values[..|values| - 1], v) + (if values[|values| - 1] == v then 1 else 0)
  }

  /** `Counter(values)`: the count of every value, in first-occurrence order. */
  function Histogram(values: seq<FValue>): Dict<FValue, nat> {
    if values == [] then [] else Bump(Histogram(values[..|values| - 1]), values[|values| - 1])
  }

  lemma {:induction false} HistogramGet(values: seq<FValue>, v: FValue)
    ensures Get(Histogram(values), v) == if Occurrences(values, v) == 0 then None else Some(Occurrences(values, v))
  {
    if values == [] {
      assert Histogram(values) == [];
    } else {
      var init := values[..|values| - 1];
      var x := values[|values| - 1];
      var h := Histogram(init);
      HistogramGet(init, v);
      BumpGet(h, x, v);
      assert Histogram(values) == Bump(h, x);
      if v == x {
        assert Get(h, v).GetOr(0) == Occurrences(init, v);
        assert Occurrences(values, v) == Occurrences(init, v) + 1;
      } else {
        assert Occurrences(values, v) == Occurrences(init, v);
      }
    }
  }

  lemma {:induction false} HistogramDistinct(values: seq<FValue>)
    ensures Distinct(Keys(Histogram(values)))
  {
    if values != [] {
      var init := values[..|values| - 1];
      HistogramDistinct(init);
      BumpKeys(Histogram(init), values[|values| - 1]);
    }
  }

  /** Every entry of the histogram is a value with its number of occurrences. */
  lemma HistogramEntries(values: seq<FValue>, i: nat)
    requires i < |Histogram(values)|
    ensures Histogram(values)[i].1 == Occurrences(values, Histogram(values)[i].0) >= 1
  {
    var h := Histogram(values);
    HistogramDistinct(values);
    DistinctGet(h, i);
    HistogramGet(values, h[i].0);
  }

  lemma {:induction false} OccurrencesBound(values: seq<FValue>, u: FValue, v: FValue)
    requires u != v
    ensures Occurrences(values, u) + Occurrences(values, v) <= |values|
  {
    if values != [] {
      OccurrencesBound(values[..|values| - 1], u, v);
    }
  }

  lemma {:induction false} OccurrencesAll(values: seq<FValue>, v: FValue)
    requires forall i :: 0 <= i < |values| ==> values[i] == v
    ensures Occurrences(values, v) == |values|
  {
    if values != [] {
      OccurrencesAll(values[..|values| - 1], v);
    }
  }

  /** `most_common(1)`: the first entry with the highest count. */
  function MostCommonAt(h: Dict<FValue, nat>): (p: nat)
    requires h != []
    ensures p < |h|
    ensures forall i :: 0 <= i < |h| ==> h[i].1 <= h[p].1
    ensures forall i :: 0 <= i < p ==> h[i].1 < h[p].1
  {
    if |h| == 1 then 0
    else
      var q := 1 + MostCommonAt(h[1..]);
      assert h[q] == h[1..][q - 1];
      if h[0].1 >= h[q].1 then 0 else q
  }

  /** One feature's entry of the common pattern: a value, or `'inconsistent'` with all the counts. */
  datatype Common = Concrete(value: FValue, frequency: nat) | Inconsistent(frequency: nat, allValues: Dict<FValue, nat>)

  /** The body of `find_common_pattern` for one non-empty list: the 70% rule, `10·freq ≥ 7·n`. */
  function CommonOf(values: seq<FValue>): Common
    requires values != []
  {
    HistogramGet(values, values[0]);
    var h := Histogram(values);
    var p := MostCommonAt(h);
    var freq := h[p].1;
    if 10 * freq >= 7 * |values| then Concrete(h[p].0, freq) else Inconsistent(freq, h)
  }

  /** The highest count is the count of the most common value, and no value occurs more often. */
  lemma MostCommonIsMax(values: seq<FValue>)
    requires values != []
    ensures var h := Histogram(values);
            var p := MostCommonAt(h);
            && h[p].1 == Occurrences(values, h[p].0)
            && forall v :: Occurrences(values, v) <= h[p].1
  {
    HistogramGet(values, values[0]);
    var h := Histogram(values);
    var p := MostCommonAt(h);
    HistogramEntries(values, p);
    forall v ensures Occurrences(values, v) <= h[p].1 {
      HistogramGet(values, v);
      if Occurrences(values, v) > 0 {
        GetSome(h, v);
      }
    }
  }

  /**
   * A feature is concrete exactly when some value occurs in at least 70% of the entries; that value
   * is then a strict majority, occurs `frequency` times, and every other value occurs less often.
   */
  lemma CommonOfSpec(values: seq<FValue>)
    requires values != []
    ensures CommonOf(values).Concrete? <==> exists v :: 10 * Occurrences(values, v) >= 7 * |values|
    ensures CommonOf(values).Concrete? ==>
              var c := CommonOf(values);
              && Occurrences(values, c.value) == c.frequency
              && 2 * c.frequency > |values|
              && forall v :: v != c.value ==> Occurrences(values, v) < c.frequency
  {
    MostCommonIsMax(values);
    HistogramGet(values, values[0]);
    var h := Histogram(values);
    var p := MostCommonAt(h);
    if 10 * h[p].1 >= 7 * |values| {
      forall v | v != h[p].0 ensures Occurrences(values, v) < h[p].1 {
        OccurrencesBound(values, v, h[p].0);
      }
    }
  }

  /** When every entry is the same value, the feature is concrete at 100%. */
  lemma CommonOfConstant(values: seq<FValue>, v: FValue)
    requires values != [] && forall i :: 0 <= i < |values| ==> values[i] == v
    ensures CommonOf(values) == Concrete(v, |values|)
  {
    OccurrencesAll(values, v);
    CommonOfSpec(values);
    assert 10 * Occurrences(values, v) >= 7 * |values|;
    var c := CommonOf(values);
    if c.value != v {
      OccurrencesBound(values, v, c.value);
      assert false;
    }
  }

  /** `find_common_pattern`: one entry per non-empty feature list, in order. */
  function CommonPattern(patterns: Dict<Feature, seq<FValue>>): Dict<Feature, Common> {
    if patterns == [] then []
    else
      var init := CommonPattern(patterns[..|patterns| - 1]);
      var (f, values) := patterns[|patterns| - 1];
      if values == [] then init else init + [(f, CommonOf(values))]
  }

  /** The loop of `find_common_pattern`. */
  method FindCommonPattern(patterns: Dict<Feature, seq<FValue>>) returns (common: Dict<Feature, Common>)
    ensures common == CommonPattern(patterns)
  {
    common := [];
    for k := 0 to |patterns|
      invariant common == CommonPattern(patterns[..k])
    {
      PrefixSnoc(patterns, k);
      assert patterns[..k + 1][..k] == patterns[..k];
      var (feature, values) := patterns[k];
      if values != [] {
        common := common + [(feature, CommonOf(values))];
      }
    }
    assert patterns[..|patterns|] == patterns;
  }

  lemma {:induction false} CommonPatternAt(patterns: Dict<Feature, seq<FValue>>, k: nat)
    requires k < |patterns| && patterns[k].1 != [] && forall i :: 0 <= i < |patterns| ==> patterns[i].1 != []
    ensures |CommonPattern(patterns)| == |patterns|
    ensures CommonPattern(patterns)[k] == (patterns[k].0, CommonOf(patterns[k].1))
  {
    var init := patterns[..|patterns| - 1];
    if k < |patterns| - 1 {
      CommonPatternAt(init, k);
    } else if init != [] {
      CommonPatternAt(init, 0);
    }
  }

  // ---------------------------------------------------------------- inconsistencies

  /** The features `detect_inconsistencies` compares, in its order. */
  const CheckedFeatures: seq<Feature> := [Lengths, LineCounts, HasNewlines, StartsWithSpace, EndsWithSpace, WordCounts]

  /** One issue: the feature, its common value, and the text's own value. */
  datatype Issue = Issue(feature: Feature, expected: FValue, actual: FValue)

  /** One reported text. */
  datatype Inconsistency = Inconsistency(index: nat, text: string, issues: seq<Issue>)

  /** The issue feature `f` raises for `text`: when its common value is concrete and differs. */
  function IssueFor(isWord: char -> bool, f: Feature, text: string, common: Dict<Feature, Common>): seq<Issue> {
    if Differs(isWord, f, text, common)
    then [Issue(f, Get(common, f).value.value, FeatureOf(isWord, f, text))]
    else []
  }

  /** The issues of the first `n` checked features. */
  function IssuesOf(isWord: char -> bool, text: string, common: Dict<Feature, Common>, n: nat): seq<Issue>
    requires n <= |CheckedFeatures|
  {
    if n == 0 then [] else IssuesOf(isWord, text, common, n - 1) + IssueFor(isWord, CheckedFeatures[n - 1], text, common)
  }

  /** A checked feature whose concrete common value the text does not have. */
  predicate Differs(isWord: char -> bool, f: Feature, text: string, common: Dict<Feature, Common>) {
    Get(common, f).Some? && Get(common, f).value.Concrete? && FeatureOf(isWord, f, text) != Get(common, f).value.value
  }

  lemma {:induction false} IssuesOfSpec(isWord: char -> bool, text: string, common: Dict<Feature, Common>, n: nat)
    requires n <= |CheckedFeatures|
    ensures IssuesOf(isWord, text, common, n) != [] <==> exists k :: 0 <= k < n && Differs(isWord, CheckedFeatures[k], text, common)
  {
    if n > 0 {
      IssuesOfSpec(isWord, text, common, n - 1);
    }
  }

  /** The issues of every checked feature for one text. */
  function Check(isWord: char -> bool, common: Dict<Feature, Common>): string -> seq<Issue> {
    t => IssuesOf(isWord, t, common, |CheckedFeatures|)
  }

  /** The reports for the first `n` texts: the texts `check` finds issues with, in order. */
  function Reports(check: string -> seq<Issue>, texts: seq<string>, n: nat): seq<Inconsistency>
    requires n <= |texts|
  {
    if n == 0 then []
    else
      var init := Reports(check, texts, n - 1);
      var issues := check(texts[n - 1]);
      if issues != [] then init + [Inconsistency(n - 1, texts[n - 1], issues)] else init
  }

  /** `detect_inconsistencies`. */
  function Inconsistencies(isWord: char -> bool, texts: seq<string>, common: Dict<Feature, Common>): seq<Inconsistency> {
    Reports(Check(isWord, common), texts, |texts|)
  }

  /** The loop of `detect_inconsistencies`. */
  method DetectInconsistencies(isWord: char -> bool, texts: seq<string>, common: Dict<Feature, Common>)
    returns (inconsistencies: seq<Inconsistency>)
    ensures inconsistencies == Inconsistencies(isWord, texts, common)
  {
    inconsistencies := [];
    for i := 0 to |texts|
      invariant inconsistencies == Reports(Check(isWord, common), texts, i)
    {
      var issues: seq<Issue> := [];
      for k := 0 to |CheckedFeatures|
        invariant issues == IssuesOf(isWord, texts[i], common, k)
      {
        issues := issues + IssueFor(isWord, CheckedFeatures[k], texts[i], common);
      }
      if issues != [] {
        inconsistencies := inconsistencies + [Inconsistency(i, texts[i], issues)];
      }
    }
  }

  /** Reports carry their text and a non-empty issue list, and come in increasing index order. */
  lemma {:induction false} ReportsOrdered(check: string -> seq<Issue>, texts: seq<string>, n: nat)
    requires n <= |texts|
    ensures forall k :: 0 <= k < |Reports(check, texts, n)| ==> Reports(check, texts, n)[k].index < n
    ensures forall k :: 0 <= k < |Reports(check, texts, n)| ==>
              var r := Reports(check, texts, n)[k];
              r.index < |texts| && r.text == texts[r.index] && r.issues == check(r.text) && r.issues != []
    ensures forall k, l :: 0 <= k < l < |Reports(check, texts, n)| ==> Reports(check, texts, n)[k].index < Reports(check, texts, n)[l].index
  {
    if n > 0 {
      ReportsOrdered(check, texts, n - 1);
      var init := Reports(check, texts, n - 1);
      var issues := check(texts[n - 1]);
      if issues != [] {
        var r := init + [Inconsistency(n - 1, texts[n - 1], issues)];
        assert Reports(check, texts, n) == r;
        forall k | 0 <= k < |init| ensures r[k] == init[k] && r[k].index < n - 1 {
        }
      }
    }
  }

  /** Text `i` is reported exactly when `check` finds issues with it. */
  lemma {:induction false} ReportsIndex(check: string -> seq<Issue>, texts: seq<string>, n: nat, i: nat)
    requires i < n <= |texts|
    ensures (exists k :: 0 <= k < |Reports(check, texts, n)| && Reports(check, texts, n)[k].index == i)
            ==> check(texts[i]) != []
    ensures check(texts[i]) != [] ==>
            (exists k :: 0 <= k < |Reports(check, texts, n)| && Reports(check, texts, n)[k].index == i)
  {
    var r := Reports(check, texts, n);
    var init := Reports(check, texts, n - 1);
    ReportsOrdered(check, texts, n - 1);
    if i < n - 1 {
      ReportsIndex(check, texts, n - 1, i);
      assert |init| <= |r| && forall k :: 0 <= k < |init| ==> r[k] == init[k];
      if check(texts[i]) != [] {
        var k :| 0 <= k < |init| && init[k].index == i;
        assert r[k].index == i;
      } else {
        forall k | 0 <= k < |r| ensures r[k].index != i {
          if k >= |init| {
            assert r[k].index == n - 1;
          }
        }
      }
    } else if r != init {
      assert r[|init|].index == i;
    } else {
      assert forall k :: 0 <= k < |r| ==> r[k].index < n - 1;
    }
  }

  /**
   * Text `i` is reported exactly when it differs on a checked feature whose common value is
   * concrete.
   */
  lemma InconsistenciesComplete(isWord: char -> bool, texts: seq<string>, common: Dict<Feature, Common>, i: nat)
    requires i < |texts|
    ensures var r := Inconsistencies(isWord, texts, common);
            (exists k :: 0 <= k < |r| && r[k].index == i) <==>
            exists f :: 0 <= f < |CheckedFeatures| && Differs(isWord, CheckedFeatures[f], texts[i], common)
  {
    ReportsIndex(Check(isWord, common), texts, |texts|, i);
    IssuesOfSpec(isWord, texts[i], common, |CheckedFeatures|);
  }

  // ---------------------------------------------------------------- detect_format

  /** What `detect_format` reports: a load failure, a missing key, or the analysis. */
  datatype FormatReport =
    | CannotLoad
    | NoTextField(key: string)
    | Analysis(texts: seq<string>, common: Dict<Feature, Common>, inconsistencies: seq<Inconsistency>)

  /** `detect_format` without the rendering of its report. */
  function DetectFormat(isWord: char -> bool, parsed: Option<Json>, key: string): FormatReport {
    var data := LoadData(parsed);
    if data == [] then CannotLoad
    else
      var texts := ItemsTexts(data, key);
      if texts == [] then NoTextField(key)
      else
        var common := CommonPattern(AnalyzeTextPatterns(isWord, texts));
        Analysis(texts, common, Inconsistencies(isWord, texts, common))
  }

  lemma AllFeaturesDistinct()
    ensures Distinct(AllFeatures)
  {
    forall i | 0 <= i < |AllFeatures| ensures FeatureIndex(AllFeatures[i]) == i {
    }
  }

  /** Feature `f`'s list sits at `f`'s place in the analysis. */
  lemma PatternsAt(isWord: char -> bool, texts: seq<string>, f: Feature)
    requires texts != []
    ensures |AnalyzeTextPatterns(isWord, texts)| == |AllFeatures|
    ensures AnalyzeTextPatterns(isWord, texts)[FeatureIndex(f)] == (f, Column(isWord, f, texts))
  {
  }

  /** For texts, every feature has a non-empty list, and the features come in order. */
  lemma PatternsFull(isWord: char -> bool, texts: seq<string>)
    requires texts != []
    ensures forall k :: 0 <= k < |AnalyzeTextPatterns(isWord, texts)| ==> AnalyzeTextPatterns(isWord, texts)[k].1 != []
    ensures Keys(AnalyzeTextPatterns(isWord, texts)) == AllFeatures
  {
    var p := AnalyzeTextPatterns(isWord, texts);
    forall g ensures p[FeatureIndex(g)] == (g, Column(isWord, g, texts)) {
      PatternsAt(isWord, texts, g);
    }
    forall k | 0 <= k < |p| ensures p[k].1 != [] && p[k].0 == AllFeatures[k] {
      assert p[k] == p[FeatureIndex(AllFeatures[k])];
    }
  }

  /** For identical texts, feature `f` is concrete with the first text's value at 100%. */
  lemma IdenticalTextsCommon(isWord: char -> bool, texts: seq<string>, f: Feature)
    requires texts != [] && forall i :: 0 <= i < |texts| ==> texts[i] == texts[0]
    ensures Get(CommonPattern(AnalyzeTextPatterns(isWord, texts)), f) == Some(Concrete(FeatureOf(isWord, f, texts[0]), |texts|))
  {
    var p := AnalyzeTextPatterns(isWord, texts);
    PatternsFull(isWord, texts);
    PatternsAt(isWord, texts, f);
    var k := FeatureIndex(f);
    var column := Column(isWord, f, texts);
    CommonPatternAt(p, k);
    CommonOfConstant(column, FeatureOf(isWord, f, texts[0]));
    CommonPatternKeys(p);
    AllFeaturesDistinct();
    DistinctGet(CommonPattern(p), k);
  }

  /** Identical texts share every feature, so every feature is concrete and nothing is reported. */
  lemma IdenticalTextsConsistent(isWord: char -> bool, texts: seq<string>)
    requires texts != [] && forall i :: 0 <= i < |texts| ==> texts[i] == texts[0]
    ensures Inconsistencies(isWord, texts, CommonPattern(AnalyzeTextPatterns(isWord, texts))) == []
  {
    var common := CommonPattern(AnalyzeTextPatterns(isWord, texts));
    forall f | 0 <= f < |CheckedFeatures| ensures !Differs(isWord, CheckedFeatures[f], texts[0], common) {
      IdenticalTextsCommon(isWord, texts, CheckedFeatures[f]);
    }
    IssuesOfSpec(isWord, texts[0], common, |CheckedFeatures|);
    var check := Check(isWord, common);
    assert check(texts[0]) == [];
    forall i | 0 <= i < |texts| ensures check(texts[i]) == [] {
      assert texts[i] == texts[0];
    }
    ReportsNone(check, texts, |texts|);
  }

  /** When `check` finds no issue with any text, nothing is reported. */
  lemma {:induction false} ReportsNone(check: string -> seq<Issue>, texts: seq<string>, n: nat)
    requires n <= |texts| && forall i :: 0 <= i < n ==> check(texts[i]) == []
    ensures Reports(check, texts, n) == []
  {
    if n > 0 {
      ReportsNone(check, texts, n - 1);
    }
  }

  /** Where each feature sits in `AllFeatures`. */
  function FeatureIndex(f: Feature): (k: nat)
    ensures k < |AllFeatures| && AllFeatures[k] == f
  {
    match f
    case Lengths => 0
    case LineCounts => 1
    case HasNewlines => 2
    case HasTabs => 3
    case HasSpaces => 4
    case StartsWithSpace => 5
    case EndsWithSpace => 6
    case HasQuotes => 7
    case HasBrackets => 8
    case HasBraces => 9
    case HasParentheses => 10
    case HasSpecialChars => 11
    case WordCounts => 12
    case CharCounts => 13
  }

  lemma {:induction false} CommonPatternKeys(patterns: Dict<Feature, seq<FValue>>)
    requires forall i :: 0 <= i < |patterns| ==> patterns[i].1 != []
    ensures Keys(CommonPattern(patterns)) == Keys(patterns)
  {
    if patterns != [] {
      var n := |patterns| - 1;
      var init := patterns[..n];
      var (f, values) := patterns[n];
      CommonPatternKeys(init);
      KeysSnoc(CommonPattern(init), f, CommonOf(values));
      KeysSnoc(init, f, values);
      assert patterns == init + [(f, values)];
    }
  }

  /**
   * `detect_format` stops with `"无法加载JSON文件"` exactly when loading gives no items, and with the
   * missing-field message exactly when no text is found; otherwise it analyses the extracted texts.
   */
  lemma DetectFormatSpec(isWord: char -> bool, parsed: Option<Json>, key: string)
    ensures var r := DetectFormat(isWord, parsed, key);
            && (r.CannotLoad? <==> parsed.None? || !IsContainer(parsed.value) || parsed.value == Arr([]))
            && (r.NoTextField? ==> r.key == key)
            && (r.Analysis? ==> r.texts != [] && r.texts == ItemsTexts(LoadData(parsed), key))
  {
  }
}
