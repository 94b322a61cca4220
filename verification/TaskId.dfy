/** Task IDs: the formats that GenerateWork prints and the parsers that Aggregate reads them back with. */
module TaskId {

  datatype Option<T> = None | Some(value: T)

  // ---- numbers ----

  const MaxInt := 0x7FFF_FFFF_FFFF_FFFF

  predicate IsDigit(c: char) {
    '0' <= c <= '9'
  }

  function Digit(n: nat): (c: char)
    requires n < 10
    ensures IsDigit(c) && c as int - '0' as int == n
  {
    ('0' as int + n) as char
  }

  /** The decimal digits that %d prints. */
  function Decimal(n: nat): string {
    if n < 10 then [Digit(n)] else Decimal(n / 10) + [Digit(n % 10)]
  }

  function ValueOf(digits: string): nat
    requires forall i :: 0 <= i < |digits| ==> IsDigit(digits[i])
  {
    if digits == "" then 0
    else assert IsDigit(digits[|digits| - 1]); ValueOf(digits[..|digits| - 1]) * 10 + (digits[|digits| - 1] as int - '0' as int)
  }

  lemma {:induction false} DecimalReads(n: nat)
    ensures Decimal(n) != "" && (forall i :: 0 <= i < |Decimal(n)| ==> IsDigit(Decimal(n)[i]))
    ensures ValueOf(Decimal(n)) == n
  {
    if n < 10 {
      assert Decimal(n)[..0] == "";
    } else {
      DecimalReads(n / 10);
      var front := Decimal(n / 10);
      assert Decimal(n)[..|front|] == front;
    }
  }

  // ---- strings ----

  predicate HasSuffix(s: string, suffix: string) {
    |suffix| <= |s| && s[|s| - |suffix|..] == suffix
  }

  function TrimSuffix(s: string, suffix: string): string {
    if HasSuffix(s, suffix) then s[..|s| - |suffix|] else s
  }

  lemma SuffixOfJoin(s: string, suffix: string)
    ensures HasSuffix(s + suffix, suffix) && TrimSuffix(s + suffix, suffix) == s
  {
  }

  predicate DoubleHyphenAt(s: string, i: int) {
    0 <= i && i + 1 < |s| && s[i] == '-' && s[i + 1] == '-'
  }

  /** strings.Index of "--". */
  function FirstDoubleHyphen(s: string, from: nat): (r: int)
    requires from <= |s|
    ensures r >= 0 ==> from <= r && DoubleHyphenAt(s, r)
    ensures forall i :: from <= i < (if r >= 0 then r else |s|) ==> !DoubleHyphenAt(s, i)
    decreases |s| - from
  {
    if from == |s| then -1
    else if DoubleHyphenAt(s, from) then from
    else FirstDoubleHyphen(s, from + 1)
  }

  /** Where the digits at the end of s begin. */
  function DigitsFrom(s: string): (r: nat)
    ensures r <= |s| && forall i :: r <= i < |s| ==> IsDigit(s[i])
    ensures r > 0 ==> !IsDigit(s[r - 1])
  {
    if s != "" && IsDigit(s[|s| - 1]) then DigitsFrom(s[..|s| - 1]) else |s|
  }

  /** The match of -s(\d+)$: what stands before it and the number. A number that does not fit an int is
      no match for the parsers. */
  function SampleSuffix(s: string): Option<(string, nat)> {
    var k := DigitsFrom(s);
    if 2 <= k < |s| && s[k - 2] == '-' && s[k - 1] == 's' && ValueOf(s[k..]) <= MaxInt
    then Some((s[..k - 2], ValueOf(s[k..])))
    else None
  }

  lemma DigitsAfter(s: string, digits: string)
    requires s != "" && !IsDigit(s[|s| - 1]) && forall i :: 0 <= i < |digits| ==> IsDigit(digits[i])
    ensures DigitsFrom(s + digits) == |s|
  {
    var t := s + digits;
    var k := DigitsFrom(t);
    assert t[|s| - 1] == s[|s| - 1];
    assert forall i :: |s| <= i < |t| ==> t[i] == digits[i - |s|];
  }

  lemma SampleReads(s: string, n: nat)
    requires n <= MaxInt
    ensures SampleSuffix(s + "-s" + Decimal(n)) == Some((s, n))
  {
    DecimalReads(n);
    var front, t := s + "-s", s + "-s" + Decimal(n);
    DigitsAfter(front, Decimal(n));
    assert t[|front|..] == Decimal(n) && t[..|front| - 2] == s;
  }

  // ---- models ----

  /** The first configured model that the text ends with, after a hyphen. */
  function FirstModel(models: seq<string>, text: string): (r: Option<string>)
    ensures r.Some? ==> r.value in models && HasSuffix(text, "-" + r.value)
    ensures r.None? ==> forall m :: m in models ==> !HasSuffix(text, "-" + m)
  {
    if models == [] then None
    else if HasSuffix(text, "-" + models[0]) then Some(models[0])
    else FirstModel(models[1..], text)
  }

  function StripPrefix(taskId: string, analyzer: string): Option<string> {
    var prefix := analyzer + "-";
    if prefix <= taskId then Some(taskId[|prefix|..]) else None
  }

  lemma StripsPrefix(analyzer: string, rest: string)
    ensures StripPrefix(analyzer + "-" + rest, analyzer) == Some(rest)
  {
  }

  // ---- pair IDs ----

  datatype Pair = Pair(source: string, target: string, model: string, sample: nat)

  function PrintPair(analyzer: string, p: Pair): string {
    analyzer + "-" + (p.source + "--" + (p.target + "-" + p.model + "-s" + Decimal(p.sample)))
  }

  function ParsePair(taskId: string, analyzer: string, models: seq<string>): Option<Pair> {
    var rest := StripPrefix(taskId, analyzer);
    if rest.None? then None else
    var i := FirstDoubleHyphen(rest.value, 0);
    if i < 0 then None else
    var sample := SampleSuffix(rest.value[i + 2..]);
    if sample.None? then None else
    var model := FirstModel(models, sample.value.0);
    if model.None? then None
    else Some(Pair(rest.value[..i], TrimSuffix(sample.value.0, "-" + model.value), model.value, sample.value.1))
  }

  /** The source has no double hyphen and does not end in a hyphen. */
  predicate CleanSource(source: string) {
    (forall i :: 0 <= i < |source| ==> !DoubleHyphenAt(source, i)) && (source == "" || source[|source| - 1] != '-')
  }

  /** The first double hyphen after a source is the separator exactly when the source is clean. */
  lemma SeparatorFound(source: string, tail: string)
    ensures FirstDoubleHyphen(source + "--" + tail, 0) == |source| <==> CleanSource(source)
  {
    var s := source + "--" + tail;
    var r := FirstDoubleHyphen(s, 0);
    assert DoubleHyphenAt(s, |source|);
    assert forall i :: 0 <= i < |source| - 1 ==> (DoubleHyphenAt(s, i) <==> DoubleHyphenAt(source, i));
    assert source != "" ==> (DoubleHyphenAt(s, |source| - 1) <==> source[|source| - 1] == '-');
    if !CleanSource(source) {
      if source == "" || source[|source| - 1] != '-' {
        var i :| 0 <= i < |source| && DoubleHyphenAt(source, i);
        assert DoubleHyphenAt(s, i);
      } else {
        assert DoubleHyphenAt(s, |source| - 1);
      }
    }
  }

  lemma ModelFound(models: seq<string>, target: string, model: string, p: Option<string>)
    requires p == FirstModel(models, target + "-" + model)
    ensures p == Some(model) ==> TrimSuffix(target + "-" + model, "-" + model) == target
  {
    assert target + "-" + model == target + ("-" + model);
    SuffixOfJoin(target, "-" + model);
  }

  lemma SampleIs(s: string)
    requires SampleSuffix(s).Some?
    ensures exists digits ::
      && s == SampleSuffix(s).value.0 + "-s" + digits && digits != "" && (forall i :: 0 <= i < |digits| ==> IsDigit(digits[i]))
      && ValueOf(digits) == SampleSuffix(s).value.1 <= MaxInt
  {
    var k := DigitsFrom(s);
    var digits := s[k..];
    assert s[k - 2..k] == "-s";
    assert s == s[..k - 2] + s[k - 2..k] + digits;
  }

  lemma SuffixIs(s: string, suffix: string)
    requires HasSuffix(s, suffix)
    ensures s == TrimSuffix(s, suffix) + suffix
  {
  }

  /** What a pair ID that is read looks like: the analyzer's name, a source without the separator, a target, a configured
      model and a number that fits. */
  ghost predicate ReadsAs(taskId: string, analyzer: string, models: seq<string>, p: Pair) {
    && p.model in models && CleanSource(p.source) && p.sample <= MaxInt
    && exists digits :: (forall i :: 0 <= i < |digits| ==> IsDigit(digits[i])) && digits != "" && ValueOf(digits) == p.sample &&
         taskId == analyzer + "-" + (p.source + "--" + (p.target + "-" + p.model + "-s" + digits))
  }

  lemma StripIs(taskId: string, analyzer: string)
    requires StripPrefix(taskId, analyzer).Some?
    ensures taskId == analyzer + "-" + StripPrefix(taskId, analyzer).value
  {
  }

  lemma SplitAtHyphens(s: string, i: int)
    requires DoubleHyphenAt(s, i)
    ensures s == s[..i] + "--" + s[i + 2..]
  {
  }

  lemma Glue(target: string, model: string)
    ensures target + ("-" + model) == target + "-" + model
  {
  }

  /** The steps of a successful parse. */
  lemma ParseSteps(taskId: string, analyzer: string, models: seq<string>) returns (rest: string, i: int, tail: string)
    requires ParsePair(taskId, analyzer, models).Some?
    ensures StripPrefix(taskId, analyzer) == Some(rest) && i == FirstDoubleHyphen(rest, 0) && DoubleHyphenAt(rest, i) && tail == rest[i + 2..]
    ensures SampleSuffix(tail).Some? && FirstModel(models, SampleSuffix(tail).value.0).Some?
    ensures var p, m := ParsePair(taskId, analyzer, models).value, FirstModel(models, SampleSuffix(tail).value.0).value;
      p == Pair(rest[..i], TrimSuffix(SampleSuffix(tail).value.0, "-" + m), m, SampleSuffix(tail).value.1)
  {
    hide SampleSuffix, FirstModel, FirstDoubleHyphen, StripPrefix, TrimSuffix;
    rest := StripPrefix(taskId, analyzer).value;
    i := FirstDoubleHyphen(rest, 0);
    tail := rest[i + 2..];
  }

  /** A task ID is read only as the parts it is made of. */
  lemma ParsedIsPrinted(taskId: string, analyzer: string, models: seq<string>)
    requires ParsePair(taskId, analyzer, models).Some?
    ensures ReadsAs(taskId, analyzer, models, ParsePair(taskId, analyzer, models).value)
  {
    hide SampleSuffix, FirstModel, FirstDoubleHyphen, StripPrefix, TrimSuffix, ParsePair, HasSuffix, DoubleHyphenAt, CleanSource, ValueOf;
    var p := ParsePair(taskId, analyzer, models).value;
    var rest, i, tail := ParseSteps(taskId, analyzer, models);
    StripIs(taskId, analyzer);
    SplitAtHyphens(rest, i);
    assert CleanSource(p.source) by { HyphensFirst(rest, i); }
    SampleIs(tail);
    var tm := SampleSuffix(tail).value.0;
    var digits :| tail == tm + "-s" + digits && digits != "" && (forall i :: 0 <= i < |digits| ==> IsDigit(digits[i])) &&
                  ValueOf(digits) == SampleSuffix(tail).value.1;
    SuffixIs(tm, "-" + p.model);
    Glue(p.target, p.model);
  }

  lemma HyphensFirst(s: string, i: int)
    requires i == FirstDoubleHyphen(s, 0) && DoubleHyphenAt(s, i)
    ensures CleanSource(s[..i])
  {
    hide FirstDoubleHyphen, DoubleHyphenAt, CleanSource;
    SplitAtHyphens(s, i);
    assert |s[..i]| == i by { InBounds(s, i); }
    SeparatorFound(s[..i], s[i + 2..]);
  }

  lemma InBounds(s: string, i: int)
    requires DoubleHyphenAt(s, i)
    ensures 0 <= i <= i + 2 <= |s|
  {
  }

  /** Printing then parsing a pair ID gives back its parts exactly when the source is clean and the first
      configured model that the target and model end with is the pair's own. */
  lemma PairRoundTrip(analyzer: string, p: Pair, models: seq<string>)
    requires p.sample <= MaxInt
    ensures ParsePair(PrintPair(analyzer, p), analyzer, models) == Some(p)
      <==> CleanSource(p.source) && FirstModel(models, p.target + "-" + p.model) == Some(p.model)
  {
    hide FirstDoubleHyphen, SampleSuffix, FirstModel, StripPrefix, CleanSource;
    var tm := p.target + "-" + p.model;
    var tail := tm + "-s" + Decimal(p.sample);
    var rest := p.source + "--" + tail;
    StripsPrefix(analyzer, rest);
    SeparatorFound(p.source, tail);
    var i := FirstDoubleHyphen(rest, 0);
    if i == |p.source| {
      assert rest[..i] == p.source && rest[i + 2..] == tail;
      SampleReads(tm, p.sample);
      ModelFound(models, p.target, p.model, FirstModel(models, tm));
    } else if i >= 0 {
      assert |rest[..i]| != |p.source|;
    }
  }

  /** Two pairs with one ID, and the one whose source has a double hyphen reads back as the other. */
  lemma DoubleHyphenCollides(analyzer: string, model: string, sample: nat)
    requires sample <= MaxInt
    ensures var p, q := Pair("a", "b--c", model, sample), Pair("a--b", "c", model, sample);
      && PrintPair(analyzer, p) == PrintPair(analyzer, q)
      && ParsePair(PrintPair(analyzer, q), analyzer, [model]) == Some(p)
  {
    var p, q := Pair("a", "b--c", model, sample), Pair("a--b", "c", model, sample);
    var tail := model + "-s" + Decimal(sample);
    assert "a" + "--" + ("b--c" + "-" + tail) == "a--b" + "--" + ("c" + "-" + tail);
    assert "b--c" + "-" + tail == "b--c" + "-" + model + "-s" + Decimal(sample);
    assert "c" + "-" + tail == "c" + "-" + model + "-s" + Decimal(sample);
    assert CleanSource("a");
    assert "b--c" + "-" + model == "b--c" + ("-" + model);
    SuffixOfJoin("b--c", "-" + model);
    hide PrintPair, ParsePair, CleanSource;
    PairRoundTrip(analyzer, p, [model]);
  }

  /** A source that ends in a hyphen, or a model that another configured one ends, is misread too. */
  lemma MisreadPairs(analyzer: string)
    ensures ParsePair(PrintPair(analyzer, Pair("a-", "b", "m", 0)), analyzer, ["m"]) != Some(Pair("a-", "b", "m", 0))
    ensures ParsePair(PrintPair(analyzer, Pair("a", "b", "x-m", 0)), analyzer, ["m", "x-m"]) != Some(Pair("a", "b", "x-m", 0))
  {
    hide ParsePair, PrintPair, CleanSource, FirstModel, HasSuffix;
    PairRoundTrip(analyzer, Pair("a-", "b", "m", 0), ["m"]);
    NotClean();
    PairRoundTrip(analyzer, Pair("a", "b", "x-m", 0), ["m", "x-m"]);
    assert "b" + "-" + "x-m" == "b-x" + ("-" + "m");
    SuffixOfJoin("b-x", "-" + "m");
    FirstIsFirst(["m", "x-m"], "b" + "-" + "x-m");
  }

  lemma NotClean()
    ensures !CleanSource("a-")
  {
  }

  lemma FirstIsFirst(models: seq<string>, text: string)
    requires models != [] && HasSuffix(text, "-" + models[0])
    ensures FirstModel(models, text) == Some(models[0])
  {
  }

  // ---- control IDs ----

  datatype Control = Sampled(control: string, model: string, sample: nat) | SkippedControl(control: string)

  function PrintControl(analyzer: string, c: Control): string {
    analyzer + "-" +
    match c
    case Sampled(control, model, sample) => control + "-" + model + "-s" + Decimal(sample)
    case SkippedControl(control) => control + "-skip"
  }

  function ParseControl(taskId: string, analyzer: string, models: seq<string>): Option<Control> {
    var rest := StripPrefix(taskId, analyzer);
    if rest.None? then None
    else if HasSuffix(rest.value, "-skip") then Some(SkippedControl(TrimSuffix(rest.value, "-skip")))
    else
      var sample := SampleSuffix(rest.value);
      if sample.None? then None else
      var model := FirstModel(models, sample.value.0);
      if model.None? then None
      else Some(Sampled(TrimSuffix(sample.value.0, "-" + model.value), model.value, sample.value.1))
  }

  /** A sample ID ends in a digit, so it never reads as a skip. */
  lemma SampleIsNoSkip(s: string, n: nat)
    ensures !HasSuffix(s + "-s" + Decimal(n), "-skip")
  {
    DecimalReads(n);
    var t := s + "-s" + Decimal(n);
    assert t[|t| - 1] == Decimal(n)[|Decimal(n)| - 1];
    assert |t| >= 5 ==> t[|t| - 5..][4] == t[|t| - 1];
  }

  /** A skip ID always reads back. A sample ID reads back exactly when the first configured model it ends
      with is its own. */
  lemma ControlRoundTrip(analyzer: string, c: Control, models: seq<string>)
    requires c.Sampled? ==> c.sample <= MaxInt
    ensures ParseControl(PrintControl(analyzer, c), analyzer, models) == Some(c)
      <==> c.SkippedControl? || FirstModel(models, c.control + "-" + c.model) == Some(c.model)
  {
    hide SampleSuffix, FirstModel, StripPrefix, HasSuffix;
    match c
    case SkippedControl(control) =>
      StripsPrefix(analyzer, control + "-skip");
      SuffixOfJoin(control, "-skip");
    case Sampled(control, model, sample) =>
      var cm := control + "-" + model;
      StripsPrefix(analyzer, cm + "-s" + Decimal(sample));
      SampleIsNoSkip(cm, sample);
      SampleReads(cm, sample);
      ModelFound(models, control, model, FirstModel(models, cm));
  }

  /** The two forms never give the same ID, whatever the controls and models are called. */
  lemma FormsNeverCollide(analyzer: string, c: Control, d: Control)
    requires c.Sampled? && d.SkippedControl?
    ensures PrintControl(analyzer, c) != PrintControl(analyzer, d)
  {
    var rest, rest' := c.control + "-" + c.model + "-s" + Decimal(c.sample), d.control + "-skip";
    SampleIsNoSkip(c.control + "-" + c.model, c.sample);
    SuffixOfJoin(d.control, "-skip");
    StripsPrefix(analyzer, rest);
    StripsPrefix(analyzer, rest');
  }

  /** Pairs that read back have IDs of their own. */
  lemma PairIdsDiffer(analyzer: string, p: Pair, q: Pair, models: seq<string>)
    requires p != q && p.sample <= MaxInt && q.sample <= MaxInt
    requires CleanSource(p.source) && FirstModel(models, p.target + "-" + p.model) == Some(p.model)
    requires CleanSource(q.source) && FirstModel(models, q.target + "-" + q.model) == Some(q.model)
    ensures PrintPair(analyzer, p) != PrintPair(analyzer, q)
  {
    hide CleanSource, FirstModel;
    PairRoundTrip(analyzer, p, models);
    PairRoundTrip(analyzer, q, models);
  }
}
