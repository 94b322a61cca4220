/** A task's cache identity: derived from the payload fields the worker builds the model request from, and
    encoded into the cache key. */
module CacheIdentity {
  import opened TaskId

  /** A JSON number as a float: not every one is a real. */
  datatype Number = Finite(value: real) | NotANumber | Infinite(negative: bool)

  /** A payload field. */
  datatype Value = Num(number: Number) | Str(text: string) | List(items: seq<Value>) | Struct(fields: map<string, Value>) | Blank

  type Fields = map<string, Value>

  /** The getters read an absent field, or one of another kind, as zero or empty. */
  function StringAt(f: Fields, key: string): string {
    if key in f && f[key].Str? then f[key].text else ""
  }

  function NumberAt(f: Fields, key: string): Number {
    if key in f && f[key].Num? then f[key].number else Finite(0.0)
  }

  // ---- messages ----

  datatype Message = Message(role: string, content: string)

  predicate KnownRole(role: string) {
    role == "system" || role == "user" || role == "assistant"
  }

  /** The decoder that the worker and the cache identity share. */
  function Messages(v: Value): Option<seq<Message>> {
    if v.List? then MessagesOf(v.items) else None
  }

  function MessagesOf(items: seq<Value>): Option<seq<Message>> {
    if items == [] then Some([])
    else
      var front := MessagesOf(items[..|items| - 1]);
      var item := items[|items| - 1];
      if front.None? || !item.Struct? || !KnownRole(StringAt(item.fields, "role")) then None
      else Some(front.value + [Message(StringAt(item.fields, "role"), StringAt(item.fields, "content"))])
  }

  /** What a content hash covers. */
  datatype Content = Chat(messages: seq<Message>) | Text(text: string)

  type Hash = Content -> string

  ghost predicate Injective(hash: Hash) {
    forall a, b :: hash(a) == hash(b) ==> a == b
  }

  // ---- the cache request ----

  datatype Task = Task(taskType: string, preBuilt: bool, payload: Option<Fields>)

  datatype Identity = Identity(
    taskType: string, modelAlias: string, temperature: Option<Number>, maxTokens: int, sample: int, contentHash: string)

  datatype Request = Request(source: string, target: string, identity: Identity)

  const MaxInt32 := 0x7FFF_FFFF

  function Whole(k: int): Number {
    Finite(k as real)
  }

  /** wholeNumber: a non-negative whole number within int32. A float that is no number is not one. */
  function WholeNumber(n: Number): (r: Option<int>)
    ensures r.Some? <==> exists k :: 0 <= k <= MaxInt32 && n == Whole(k)
    ensures r.Some? ==> n == Whole(r.value)
  {
    if n.Finite? && n.value == n.value.Floor as real && n.value >= 0.0 && n.value <= MaxInt32 as real
    then assert n == Whole(n.value.Floor); Some(n.value.Floor)
    else None
  }

  function RecomputeHash(f: Fields, hash: Hash): Option<string> {
    var text := StringAt(f, "text");
    if ("messages" in f) == (text != "") then None
    else
      var content := if "messages" in f then Messages(f["messages"]) else Some([]);
      if content.None? then None
      else
        var h := hash(if "messages" in f then Chat(content.value) else Text(text));
        var claimed := StringAt(f, "content_hash");
        if claimed != "" && claimed != h then None else Some(h)
  }

  function CacheRequest(t: Task, sourceField: string, targetField: string, hash: Hash): Option<Request> {
    if t.preBuilt || t.payload.None? then None
    else
      var f := t.payload.value;
      var h := RecomputeHash(f, hash);
      var tokens, sample := WholeNumber(NumberAt(f, "max_tokens")), WholeNumber(NumberAt(f, "sample_index"));
      var source, target := StringAt(f, sourceField), StringAt(f, targetField);
      if h.None? || source == "" || target == "" || tokens.None? || sample.None? then None
      else
        var temperature := if "temperature" in f then Some(NumberAt(f, "temperature")) else None;
        Some(Request(source, target,
          Identity(t.taskType, StringAt(f, "model"), temperature, tokens.value, sample.value, h.value)))
  }

  /** What the shared decoder accepts, and what it reads: a list of structs that each name a known role, in order. */
  lemma MessagesAre(v: Value)
    ensures Messages(v).Some? <==> v.List? && forall i :: 0 <= i < |v.items| ==>
              v.items[i].Struct? && StringAt(v.items[i].fields, "role") in {"system", "user", "assistant"}
    ensures Messages(v).Some? ==>
      |Messages(v).value| == |v.items| && forall i :: 0 <= i < |v.items| ==>
        Messages(v).value[i] == Message(StringAt(v.items[i].fields, "role"), StringAt(v.items[i].fields, "content"))
  {
    if v.List? { MessagesOfAre(v.items); }
  }

  lemma {:induction false} MessagesOfAre(items: seq<Value>)
    ensures MessagesOf(items).Some? <==> forall i :: 0 <= i < |items| ==> items[i].Struct? && KnownRole(StringAt(items[i].fields, "role"))
    ensures MessagesOf(items).Some? ==>
      |MessagesOf(items).value| == |items| && forall i :: 0 <= i < |items| ==>
        MessagesOf(items).value[i] == Message(StringAt(items[i].fields, "role"), StringAt(items[i].fields, "content"))
  {
    if items != [] {
      var front := items[..|items| - 1];
      assert forall i :: 0 <= i < |front| ==> front[i] == items[i];
      MessagesOfAre(front);
    }
  }

  /** The content a payload carries: messages or a text, not both and not neither. */
  ghost predicate Carries(f: Fields, content: Content) {
    if "messages" in f
    then StringAt(f, "text") == "" && Messages(f["messages"]).Some? && content == Chat(Messages(f["messages"]).value)
    else StringAt(f, "text") != "" && content == Text(StringAt(f, "text"))
  }

  /** What a request takes from the task it is for. */
  ghost predicate Identifies(t: Task, sourceField: string, targetField: string, hash: Hash, r: Request) {
    !t.preBuilt && t.payload.Some? &&
    var f, id := t.payload.value, r.identity;
    && r.source == StringAt(f, sourceField) && r.target == StringAt(f, targetField) && r.source != "" && r.target != ""
    && id.taskType == t.taskType && id.modelAlias == StringAt(f, "model")
    && 0 <= id.maxTokens <= MaxInt32 && Whole(id.maxTokens) == NumberAt(f, "max_tokens")
    && 0 <= id.sample <= MaxInt32 && Whole(id.sample) == NumberAt(f, "sample_index")
    && (id.temperature.Some? <==> "temperature" in f) && (id.temperature.Some? ==> id.temperature.value == NumberAt(f, "temperature"))
    && (exists content :: Carries(f, content) && id.contentHash == hash(content))
    && (StringAt(f, "content_hash") == "" || StringAt(f, "content_hash") == id.contentHash)
  }

  /** When a task is accepted, and for which request: the one whose every field the payload names, and none when there
      is no such request. */
  lemma RequestIsExactly(t: Task, sourceField: string, targetField: string, hash: Hash, r: Request)
    ensures CacheRequest(t, sourceField, targetField, hash) == Some(r) <==> Identifies(t, sourceField, targetField, hash, r)
  {
    hide Messages;
    if Identifies(t, sourceField, targetField, hash, r) {
      var f := t.payload.value;
      IdentifiedIsAccepted(t, sourceField, targetField, hash, r);
    }
  }

  lemma IdentifiedIsAccepted(t: Task, sourceField: string, targetField: string, hash: Hash, r: Request)
    requires Identifies(t, sourceField, targetField, hash, r)
    ensures CacheRequest(t, sourceField, targetField, hash) == Some(r)
  {
    hide Messages;
    var f := t.payload.value;
    var content :| Carries(f, content) && r.identity.contentHash == hash(content);
    assert RecomputeHash(f, hash) == Some(r.identity.contentHash);
    WholeIsOne(r.identity.maxTokens);
    WholeIsOne(r.identity.sample);
    assert CacheRequest(t, sourceField, targetField, hash).value.identity == r.identity;
  }

  lemma WholeIsOne(k: int)
    requires 0 <= k <= MaxInt32
    ensures WholeNumber(Whole(k)) == Some(k)
  {
  }

  /** Tasks that differ in the sample, the task type, the model, the token limit or the temperature never share an
      identity, so neither is answered with the other's cached reply. */
  lemma DifferentTasksDiffer(t: Task, u: Task, sf: string, tf: string, hash: Hash)
    requires CacheRequest(t, sf, tf, hash).Some? && CacheRequest(u, sf, tf, hash).Some?
    requires var f, g := t.payload.value, u.payload.value;
      || t.taskType != u.taskType || StringAt(f, "model") != StringAt(g, "model")
      || NumberAt(f, "sample_index") != NumberAt(g, "sample_index") || NumberAt(f, "max_tokens") != NumberAt(g, "max_tokens")
      || ("temperature" in f && "temperature" in g && NumberAt(f, "temperature") != NumberAt(g, "temperature"))
      || ("temperature" in f) != ("temperature" in g)
    ensures CacheRequest(t, sf, tf, hash).value.identity != CacheRequest(u, sf, tf, hash).value.identity
  {
    var r, q := CacheRequest(t, sf, tf, hash).value, CacheRequest(u, sf, tf, hash).value;
    RequestIsExactly(t, sf, tf, hash, r);
    RequestIsExactly(u, sf, tf, hash, q);
    hide CacheRequest, Messages;
  }

  // ---- the worker ----

  /** The part of an LLM request that the model sees. */
  datatype ModelRequest =
    | Completion(model: string, messages: seq<Message>, maxTokens: int, temperature: Option<Number>)
    | Embedding(model: string, text: string)

  /** Go's conversion of a float to int, for the numbers it is defined on. */
  function Truncate(n: Number): int {
    if !n.Finite? then 0 else if n.value >= 0.0 then n.value.Floor else -((-n.value).Floor)
  }

  function WorkerCompletion(f: Fields, hash: Hash): Option<ModelRequest> {
    if "messages" !in f || Messages(f["messages"]).None? then None
    else
      var messages := Messages(f["messages"]).value;
      var claimed := StringAt(f, "content_hash");
      if claimed != "" && claimed != hash(Chat(messages)) then None
      else Some(Completion(StringAt(f, "model"), messages, Truncate(NumberAt(f, "max_tokens")),
                           if "temperature" in f then Some(NumberAt(f, "temperature")) else None))
  }

  function WorkerEmbedding(f: Fields): Option<ModelRequest> {
    if StringAt(f, "text") == "" then None else Some(Embedding(StringAt(f, "model"), StringAt(f, "text")))
  }

  /** What the worker sends for a task, which it takes as a completion or as an embedding by its type. */
  function Sends(f: Fields, embedding: bool, hash: Hash): Option<ModelRequest> {
    if embedding then WorkerEmbedding(f) else WorkerCompletion(f, hash)
  }

  /** An accepted task is one the worker can send, and its identity holds everything the model sees. */
  lemma AcceptedIsSent(t: Task, sourceField: string, targetField: string, hash: Hash)
    requires CacheRequest(t, sourceField, targetField, hash).Some?
    ensures var f := t.payload.value; var id := CacheRequest(t, sourceField, targetField, hash).value.identity;
      && (StringAt(f, "text") == "" <==> "messages" in f)
      && ("messages" in f ==>
            Messages(f["messages"]).Some? && id.contentHash == hash(Chat(Messages(f["messages"]).value)) &&
            WorkerCompletion(f, hash) == Some(Completion(id.modelAlias, Messages(f["messages"]).value, id.maxTokens, id.temperature)))
      && ("messages" !in f ==>
            id.contentHash == hash(Text(StringAt(f, "text"))) && WorkerCompletion(f, hash).None? &&
            WorkerEmbedding(f) == Some(Embedding(id.modelAlias, StringAt(f, "text"))))
  {
    var f := t.payload.value;
    var tokens := WholeNumber(NumberAt(f, "max_tokens")).value;
    assert NumberAt(f, "max_tokens") == Finite(tokens as real) && (tokens as real).Floor == tokens;
  }

  /** Two accepted tasks with equal identities send the model the same request, whichever jobs, controls,
      prompts or analyzers' fields the payloads name. */
  lemma EqualIdentitiesSendTheSame(t: Task, u: Task, sf: string, tf: string, sf': string, tf': string, hash: Hash, embedding: bool)
    requires Injective(hash)
    requires CacheRequest(t, sf, tf, hash).Some? && CacheRequest(u, sf', tf', hash).Some?
    requires CacheRequest(t, sf, tf, hash).value.identity == CacheRequest(u, sf', tf', hash).value.identity
    ensures Sends(t.payload.value, embedding, hash) == Sends(u.payload.value, embedding, hash)
  {
    AcceptedIsSent(t, sf, tf, hash);
    AcceptedIsSent(u, sf', tf', hash);
    hide CacheRequest, Messages;
    var f, g := t.payload.value, u.payload.value;
    var c := if "messages" in f then Chat(Messages(f["messages"]).value) else Text(StringAt(f, "text"));
    var d := if "messages" in g then Chat(Messages(g["messages"]).value) else Text(StringAt(g, "text"));
    assert hash(c) == hash(d);
    assert c == d;
  }

  /** The fields the cache request is derived from. */
  predicate Read(key: string, sourceField: string, targetField: string) {
    key in {"model", "messages", "text", "content_hash", "max_tokens", "sample_index", "temperature", sourceField, targetField}
  }

  predicate SameField(f: Fields, g: Fields, key: string) {
    (key in f <==> key in g) && (key in f ==> f[key] == g[key])
  }

  /** Payloads that agree on those fields give the same answer, accepted or not: job-specific fields never
      matter. */
  lemma OtherFieldsNeverMatter(t: Task, u: Task, sourceField: string, targetField: string, hash: Hash)
    requires t.taskType == u.taskType && t.preBuilt == u.preBuilt && t.payload.Some? && u.payload.Some?
    requires forall key :: Read(key, sourceField, targetField) ==> SameField(t.payload.value, u.payload.value, key)
    ensures CacheRequest(t, sourceField, targetField, hash) == CacheRequest(u, sourceField, targetField, hash)
  {
    var f, g := t.payload.value, u.payload.value;
    assert SameField(f, g, "model") && SameField(f, g, "messages") && SameField(f, g, "text") && SameField(f, g, "content_hash");
    assert SameField(f, g, "max_tokens") && SameField(f, g, "sample_index") && SameField(f, g, "temperature");
    assert SameField(f, g, sourceField) && SameField(f, g, targetField);
  }

  // ---- the key's encoding ----

  type Bytes = seq<nat>

  /** The n lowest base-256 digits, most significant first. */
  function BigEndian(value: nat, n: nat): (b: Bytes)
    ensures |b| == n
  {
    if n == 0 then [] else BigEndian(value / 256, n - 1) + [value % 256]
  }

  function Power256(n: nat): nat {
    if n == 0 then 1 else 256 * Power256(n - 1)
  }

  lemma {:induction false} BigEndianReads(a: nat, b: nat, n: nat)
    requires a < Power256(n) && b < Power256(n) && BigEndian(a, n) == BigEndian(b, n)
    ensures a == b
  {
    if n > 0 {
      var x, y := BigEndian(a, n), BigEndian(b, n);
      assert x[..n - 1] == BigEndian(a / 256, n - 1) && y[..n - 1] == BigEndian(b / 256, n - 1);
      assert x[n - 1] == a % 256 && y[n - 1] == b % 256;
      BigEndianReads(a / 256, b / 256, n - 1);
    }
  }

  /** A field's length in eight bytes, then its bytes. */
  function EncodeField(field: Bytes): Bytes {
    BigEndian(|field|, 8) + field
  }

  function EncodeFields(fields: seq<Bytes>): Bytes {
    if fields == [] then [] else EncodeField(fields[0]) + EncodeFields(fields[1..])
  }

  predicate Short(field: Bytes) {
    |field| < Power256(8)
  }

  lemma FieldPrefixFree(a: Bytes, b: Bytes, s: Bytes, t: Bytes)
    requires Short(a) && Short(b) && EncodeField(a) + s == EncodeField(b) + t
    ensures a == b && s == t
  {
    hide BigEndian, Power256;
    var u := EncodeField(a) + s;
    assert u[..8] == BigEndian(|a|, 8) && u[..8] == BigEndian(|b|, 8);
    BigEndianReads(|a|, |b|, 8);
    assert u[8..8 + |a|] == a && u[8..8 + |b|] == b && u[8 + |a|..] == s && u[8 + |b|..] == t;
  }

  /** Length prefixes make the encoding injective on lists of as many fields. */
  lemma {:induction false} FieldsRead(fs: seq<Bytes>, gs: seq<Bytes>)
    requires |fs| == |gs| && (forall i :: 0 <= i < |fs| ==> Short(fs[i]) && Short(gs[i])) && EncodeFields(fs) == EncodeFields(gs)
    ensures fs == gs
  {
    hide EncodeField, Short;
    if fs != [] {
      FieldPrefixFree(fs[0], gs[0], EncodeFields(fs[1..]), EncodeFields(gs[1..]));
      FieldsRead(fs[1..], gs[1..]);
      assert fs == [fs[0]] + fs[1..] && gs == [gs[0]] + gs[1..];
    }
  }

  /** A text as numbers, one per character. */
  function BytesOf(s: string): (b: Bytes)
    ensures |b| == |s| && forall i :: 0 <= i < |s| ==> b[i] == s[i] as int
  {
    seq(|s|, i requires 0 <= i < |s| => s[i] as int)
  }

  lemma BytesRead(s: string, t: string)
    requires BytesOf(s) == BytesOf(t)
    ensures s == t
  {
    forall i | 0 <= i < |s| ensures s[i] == t[i] {
      assert BytesOf(s)[i] == s[i] as int && BytesOf(t)[i] == t[i] as int;
    }
  }

  /** strconv.FormatInt in base ten. */
  function FormatInt(n: int): string {
    if n < 0 then "-" + Decimal(-n) else Decimal(n)
  }

  lemma SignShows(n: int)
    ensures FormatInt(n) != "" && (FormatInt(n)[0] == '-' <==> n < 0)
  {
    DecimalReads(if n < 0 then -n else n);
    hide Decimal, ValueOf;
    assert n >= 0 ==> IsDigit(Decimal(n)[0]);
  }

  lemma FormatIntReads(a: int, b: int)
    requires FormatInt(a) == FormatInt(b)
    ensures a == b
  {
    SignShows(a);
    SignShows(b);
    DecimalReads(if a < 0 then -a else a);
    DecimalReads(if b < 0 then -b else b);
    hide Decimal, ValueOf;
    assert a < 0 ==> FormatInt(a)[1..] == Decimal(-a);
    assert b < 0 ==> FormatInt(b)[1..] == Decimal(-b);
  }

  /** The model behind an alias as the job's probe observed it. */
  datatype ModelIdentity = ModelIdentity(observed: string, deployment: string, revision: string)

  function Power2(n: nat): nat {
    if n == 0 then 1 else 2 * Power2(n - 1)
  }

  lemma Power2Positive(n: nat)
    ensures Power2(n) > 0
  {
  }

  /** mantissa * 2^exponent */
  function Scaled(mantissa: int, exponent: int): Number {
    if exponent >= 0 then Finite((mantissa * Power2(exponent)) as real)
    else Power2Positive(-exponent); Finite(mantissa as real / Power2(-exponent) as real)
  }

  /** The mantissas and exponents of a float64. */
  predicate Float64(mantissa: int, exponent: int) {
    -0x20_0000_0000_0000 < mantissa < 0x20_0000_0000_0000 && -1074 <= exponent <= 971
  }

  /** A number that a float64 can hold. */
  ghost predicate IsFloat(n: Number) {
    n.Finite? ==> exists m, e :: n == Scaled(m, e) && Float64(m, e)
  }

  ghost predicate FloatTemperature(id: Identity) {
    id.temperature.Some? ==> IsFloat(id.temperature.value)
  }

  /** strconv.FormatFloat: distinct floats print differently, and none as the empty string. */
  ghost predicate Prints(format: Number -> string) {
    (forall a, b :: IsFloat(a) && IsFloat(b) && format(a) == format(b) ==> a == b) && forall a :: IsFloat(a) ==> format(a) != ""
  }

  /** One such way to print: a mantissa and an exponent in decimal. */
  ghost function Canonical(n: Number): string {
    match n
    case NotANumber => "NaN"
    case Infinite(negative) => if negative then "-Inf" else "Inf"
    case Finite(_) =>
      if IsFloat(n) then
        var m, e :| n == Scaled(m, e) && Float64(m, e);
        FormatInt(m) + ("e" + FormatInt(e))
      else ""
  }

  /** The characters FormatInt writes. */
  predicate Numeral(s: string) {
    forall i :: 0 <= i < |s| ==> s[i] == '-' || IsDigit(s[i])
  }

  lemma FormatIntIsNumeral(n: int)
    ensures Numeral(FormatInt(n)) && FormatInt(n) != ""
  {
    DecimalReads(if n < 0 then -n else n);
    hide Decimal, ValueOf;
  }

  lemma NumeralsSplit(a: string, b: string, s: string, t: string)
    requires Numeral(a) && Numeral(b) && a + ("e" + s) == b + ("e" + t)
    ensures a == b && s == t
  {
    var u, v := a + ("e" + s), b + ("e" + t);
    assert u[|a|] == 'e' && v[|b|] == 'e';
    assert forall i :: 0 <= i < |a| ==> u[i] == a[i];
    assert forall i :: 0 <= i < |b| ==> v[i] == b[i];
    assert |a| == |b|;
    assert a == u[..|a|] && b == v[..|b|] && s == u[|a| + 1..] && t == v[|b| + 1..];
  }

  lemma CanonicalFinite(n: Number) returns (m: int, e: int)
    requires n.Finite? && IsFloat(n)
    ensures n == Scaled(m, e) && Canonical(n) == FormatInt(m) + ("e" + FormatInt(e))
    ensures Canonical(n) != "" && (Canonical(n)[0] == '-' || IsDigit(Canonical(n)[0])) && 'e' in Canonical(n)
  {
    hide FormatInt, Scaled;
    m, e :| n == Scaled(m, e) && Float64(m, e) && Canonical(n) == FormatInt(m) + ("e" + FormatInt(e));
    FormatIntIsNumeral(m);
    var s := Canonical(n);
    assert s[0] == FormatInt(m)[0] && s[|FormatInt(m)|] == 'e';
  }

  lemma CanonicalOthers(n: Number)
    requires !n.Finite?
    ensures 'e' !in Canonical(n) && Canonical(n) != ""
    ensures forall m: Number :: !m.Finite? && Canonical(m) == Canonical(n) ==> m == n
  {
  }

  lemma CanonicalReads(a: Number, b: Number)
    requires IsFloat(a) && IsFloat(b) && Canonical(a) == Canonical(b)
    ensures a == b
  {
    hide Canonical, IsFloat, FormatInt;
    if !a.Finite? { CanonicalOthers(a); }
    if !b.Finite? { CanonicalOthers(b); }
    if a.Finite? && b.Finite? {
      var m, e := CanonicalFinite(a);
      var m', e' := CanonicalFinite(b);
      FormatIntIsNumeral(m);
      FormatIntIsNumeral(m');
      NumeralsSplit(FormatInt(m), FormatInt(m'), FormatInt(e), FormatInt(e'));
      FormatIntReads(m, m');
      FormatIntReads(e, e');
    } else if a.Finite? {
      var m, e := CanonicalFinite(a);
    } else if b.Finite? {
      var m, e := CanonicalFinite(b);
    }
  }

  /** Floats can be printed so: what the key's encoding asks of FormatFloat can be met. */
  lemma FloatsCanBePrinted()
    ensures exists format :: Prints(format)
  {
    hide IsFloat, Canonical;
    var format := n => Canonical(n);
    forall a, b | IsFloat(a) && IsFloat(b) && format(a) == format(b) ensures a == b {
      CanonicalReads(a, b);
    }
    forall a | IsFloat(a) ensures format(a) != "" {
      if a.Finite? { var m, e := CanonicalFinite(a); } else { CanonicalOthers(a); }
    }
    assert Prints(format);
  }

  const KeyVersion := "crosscodex.resultcache.v2"

  function KeyFields(analyzer: string, id: Identity, model: ModelIdentity, format: Number -> string): (r: seq<string>)
    ensures |r| == 11
  {
    [KeyVersion, analyzer, id.taskType, id.modelAlias, if id.temperature.None? then "" else format(id.temperature.value),
     FormatInt(id.maxTokens), FormatInt(id.sample), id.contentHash, model.observed, model.deployment, model.revision]
  }

  function AllBytes(fields: seq<string>): (r: seq<Bytes>)
    ensures |r| == |fields| && forall i :: 0 <= i < |fields| ==> r[i] == BytesOf(fields[i])
  {
    seq(|fields|, i requires 0 <= i < |fields| => BytesOf(fields[i]))
  }

  function EncodeKey(analyzer: string, id: Identity, model: ModelIdentity, format: Number -> string): Bytes {
    EncodeFields(AllBytes(KeyFields(analyzer, id, model, format)))
  }

  lemma FieldsEqual(fs: seq<string>, gs: seq<string>)
    requires |fs| == |gs| && EncodeFields(AllBytes(fs)) == EncodeFields(AllBytes(gs))
    requires forall i :: 0 <= i < |fs| ==> Short(BytesOf(fs[i])) && Short(BytesOf(gs[i]))
    ensures fs == gs
  {
    hide Short, EncodeFields;
    FieldsRead(AllBytes(fs), AllBytes(gs));
    forall i | 0 <= i < |fs| ensures fs[i] == gs[i] {
      assert AllBytes(fs)[i] == BytesOf(fs[i]) && AllBytes(gs)[i] == BytesOf(gs[i]);
      BytesRead(fs[i], gs[i]);
    }
  }

  /** The encoding that the cache key hashes determines the analyzer, the request's identity and the
      observed model: two different requests never encode alike. */
  lemma KeyIdentifies(analyzer: string, id: Identity, model: ModelIdentity,
                      analyzer': string, id': Identity, model': ModelIdentity, format: Number -> string)
    requires Prints(format) && FloatTemperature(id) && FloatTemperature(id')
    requires forall f :: f in KeyFields(analyzer, id, model, format) ==> Short(BytesOf(f))
    requires forall f :: f in KeyFields(analyzer', id', model', format) ==> Short(BytesOf(f))
    requires EncodeKey(analyzer, id, model, format) == EncodeKey(analyzer', id', model', format)
    ensures analyzer == analyzer' && id == id' && model == model'
  {
    hide Short, EncodeFields, FormatInt, IsFloat;
    var fs, gs := KeyFields(analyzer, id, model, format), KeyFields(analyzer', id', model', format);
    FieldsEqual(fs, gs);
    assert fs[1] == gs[1] && fs[2] == gs[2] && fs[3] == gs[3] && fs[4] == gs[4] && fs[5] == gs[5] && fs[6] == gs[6];
    assert fs[7] == gs[7] && fs[8] == gs[8] && fs[9] == gs[9] && fs[10] == gs[10];
    FormatIntReads(id.maxTokens, id'.maxTokens);
    FormatIntReads(id.sample, id'.sample);
  }
}
