/** The gate of `config set` and `config unset`: which edits of the user config reach the file, and what a
    sequence of edits can do to a configuration that loads or that is being repaired. */
module Repair {

  /** A setting with a problem, and the layer its value came from. */
  datatype Problem = Problem(path: string, source: string)

  /** An error a load can end with. */
  datatype Failure =
    | Field(problem: Problem)
    | Sentinel
    | Other
    | Wrap(inner: Failure)
    | Many(isJoin: bool, children: seq<Failure>)

  /** Every FieldError in the tree, in order. */
  function FieldErrors(f: Failure): seq<Problem> {
    match f
    case Field(p) => [p]
    case Sentinel => []
    case Other => []
    case Wrap(inner) => FieldErrors(inner)
    case Many(_, children) => FieldErrorsOf(children)
  }

  function FieldErrorsOf(fs: seq<Failure>): seq<Problem> {
    if fs == [] then [] else FieldErrors(fs[0]) + FieldErrorsOf(fs[1..])
  }

  /** The branches of a node that must end in a FieldError: all, but for a sentinel that a message wraps
      next to them. */
  function Branches(isJoin: bool, children: seq<Failure>): (r: seq<Failure>)
    ensures |r| <= |children|
    ensures forall c :: c in r <==> c in children && (isJoin || !c.Sentinel?)
  {
    if children == [] then []
    else if !isJoin && children[0].Sentinel? then Branches(isJoin, children[1..])
    else [children[0]] + Branches(isJoin, children[1..])
  }

  /** The error is made of FieldErrors alone. */
  predicate Complete(f: Failure) {
    match f
    case Field(_) => true
    case Sentinel => false
    case Other => false
    case Wrap(inner) => Complete(inner)
    case Many(isJoin, children) =>
      Branches(isJoin, children) != [] && forall c :: c in children && (isJoin || !c.Sentinel?) ==> Complete(c)
  }

  /** A complete error names at least one setting, so a broken configuration that can be compared has at
      least one problem. */
  lemma {:induction false} CompleteNames(f: Failure)
    requires Complete(f)
    ensures FieldErrors(f) != []
  {
    match f
    case Field(_) =>
    case Wrap(inner) => CompleteNames(inner);
    case Many(isJoin, children) =>
      var c := Branches(isJoin, children)[0];
      assert c in Branches(isJoin, children);
      CompleteNames(c);
      NamesOf(children, c);
  }

  lemma {:induction false} NamesOf(fs: seq<Failure>, c: Failure)
    requires c in fs && FieldErrors(c) != []
    ensures FieldErrorsOf(fs) != []
  {
    if fs[0] != c { NamesOf(fs[1..], c); }
  }

  datatype Option<T> = None | Some(value: T)

  // ---- branches of an error ----

  /** The error below f that a path of indices leads to. A sentinel that a message wraps next to other errors is no
      branch of it. */
  function Branch(f: Failure, path: seq<nat>): Option<Failure>
    decreases |path|
  {
    if path == [] then Some(f)
    else match f
      case Wrap(inner) => if path[0] == 0 then Branch(inner, path[1..]) else None
      case Many(isJoin, children) =>
        if path[0] < |children| && (isJoin || !children[path[0]].Sentinel?) then Branch(children[path[0]], path[1..]) else None
      case _ => None
  }

  /** No branch goes on from here. */
  predicate IsEnd(f: Failure) {
    match f
    case Wrap(_) => false
    case Many(isJoin, children) => forall i :: 0 <= i < |children| ==> !isJoin && children[i].Sentinel?
    case _ => true
  }

  ghost predicate EndsInFields(f: Failure) {
    forall path :: Branch(f, path).Some? && IsEnd(Branch(f, path).value) ==> Branch(f, path).value.Field?
  }

  lemma BranchStep(f: Failure, i: nat, path: seq<nat>)
    requires f.Wrap? ==> i == 0
    requires f.Many? ==> i < |f.children| && (f.isJoin || !f.children[i].Sentinel?)
    requires f.Wrap? || f.Many?
    ensures Branch(f, [i] + path) == Branch(if f.Wrap? then f.inner else f.children[i], path)
  {
    assert ([i] + path)[1..] == path;
  }

  /** An error is complete exactly when every branch of it ends in a FieldError. */
  lemma {:induction false} CompleteExactly(f: Failure)
    ensures Complete(f) <==> EndsInFields(f)
  {
    match f
    case Field(_) => NoBranches(f);
    case Sentinel => NoBranches(f);
    case Other => NoBranches(f);
    case Wrap(inner) =>
      CompleteExactly(inner);
      WrapEnds(f);
    case Many(isJoin, children) =>
      forall i | 0 <= i < |children| ensures Complete(children[i]) <==> EndsInFields(children[i]) { CompleteExactly(children[i]); }
      ManyEnds(f);
  }

  lemma NoBranches(f: Failure)
    requires !f.Wrap? && !f.Many?
    ensures EndsInFields(f) <==> f.Field?
  {
    assert Branch(f, []) == Some(f);
  }

  lemma WrapEnds(f: Failure)
    requires f.Wrap?
    ensures EndsInFields(f) <==> EndsInFields(f.inner)
  {
    if EndsInFields(f) {
      forall path | Branch(f.inner, path).Some? && IsEnd(Branch(f.inner, path).value) ensures Branch(f.inner, path).value.Field? {
        BranchStep(f, 0, path);
        assert Branch(f, [0] + path) == Branch(f.inner, path);
      }
    }
    if EndsInFields(f.inner) {
      forall path | Branch(f, path).Some? && IsEnd(Branch(f, path).value) ensures Branch(f, path).value.Field? {
        if path != [] { assert Branch(f, path) == Branch(f.inner, path[1..]); }
      }
    }
  }

  /** The branches that count. */
  predicate Counts(f: Failure, i: int)
    requires f.Many?
  {
    0 <= i < |f.children| && (f.isJoin || !f.children[i].Sentinel?)
  }

  lemma ManyEnds(f: Failure)
    requires f.Many? && forall i :: 0 <= i < |f.children| ==> (Complete(f.children[i]) <==> EndsInFields(f.children[i]))
    ensures Complete(f) <==> EndsInFields(f)
  {
    forall i: nat, path | Counts(f, i) && Branch(f.children[i], path).Some? ensures Branch(f, [i] + path) == Branch(f.children[i], path) {
      BranchStep(f, i, path);
    }
    assert Branch(f, []) == Some(f);
    CompleteMany(f);
    if EndsInFields(f) {
      assert !IsEnd(f);
      forall i | Counts(f, i) ensures EndsInFields(f.children[i]) {
        forall path | Branch(f.children[i], path).Some? && IsEnd(Branch(f.children[i], path).value)
          ensures Branch(f.children[i], path).value.Field?
        {
          assert Branch(f, [i] + path) == Branch(f.children[i], path);
        }
      }
    }
    if Complete(f) {
      forall path | Branch(f, path).Some? && IsEnd(Branch(f, path).value) ensures Branch(f, path).value.Field? {
        if path != [] { assert Counts(f, path[0]) && EndsInFields(f.children[path[0]]); }
      }
    }
  }

  lemma CompleteMany(f: Failure)
    requires f.Many?
    ensures Complete(f) <==> (exists i :: Counts(f, i)) && forall i :: Counts(f, i) ==> Complete(f.children[i])
  {
    SomeCounts(f);
    hide Branches;
    assert forall i :: Counts(f, i) ==> f.children[i] in f.children;
    if forall i :: Counts(f, i) ==> Complete(f.children[i]) {
      forall c | c in f.children && (f.isJoin || !c.Sentinel?) ensures Complete(c) {
        var i :| 0 <= i < |f.children| && f.children[i] == c;
        assert Counts(f, i);
      }
    }
  }

  lemma SomeCounts(f: Failure)
    requires f.Many?
    ensures Branches(f.isJoin, f.children) != [] <==> exists i :: Counts(f, i)
  {
    hide Complete;
    if i :| Counts(f, i) { assert f.children[i] in Branches(f.isJoin, f.children); }
    if Branches(f.isJoin, f.children) != [] {
      var c := Branches(f.isJoin, f.children)[0];
      assert c in Branches(f.isJoin, f.children);
      var i :| 0 <= i < |f.children| && f.children[i] == c;
      assert Counts(f, i);
    }
  }

  /** The problems listed are exactly the FieldErrors that branches end in. */
  lemma {:induction false} FieldErrorsAre(f: Failure, p: Problem)
    ensures p in FieldErrors(f) <==> exists path :: Branch(f, path) == Some(Field(p))
  {
    match f
    case Field(_) => assert Branch(f, []) == Some(f);
    case Sentinel =>
    case Other =>
    case Wrap(inner) =>
      FieldErrorsAre(inner, p);
      if path :| Branch(inner, path) == Some(Field(p)) { BranchStep(f, 0, path); }
    case Many(isJoin, children) =>
      forall c | c in children ensures p in FieldErrors(c) <==> exists path :: Branch(c, path) == Some(Field(p)) { FieldErrorsAre(c, p); }
      InFieldErrorsOf(children, p);
      if c :| c in children && Lists(c, p) {
        var i :| 0 <= i < |children| && children[i] == c;
        var path :| Branch(c, path) == Some(Field(p));
        BranchStep(f, i, path);
      }
      if path :| Branch(f, path) == Some(Field(p)) {
        assert children[path[0]] in children && Branch(children[path[0]], path[1..]) == Some(Field(p));
        assert Lists(children[path[0]], p);
      }
  }

  predicate Lists(f: Failure, p: Problem) {
    p in FieldErrors(f)
  }

  lemma {:induction false} InFieldErrorsOf(fs: seq<Failure>, p: Problem)
    ensures p in FieldErrorsOf(fs) <==> exists c :: c in fs && Lists(c, p)
  {
    if fs != [] {
      InFieldErrorsOf(fs[1..], p);
      assert forall c :: c in fs <==> c == fs[0] || c in fs[1..];
      assert p in FieldErrorsOf(fs) <==> Lists(fs[0], p) || p in FieldErrorsOf(fs[1..]);
      hide Lists, FieldErrorsOf;
    }
  }

  /** How the configuration loads with a given profile and user config, the other layers being fixed. */
  type Loader = (string, string) -> Option<Failure>

  const Defaults := "defaults"

  // ---- comparing the problems before and after ----

  function Paths(ps: seq<Problem>): (r: seq<string>)
    ensures |r| == |ps| && forall i :: 0 <= i < |ps| ==> r[i] == ps[i].path
  {
    seq(|ps|, i requires 0 <= i < |ps| => ps[i].path)
  }

  /** The settings with a problem, with multiplicity. */
  function Settings(ps: seq<Problem>): multiset<string> {
    multiset(Paths(ps))
  }

  lemma SettingsMore(ps: seq<Problem>, i: nat)
    requires i < |ps|
    ensures Settings(ps[..i + 1]) == Settings(ps[..i]) + multiset{ps[i].path}
  {
    assert Paths(ps[..i + 1]) == Paths(ps[..i]) + [ps[i].path];
  }

  function CountOf(count: map<string, nat>, p: string): nat {
    if p in count then count[p] else 0
  }

  method CountProblems(before: seq<Problem>) returns (count: map<string, nat>)
    ensures forall p :: CountOf(count, p) == Settings(before)[p]
  {
    hide Settings;
    count := map[];
    assert Settings(before[..0]) == multiset{} by { NoSettings(before); }
    for i := 0 to |before|
      invariant forall p :: CountOf(count, p) == Settings(before[..i])[p]
    {
      SettingsMore(before, i);
      var p := before[i].path;
      count := count[p := CountOf(count, p) + 1];
    }
    assert before[..|before|] == before;
  }

  lemma NoSettings(ps: seq<Problem>)
    ensures Settings(ps[..0]) == multiset{}
  {
    assert Paths(ps[..0]) == [];
  }

  /** compareProblems: counts the paths before, then takes each path after out of the counts. */
  method CompareProblems(before: seq<Problem>, after: seq<Problem>) returns (still: seq<string>, added: seq<string>)
    ensures multiset(still) + multiset(added) == Settings(after)
    ensures multiset(still) == Settings(before) * Settings(after)
    ensures added == [] <==> Settings(after) <= Settings(before)
  {
    hide Settings, Midway, CountOf;
    var count: map<string, nat> := CountProblems(before);
    still, added := [], [];
    assert Midway(count, Settings(before), Settings(after[..0]), still, added) by {
      NoSettings(after);
      assert Midway(count, Settings(before), multiset{}, [], []) by { AtStart(count, Settings(before)); }
    }
    for i := 0 to |after|
      invariant Midway(count, Settings(before), Settings(after[..i]), still, added)
    {
      SettingsMore(after, i);
      var p := after[i].path;
      if CountOf(count, p) > 0 {
        Matched(count, Settings(before), Settings(after[..i]), still, added, p);
        count := count[p := CountOf(count, p) - 1];
        still := still + [p];
      } else {
        Unmatched(count, Settings(before), Settings(after[..i]), still, added, p);
        added := added + [p];
      }
    }
    assert after[..|after|] == after;
    Compared(count, Settings(before), Settings(after), still, added);
  }

  /** The counts left, the paths matched and the paths added, part of the way through. */
  ghost predicate Midway(count: map<string, nat>, before: multiset<string>, seen: multiset<string>, still: seq<string>,
                         added: seq<string>) {
    && (forall p :: CountOf(count, p) + multiset(still)[p] == before[p])
    && (forall p :: multiset(still)[p] + multiset(added)[p] == seen[p])
    && (forall p :: multiset(added)[p] > 0 ==> multiset(still)[p] == before[p])
  }

  lemma AtStart(count: map<string, nat>, before: multiset<string>)
    requires forall p :: CountOf(count, p) == before[p]
    ensures Midway(count, before, multiset{}, [], [])
  {
  }

  lemma Matched(count: map<string, nat>, before: multiset<string>, seen: multiset<string>, still: seq<string>, added: seq<string>,
                p: string)
    requires Midway(count, before, seen, still, added) && CountOf(count, p) > 0
    ensures Midway(count[p := CountOf(count, p) - 1], before, seen + multiset{p}, still + [p], added)
  {
    assert multiset(still + [p]) == multiset(still) + multiset{p};
  }

  lemma Unmatched(count: map<string, nat>, before: multiset<string>, seen: multiset<string>, still: seq<string>, added: seq<string>,
                  p: string)
    requires Midway(count, before, seen, still, added) && CountOf(count, p) == 0
    ensures Midway(count, before, seen + multiset{p}, still, added + [p])
  {
    assert multiset(added + [p]) == multiset(added) + multiset{p};
  }

  /** What the counts mean once every path after is taken out of them. */
  lemma Compared(count: map<string, nat>, before: multiset<string>, after: multiset<string>, still: seq<string>, added: seq<string>)
    requires Midway(count, before, after, still, added)
    ensures multiset(still) + multiset(added) == after
    ensures multiset(still) == before * after
    ensures added == [] <==> after <= before
  {
    if added != [] {
      assert multiset(added)[added[0]] > 0;
      assert after[added[0]] > before[added[0]];
    }
  }

  // ---- the gate ----

  datatype Verdict = Write(remaining: Option<Failure>) | Refuse

  /** Some problem's value was set by a layer other than the user config. */
  predicate OtherLayer(ps: seq<Problem>, userPath: string) {
    exists i :: 0 <= i < |ps| && ps[i].source != userPath && ps[i].source != Defaults && ps[i].source != ""
  }

  /** A strict repair: the problems after are a strict sub-multiset of those before. */
  predicate StrictRepair(userPath: string, current: Failure, candidate: Failure) {
    && Complete(current) && Complete(candidate)
    && !OtherLayer(FieldErrors(current), userPath)
    && Settings(FieldErrors(candidate)) < Settings(FieldErrors(current))
  }

  /** What the gate decides about replacing the user config `current` by `candidate`. */
  function Judge(load: Loader, userPath: string, profile: string, current: string, candidate: string): Verdict {
    var after := load(profile, candidate);
    var before := load(profile, current);
    if after.None? then Write(None)
    else if before.None? then Refuse
    else if StrictRepair(userPath, before.value, after.value) then Write(after)
    else Refuse
  }

  lemma {:induction false} Larger(a: multiset<string>, b: multiset<string>)
    requires a <= b
    ensures |a| <= |b| && (|a| == |b| ==> a == b)
    decreases |a|
  {
    if a != multiset{} {
      var p :| p in a;
      Larger(a - multiset{p}, b - multiset{p});
      assert a == (a - multiset{p}) + multiset{p} && b == (b - multiset{p}) + multiset{p};
    }
  }

  /** No problem added and fewer of them is the same as a strict sub-multiset. */
  lemma FewerIsStrict(before: seq<Problem>, after: seq<Problem>)
    ensures Settings(after) <= Settings(before) && |after| < |before| <==> Settings(after) < Settings(before)
  {
    assert |Settings(before)| == |before| && |Settings(after)| == |after|;
    if Settings(after) <= Settings(before) { Larger(Settings(after), Settings(before)); }
  }

  /** Which edits the gate lets through. An edit that makes the configuration load; or, when it loads neither before nor
      after, one that leaves a strict sub-multiset of the problems, all of them FieldErrors before and after, none of which
      another layer set before. */
  lemma JudgeExactly(load: Loader, userPath: string, profile: string, current: string, candidate: string)
    ensures Judge(load, userPath, profile, current, candidate).Write? <==>
      || load(profile, candidate).None?
      || (load(profile, current).Some? && load(profile, candidate).Some? &&
          var before, after := load(profile, current).value, load(profile, candidate).value;
          && EndsInFields(before) && EndsInFields(after)
          && (forall p :: p in FieldErrors(before) ==> p.source in {userPath, "defaults", ""})
          && Settings(FieldErrors(after)) < Settings(FieldErrors(before)))
  {
    hide EndsInFields, Complete, FieldErrors, Settings;
    if load(profile, current).Some? && load(profile, candidate).Some? {
      var before, after := load(profile, current).value, load(profile, candidate).value;
      CompleteExactly(before);
      CompleteExactly(after);
      var ps := FieldErrors(before);
      assert OtherLayer(ps, userPath) <==> exists p :: p in ps && p.source !in {userPath, "defaults", ""};
    }
  }

  /** checkEdit and judgeRepair, in the order the code asks its questions. */
  method CheckEdit(load: Loader, userPath: string, profile: string, current: string, candidate: string)
    returns (verdict: Verdict)
    ensures verdict == Judge(load, userPath, profile, current, candidate)
    ensures verdict.Write? ==> verdict.remaining == load(profile, candidate)
    ensures verdict.Write? <==>
      || load(profile, candidate).None?
      || (load(profile, current).Some? && load(profile, candidate).Some? &&
          var before, after := load(profile, current).value, load(profile, candidate).value;
          && EndsInFields(before) && EndsInFields(after)
          && (forall p :: p in FieldErrors(before) ==> p.source in {userPath, "defaults", ""})
          && Settings(FieldErrors(after)) < Settings(FieldErrors(before)))
  {
    JudgeExactly(load, userPath, profile, current, candidate);
    hide EndsInFields;
    var candidateErr := load(profile, candidate);
    if candidateErr.None? { return Write(None); }
    var currentErr := load(profile, current);
    if currentErr.None? { return Refuse; }
    if Complete(currentErr.value) {
      if OtherLayer(FieldErrors(currentErr.value), userPath) { return Refuse; }
    } else {
      var othersErr := load(profile, "");
      if othersErr.Some? { return Refuse; }
    }
    if !Complete(currentErr.value) || !Complete(candidateErr.value) { return Refuse; }
    var before, after := FieldErrors(currentErr.value), FieldErrors(candidateErr.value);
    var still, added := CompareProblems(before, after);
    FewerIsStrict(before, after);
    return if added == [] && |after| < |before| then Write(candidateErr) else Refuse;
  }

  // ---- runs of edits ----

  /** One edit of the file: the candidate is written when the gate allows it. */
  function After(load: Loader, userPath: string, profile: string, content: string, candidate: string): string {
    if Judge(load, userPath, profile, content, candidate).Write? then candidate else content
  }

  /** The file after each of a sequence of edits, all made with one profile. */
  function Contents(load: Loader, userPath: string, profile: string, content: string, edits: seq<string>): (r: seq<string>)
    ensures |r| == |edits| + 1 && r[0] == content
    decreases |edits|
  {
    if edits == [] then [content]
    else [content] + Contents(load, userPath, profile, After(load, userPath, profile, content, edits[0]), edits[1..])
  }

  /** The edit was written and the configuration still does not load. */
  predicate Partial(load: Loader, userPath: string, profile: string, content: string, candidate: string) {
    var v := Judge(load, userPath, profile, content, candidate);
    v.Write? && v.remaining.Some?
  }

  function Partials(load: Loader, userPath: string, profile: string, content: string, edits: seq<string>): nat
    decreases |edits|
  {
    if edits == [] then 0
    else (if Partial(load, userPath, profile, content, edits[0]) then 1 else 0) +
         Partials(load, userPath, profile, After(load, userPath, profile, content, edits[0]), edits[1..])
  }

  /** How many partial repairs a content admits at most: one less than its problems, if they can be compared. */
  function Budget(load: Loader, profile: string, content: string): nat {
    var f := load(profile, content);
    if f.Some? && Complete(f.value) && FieldErrors(f.value) != [] then |FieldErrors(f.value)| - 1 else 0
  }

  /** A configuration that loads never stops loading. */
  lemma {:induction false} LoadsForever(load: Loader, userPath: string, profile: string, content: string, edits: seq<string>,
                                        i: nat, j: nat)
    requires i <= j <= |edits|
    requires load(profile, Contents(load, userPath, profile, content, edits)[i]).None?
    ensures load(profile, Contents(load, userPath, profile, content, edits)[j]).None?
    decreases |edits|
  {
    if j > 0 {
      var next := After(load, userPath, profile, content, edits[0]);
      var rest := Contents(load, userPath, profile, next, edits[1..]);
      assert forall k :: 0 < k <= |edits| ==> Contents(load, userPath, profile, content, edits)[k] == rest[k - 1];
      LoadsForever(load, userPath, profile, next, edits[1..], if i == 0 then 0 else i - 1, j - 1);
    }
  }

  /** Every write that leaves the configuration broken makes its problems a strict sub-multiset. */
  lemma {:induction false} RepairsShrink(load: Loader, userPath: string, profile: string, content: string, edits: seq<string>,
                                         i: nat)
    requires i < |edits|
    requires Partial(load, userPath, profile, Contents(load, userPath, profile, content, edits)[i], edits[i])
    ensures var cs := Contents(load, userPath, profile, content, edits);
      var before, after := load(profile, cs[i]), load(profile, cs[i + 1]);
      before.Some? && after.Some? && Settings(FieldErrors(after.value)) < Settings(FieldErrors(before.value))
    decreases |edits|
  {
    var next := After(load, userPath, profile, content, edits[0]);
    var rest := Contents(load, userPath, profile, next, edits[1..]);
    if i > 0 {
      RepairsShrink(load, userPath, profile, next, edits[1..], i - 1);
    }
  }

  lemma PartialSpends(load: Loader, userPath: string, profile: string, content: string, candidate: string)
    ensures Partial(load, userPath, profile, content, candidate) ==> Budget(load, profile, candidate) < Budget(load, profile, content)
    ensures Budget(load, profile, After(load, userPath, profile, content, candidate)) <= Budget(load, profile, content)
  {
    if Partial(load, userPath, profile, content, candidate) {
      var before, after := load(profile, content).value, load(profile, candidate).value;
      FewerIsStrict(FieldErrors(before), FieldErrors(after));
      CompleteNames(after);
    }
  }

  /** However long the sequence of edits, the problems at its start bound the partial repairs in it: each
      removes at least one, and the last problem goes only with an edit that makes the configuration load. */
  lemma {:induction false} RepairsAreBounded(load: Loader, userPath: string, profile: string, content: string, edits: seq<string>)
    ensures Partials(load, userPath, profile, content, edits) <= Budget(load, profile, content)
    decreases |edits|
  {
    if edits != [] {
      PartialSpends(load, userPath, profile, content, edits[0]);
      RepairsAreBounded(load, userPath, profile, After(load, userPath, profile, content, edits[0]), edits[1..]);
    }
  }

  // ---- edits under different profiles ----

  datatype ProfiledEdit = ProfiledEdit(profile: string, candidate: string)

  /** The file after a sequence of edits, each checked with its own profile. */
  function FinalContent(load: Loader, userPath: string, content: string, edits: seq<ProfiledEdit>): string
    decreases |edits|
  {
    if edits == [] then content
    else FinalContent(load, userPath, After(load, userPath, edits[0].profile, content, edits[0].candidate), edits[1..])
  }

  function EditsWith(profiles: seq<string>, candidates: seq<string>): (r: seq<ProfiledEdit>)
    requires |profiles| == |candidates|
    ensures |r| == |profiles| && forall i :: 0 <= i < |r| ==> r[i] == ProfiledEdit(profiles[i], candidates[i])
  {
    seq(|profiles|, i requires 0 <= i < |profiles| => ProfiledEdit(profiles[i], candidates[i]))
  }

  /** Whatever the loader, the file and the candidates, edits checked with these profiles never stop `q` loading. */
  ghost predicate KeepLoading(profiles: seq<string>, q: string) {
    forall load: Loader, userPath: string, content: string, candidates: seq<string> ::
      |candidates| == |profiles| && load(q, content).None? ==>
        load(q, FinalContent(load, userPath, content, EditsWith(profiles, candidates))).None?
  }

  lemma {:induction false} SameProfileKeeps(load: Loader, userPath: string, content: string, q: string, edits: seq<ProfiledEdit>)
    requires load(q, content).None? && forall i :: 0 <= i < |edits| ==> edits[i].profile == q
    ensures load(q, FinalContent(load, userPath, content, edits)).None?
    decreases |edits|
  {
    if edits != [] {
      assert edits[0].profile == q;
      SameProfileKeeps(load, userPath, After(load, userPath, q, content, edits[0].candidate), q, edits[1..]);
    }
  }

  /** A loader for which the file "old" loads with `q` and with no other profile, and any other file with every
      profile but `q`. */
  function Opposite(q: string): Loader {
    (profile: string, content: string) => if (profile == q) == (content == "old") then None else Some(Other)
  }

  /** Edits that leave "old" alone up to one checked with another profile, which loads "new". */
  lemma {:induction false} OtherProfileBreaks(q: string, edits: seq<ProfiledEdit>, k: nat)
    requires k < |edits| && edits[k] == ProfiledEdit(edits[k].profile, "new") && edits[k].profile != q
    requires forall i :: 0 <= i < |edits| && i != k ==> edits[i].candidate == (if i < k then "old" else "new")
    ensures FinalContent(Opposite(q), "", "old", edits) == "new"
    decreases k
  {
    var next := After(Opposite(q), "", edits[0].profile, "old", edits[0].candidate);
    if k > 0 {
      OtherProfileBreaks(q, edits[1..], k - 1);
    } else {
      StaysNew(Opposite(q), edits[1..]);
    }
  }

  lemma {:induction false} StaysNew(load: Loader, edits: seq<ProfiledEdit>)
    requires forall i :: 0 <= i < |edits| ==> edits[i].candidate == "new"
    ensures FinalContent(load, "", "new", edits) == "new"
    decreases |edits|
  {
    if edits != [] { StaysNew(load, edits[1..]); }
  }

  /** The check covers the profile it is made with and no other: over a sequence of edits, each made with a
      profile of its own, a profile that loads is sure to go on loading exactly when every edit is made with it. */
  lemma ProfileKeepsExactly(profiles: seq<string>, q: string)
    ensures KeepLoading(profiles, q) <==> forall i :: 0 <= i < |profiles| ==> profiles[i] == q
  {
    hide FinalContent;
    if forall i :: 0 <= i < |profiles| ==> profiles[i] == q {
      forall load: Loader, userPath: string, content: string, candidates: seq<string>
        | |candidates| == |profiles| && load(q, content).None?
        ensures load(q, FinalContent(load, userPath, content, EditsWith(profiles, candidates))).None?
      {
        SameProfileKeeps(load, userPath, content, q, EditsWith(profiles, candidates));
      }
    } else {
      var k :| 0 <= k < |profiles| && profiles[k] != q;
      var candidates := seq(|profiles|, i => if i < k then "old" else "new");
      OtherProfileBreaks(q, EditsWith(profiles, candidates), k);
      var load := Opposite(q);
      assert load(q, "old").None? && load(q, "new").Some?;
    }
  }

  /** The user config breaks profile "b" twice at first and once after the edit, which breaks profile "a". */
  function TwoProfiles(profile: string, content: string): Option<Failure> {
    var p, q := Field(Problem("p", "")), Field(Problem("q", ""));
    if profile == "b" then Some(if content == "old" then Many(true, [p, q]) else p)
    else if content == "old" then None
    else Some(q)
  }

  lemma TwoThenOne()
    ensures var p, q := Field(Problem("p", "")), Field(Problem("q", "")); StrictRepair("user", Many(true, [p, q]), p)
  {
    var p, q := Field(Problem("p", "")), Field(Problem("q", ""));
    assert FieldErrorsOf([p, q]) == [p.problem, q.problem] by {
      assert [p, q][1..] == [q] && [q][1..] == [];
      assert FieldErrorsOf([q]) == [q.problem];
    }
    assert Paths(FieldErrors(Many(true, [p, q]))) == ["p", "q"] && Paths(FieldErrors(p)) == ["p"];
    assert Branches(true, [p, q])[0] == p;
    assert Settings(FieldErrors(Many(true, [p, q]))) == multiset{"p", "q"} && Settings(FieldErrors(p)) == multiset{"p"};
    assert "q" in multiset{"p", "q"} && "q" !in multiset{"p"};
  }

  /** A partial repair made with one profile can break another that loaded. */
  lemma AnotherProfileCanBreak()
    ensures TwoProfiles("a", "old").None?
    ensures After(TwoProfiles, "user", "b", "old", "new") == "new" && TwoProfiles("a", "new").Some?
  {
    hide StrictRepair;
    TwoThenOne();
  }
}
