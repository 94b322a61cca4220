/** The file as the configuration's reader sees it: aliases followed and merge keys resolved, a mapping's own
    keys before the merged ones. An accepted edit keeps what every path that parts from the edited one reads,
    except where a section it creates hides an inherited one or writes a merge key of its own. */
module YamlMerge {
  import opened YamlTree
  import opened YamlEdit
  import opened YamlAlias
  import opened YamlSafety

  // ---- the reader ----

  /** No value contains itself, through children or aliases: what decoding a file demands. */
  ghost predicate Deep(h: Heap, deep: map<NodeId, nat>) {
    && deep.Keys == h.Keys
    && (forall p, c :: IsChild(h, p, c) ==> c in h && deep[c] < deep[p])
    && (forall a :: a in h && h[a].Alias? ==> h[a].target in h && deep[h[a].target] < deep[a])
  }

  lemma DeepBelow(h: Heap, deep: map<NodeId, nat>, x: NodeId)
    requires Deep(h, deep) && x in h
    ensures deep.Keys == h.Keys
    ensures h[x].Alias? ==> h[x].target in h && deep[h[x].target] < deep[x]
    ensures h[x].Mapping? ==> forall i :: 0 <= i < |h[x].content| ==>
      h[x].content[i].value in h && deep[h[x].content[i].value] < deep[x]
    ensures h[x].Sequence? ==> forall i :: 0 <= i < |h[x].items| ==> h[x].items[i] in h && deep[h[x].items[i]] < deep[x]
  {
    hide IsChild;
    if h[x].Mapping? {
      forall i | 0 <= i < |h[x].content| ensures h[x].content[i].value in h && deep[h[x].content[i].value] < deep[x] {
        EntryIsChild(h, x, i);
      }
    }
    if h[x].Sequence? {
      forall i | 0 <= i < |h[x].items| ensures h[x].items[i] in h && deep[h[x].items[i]] < deep[x] {
        ItemIsChild(h, x, i);
      }
    }
  }

  /** The value a mapping has under a name: its own, or else that of the first merge source that has one.
      A merge source is a mapping, an alias to a source, or a list of sources. */
  function Merged(h: Heap, deep: map<NodeId, nat>, x: NodeId, name: string, source: bool): (r: Option<NodeId>)
    requires Deep(h, deep) && x in h
    ensures r.Some? ==> r.value in h
    decreases deep[x], 1, 0
  {
    DeepBelow(h, deep, x);
    match h[x]
    case Alias(target, _) => Merged(h, deep, target, name, source)
    case Scalar(_, _, _) => None
    case Mapping(content, _) =>
      var i := FindFrom(h, content, name, 0);
      if i >= 0 then Some(content[i].value)
      else
        var m := FindFrom(h, content, "<<", 0);
        if m < 0 then None else Merged(h, deep, content[m].value, name, true)
    case Sequence(_, _) => if source then FirstMerged(h, deep, x, 0, name) else None
  }

  function FirstMerged(h: Heap, deep: map<NodeId, nat>, x: NodeId, j: nat, name: string): (r: Option<NodeId>)
    requires Deep(h, deep) && x in h && h[x].Sequence? && j <= |h[x].items|
    ensures r.Some? ==> r.value in h
    decreases deep[x], 0, |h[x].items| - j
  {
    DeepBelow(h, deep, x);
    if j == |h[x].items| then None
    else
      var r := Merged(h, deep, h[x].items[j], name, true);
      if r.Some? then r else FirstMerged(h, deep, x, j + 1, name)
  }

  /** One step of a path as the reader takes it. A merge key is no key to it. */
  function ChildOf(h: Heap, deep: map<NodeId, nat>, x: NodeId, step: Step): (r: Option<NodeId>)
    requires Deep(h, deep) && x in h
    ensures r.Some? ==> r.value in h
  {
    DeepBelow(h, deep, x);
    DeepBelow(h, deep, Deref(h, x));
    match step
    case Key(name) => if name == "<<" then None else Merged(h, deep, x, name, false)
    case Index(i) =>
      var y := Deref(h, x);
      if h[y].Sequence? && i < |h[y].items| then Some(h[y].items[i]) else None
  }

  function ReadAt(h: Heap, deep: map<NodeId, nat>, x: NodeId, steps: seq<Step>): (r: Option<NodeId>)
    requires Deep(h, deep) && x in h
    ensures r.Some? ==> r.value in h
    decreases |steps|
  {
    if steps == [] then Some(x)
    else match ChildOf(h, deep, x, steps[0])
      case None => None
      case Some(c) => ReadAt(h, deep, c, steps[1..])
  }

  // ---- outside the touched part ----

  lemma {:induction false} MergedInside(h: Heap, deep: map<NodeId, nat>, h': Heap, deep': map<NodeId, nat>, s: set<NodeId>,
                                        x: NodeId, name: string, source: bool)
    requires Deep(h, deep) && Deep(h', deep') && Closed(h, s) && Agree(h, h', s) && x in s
    ensures Merged(h', deep', x, name, source) == Merged(h, deep, x, name, source)
    ensures Merged(h, deep, x, name, source).Some? ==> Merged(h, deep, x, name, source).value in s
    decreases deep[x], 1, 0
  {
    hide IsChild, FindFrom, Deep;
    DeepBelow(h, deep, x);
    match h[x]
    case Alias(target, _) => MergedInside(h, deep, h', deep', s, target, name, source);
    case Scalar(_, _, _) =>
    case Mapping(content, _) =>
      InsideEntries(h, h', s, x, name);
      InsideEntries(h, h', s, x, "<<");
      var m := FindFrom(h, content, "<<", 0);
      if m >= 0 { MergedInside(h, deep, h', deep', s, content[m].value, name, true); }
    case Sequence(_, _) => if source { FirstInside(h, deep, h', deep', s, x, 0, name); }
  }

  lemma InsideEntries(h: Heap, h': Heap, s: set<NodeId>, x: NodeId, name: string)
    requires Closed(h, s) && Agree(h, h', s) && x in s && h[x].Mapping?
    ensures FindFrom(h', h[x].content, name, 0) == FindFrom(h, h[x].content, name, 0)
    ensures forall j :: 0 <= j < |h[x].content| ==> h[x].content[j].value in s
  {
    hide IsChild, FindFrom;
    var content := h[x].content;
    forall j | 0 <= j < |content| ensures content[j].key in s && content[j].value in s {
      EntryIsChild(h, x, j);
    }
    FindSame(h, h', content, name);
  }

  lemma {:induction false} FirstInside(h: Heap, deep: map<NodeId, nat>, h': Heap, deep': map<NodeId, nat>, s: set<NodeId>,
                                       x: NodeId, j: nat, name: string)
    requires Deep(h, deep) && Deep(h', deep') && Closed(h, s) && Agree(h, h', s) && x in s && h[x].Sequence? && j <= |h[x].items|
    ensures FirstMerged(h', deep', x, j, name) == FirstMerged(h, deep, x, j, name)
    ensures FirstMerged(h, deep, x, j, name).Some? ==> FirstMerged(h, deep, x, j, name).value in s
    decreases deep[x], 0, |h[x].items| - j
  {
    hide IsChild, Deep;
    DeepBelow(h, deep, x);
    if j < |h[x].items| {
      ItemIsChild(h, x, j);
      MergedInside(h, deep, h', deep', s, h[x].items[j], name, true);
      FirstInside(h, deep, h', deep', s, x, j + 1, name);
    }
  }

  lemma StepInside(h: Heap, deep: map<NodeId, nat>, h': Heap, deep': map<NodeId, nat>, s: set<NodeId>, x: NodeId, step: Step)
    requires Deep(h, deep) && Deep(h', deep') && Closed(h, s) && Agree(h, h', s) && x in s
    ensures ChildOf(h', deep', x, step) == ChildOf(h, deep, x, step)
    ensures ChildOf(h, deep, x, step).Some? ==> ChildOf(h, deep, x, step).value in s
  {
    hide IsChild, Deep, Merged;
    match step
    case Key(name) => MergedInside(h, deep, h', deep', s, x, name, false);
    case Index(i) =>
      var y := Deref(h, x);
      if h[y].Sequence? && i < |h[y].items| { ItemIsChild(h, y, i); }
  }

  lemma {:induction false} ReadInside(h: Heap, deep: map<NodeId, nat>, h': Heap, deep': map<NodeId, nat>, s: set<NodeId>,
                                      x: NodeId, steps: seq<Step>)
    requires Deep(h, deep) && Deep(h', deep') && Closed(h, s) && Agree(h, h', s) && x in s
    ensures ReadAt(h', deep', x, steps) == ReadAt(h, deep, x, steps)
    ensures ReadAt(h, deep, x, steps).Some? ==> ReadAt(h, deep, x, steps).value in s
    decreases |steps|
  {
    hide ChildOf, Closed, Deep;
    if steps != [] {
      StepInside(h, deep, h', deep', s, x, steps[0]);
      var c := ChildOf(h, deep, x, steps[0]);
      if c.Some? { ReadInside(h, deep, h', deep', s, c.value, steps[1..]); }
    }
  }

  // ---- the sections a set creates ----

  /** A chain of new sections along `path`, ending in a scalar. */
  ghost predicate Filled(before: Heap, h: Heap, id: NodeId, path: seq<string>)
    decreases |path|
  {
    path != [] && id in h && id !in before && h[id].Mapping? && |h[id].content| == 1 &&
    var e := h[id].content[0];
    && Named(h, e.key, path[0]) && e.value in h && e.value !in before
    && (if |path| == 1 then h[e.value].Scalar? else Filled(before, h, e.value, path[1..]))
  }

  lemma KeyFills(before: Heap, h: Heap, next: nat, id: NodeId, path: seq<string>, edit: Edit)
    requires id in h && h[id].Mapping? && h[id].content == [] && |path| == 1 && Unused(h, next) && edit.SetTo?
    requires id !in before && before.Keys <= h.Keys && KeyIndex(h, [], path[0]) < 0
    ensures EditAt(h, next, id, path, edit).Edited? && Filled(before, EditAt(h, next, id, path, edit).h, id, path)
  {
    hide KeyIndex, EditAt;
    var e := Entry(next, next + 1);
    assert h[id].content + [e] == [e];
    EditsNewKey(h, next, id, path, edit);
    KeyIsFilled(before, EditAt(h, next, id, path, edit).h, id, path, e);
  }

  lemma EditsNewKey(h: Heap, next: nat, id: NodeId, path: seq<string>, edit: Edit)
    requires id in h && h[id].Mapping? && |path| == 1 && edit.SetTo? && KeyIndex(h, h[id].content, path[0]) < 0
    ensures var h' := Put(h, id, h[id].content + [Entry(next, next + 1)])[next := NewScalar(path[0], "")][next + 1 := NewScalar(edit.value, "")];
      EditAt(h, next, id, path, edit) == Edited(h', next + 2)
  {
    hide KeyIndex;
  }

  lemma KeyIsFilled(before: Heap, h: Heap, id: NodeId, path: seq<string>, e: Entry)
    requires |path| == 1 && id in h && id !in before && h[id].Mapping? && h[id].content == [e]
    requires Named(h, e.key, path[0]) && e.value in h && e.value !in before && h[e.value].Scalar?
    ensures Filled(before, h, id, path)
  {
  }

  lemma {:induction false} EditFills(before: Heap, h: Heap, next: nat, id: NodeId, path: seq<string>, edit: Edit)
    requires id in h && h[id].Mapping? && h[id].content == [] && path != [] && Unused(h, next) && edit.SetTo?
    requires id !in before && before.Keys <= h.Keys
    ensures EditAt(h, next, id, path, edit).Edited? && Filled(before, EditAt(h, next, id, path, edit).h, id, path)
    decreases |path|
  {
    hide OnlyNew, EditAt, KeyIndex;
    EmptyHasNoKey(h, path[0]);
    var r := EditAt(h, next, id, path, edit);
    var e := Entry(next, next + 1);
    assert h[id].content + [e] == [e];
    if |path| == 1 {
      KeyFills(before, h, next, id, path, edit);
    } else {
      var h2 := Put(h, id, [e])[next := NewScalar(path[0], "")][next + 1 := Mapping([], "")];
      CreatesSection(h, next, id, path, edit);
      FillsNewSection(h2, next + 2, next + 1, path[1..], edit);
      EditFills(before, h2, next + 2, next + 1, path[1..], edit);
      assert r.h[id] == h2[id] && r.h[next] == h2[next];
    }
  }

  /** The first key of a path that is no merge key. */
  function FirstPlain(path: seq<string>): Option<string> {
    if path == [] then None else if path[0] != "<<" then Some(path[0]) else FirstPlain(path[1..])
  }

  /** A merge key stands somewhere before another key. */
  predicate PlainAfterMerge(path: seq<string>) {
    path != [] && (if path[0] == "<<" then FirstPlain(path[1..]).Some? else PlainAfterMerge(path[1..]))
  }

  /** A new section has one name: the first key of its path that is no merge key. */
  lemma {:induction false} FilledHas(before: Heap, h: Heap, deep: map<NodeId, nat>, id: NodeId, path: seq<string>, name: string,
                                     source: bool)
    requires Deep(h, deep) && Filled(before, h, id, path) && name != "<<"
    ensures var r := Merged(h, deep, id, name, source);
      && r.Some? == (FirstPlain(path) == Some(name)) && (r.Some? ==> r.value !in before)
      && (path[0] == name ==> r == Some(h[id].content[0].value))
    decreases |path|
  {
    hide Deep;
    DeepBelow(h, deep, id);
    var e := h[id].content[0];
    if path[0] == "<<" {
      if |path| == 1 {
        assert path[1..] == [];
      } else {
        FilledHas(before, h, deep, e.value, path[1..], name, true);
      }
    }
  }

  lemma FilledSteps(before: Heap, h: Heap, deep: map<NodeId, nat>, id: NodeId, path: seq<string>, step: Step)
    requires Deep(h, deep) && Filled(before, h, id, path)
    ensures var r := ChildOf(h, deep, id, step);
      && r.Some? == (step.Key? && step.name != "<<" && FirstPlain(path) == Some(step.name)) && (r.Some? ==> r.value !in before)
      && (step == Key(path[0]) && path[0] != "<<" ==> r == Some(h[id].content[0].value))
  {
    hide Deep, Merged, FirstPlain;
    if step.Key? && step.name != "<<" { FilledHas(before, h, deep, id, path, step.name, false); }
  }

  /** A path that parts from the one a new section was made along reads nothing in it, if no merge key was
      written before another key. */
  lemma {:induction false} NewReadsNothing(before: Heap, h: Heap, deep: map<NodeId, nat>, id: NodeId, path: seq<string>, steps: seq<Step>)
    requires Deep(h, deep) && Filled(before, h, id, path) && Part(steps, path) && !PlainAfterMerge(path)
    ensures ReadAt(h, deep, id, steps) == None
    decreases |path|
  {
    hide Deep, ChildOf, Part;
    PartFirst(steps, path);
    FilledSteps(before, h, deep, id, path, steps[0]);
    if steps[0] == Key(path[0]) && path[0] != "<<" {
      NewReadsNothing(before, h, deep, h[id].content[0].value, path[1..], steps[1..]);
    }
  }

  /** Otherwise some such path reads something new. */
  lemma {:induction false} NewReadsSomething(before: Heap, h: Heap, deep: map<NodeId, nat>, id: NodeId, path: seq<string>)
    returns (steps: seq<Step>)
    requires Deep(h, deep) && Filled(before, h, id, path) && PlainAfterMerge(path)
    ensures Part(steps, path) && ReadAt(h, deep, id, steps).Some? && ReadAt(h, deep, id, steps).value !in before
    decreases |path|
  {
    hide Deep, ChildOf;
    if path[0] == "<<" {
      steps := [Key(FirstPlain(path[1..]).value)];
      PlainIsPlain(path[1..]);
      FilledSteps(before, h, deep, id, path, steps[0]);
      assert steps[1..] == [];
    } else {
      assert PlainAfterMerge(path[1..]);
      FilledSteps(before, h, deep, id, path, Key(path[0]));
      var rest := NewReadsSomething(before, h, deep, h[id].content[0].value, path[1..]);
      steps := [Key(path[0])] + rest;
      assert steps[1..] == rest;
      PartBelow(rest, path);
    }
  }

  lemma PlainIsPlain(path: seq<string>)
    ensures FirstPlain(path).Some? ==> FirstPlain(path).value != "<<"
  {
  }

  lemma PartBelow(rest: seq<Step>, path: seq<string>)
    requires path != [] && Part(rest, path[1..])
    ensures Part([Key(path[0])] + rest, path)
  {
    var steps, all := [Key(path[0])] + rest, Steps(path);
    assert all[1..] == Steps(path[1..]) && steps[1..] == rest;
    hide Steps;
    PrefixTail(steps, all);
    PrefixTail(all, steps);
  }

  /** Whatever is read in a new section is new. */
  lemma {:induction false} NewReadsNew(before: Heap, h: Heap, deep: map<NodeId, nat>, x: NodeId, steps: seq<Step>)
    requires Deep(h, deep) && x in h && x !in before
    requires forall y :: y in h && y !in before ==> OnlyNew(before, h, y)
    ensures ReadAt(h, deep, x, steps).Some? ==> ReadAt(h, deep, x, steps).value !in before
    decreases |steps|
  {
    hide Deep, ChildOf, OnlyNew;
    if steps != [] {
      NewChildIsNew(before, h, deep, x, steps[0]);
      var c := ChildOf(h, deep, x, steps[0]);
      if c.Some? { NewReadsNew(before, h, deep, c.value, steps[1..]); }
    }
  }

  lemma NewChildIsNew(before: Heap, h: Heap, deep: map<NodeId, nat>, x: NodeId, step: Step)
    requires Deep(h, deep) && x in h && x !in before
    requires forall y :: y in h && y !in before ==> OnlyNew(before, h, y)
    ensures ChildOf(h, deep, x, step).Some? ==> ChildOf(h, deep, x, step).value !in before
  {
    hide Deep, Merged, IsChild;
    assert OnlyNew(before, h, x);
    match step
    case Key(name) => NewMergedIsNew(before, h, deep, x, name, false);
    case Index(i) =>
      if h[x].Sequence? && i < |h[x].items| { ItemIsChild(h, x, i); }
  }

  lemma {:induction false} NewMergedIsNew(before: Heap, h: Heap, deep: map<NodeId, nat>, x: NodeId, name: string, source: bool)
    requires Deep(h, deep) && x in h && x !in before
    requires forall y :: y in h && y !in before ==> OnlyNew(before, h, y)
    ensures Merged(h, deep, x, name, source).Some? ==> Merged(h, deep, x, name, source).value !in before
    decreases deep[x], 1, 0
  {
    hide Deep, IsChild, FindFrom;
    DeepBelow(h, deep, x);
    assert OnlyNew(before, h, x);
    if h[x].Mapping? {
      var content := h[x].content;
      var i, m := FindFrom(h, content, name, 0), FindFrom(h, content, "<<", 0);
      if i >= 0 { EntryIsChild(h, x, i); }
      if m >= 0 {
        EntryIsChild(h, x, m);
        NewMergedIsNew(before, h, deep, content[m].value, name, true);
      }
    } else if h[x].Sequence? && source {
      NewFirstIsNew(before, h, deep, x, 0, name);
    }
  }

  lemma {:induction false} NewFirstIsNew(before: Heap, h: Heap, deep: map<NodeId, nat>, x: NodeId, j: nat, name: string)
    requires Deep(h, deep) && x in h && x !in before && h[x].Sequence? && j <= |h[x].items|
    requires forall y :: y in h && y !in before ==> OnlyNew(before, h, y)
    ensures FirstMerged(h, deep, x, j, name).Some? ==> FirstMerged(h, deep, x, j, name).value !in before
    decreases deep[x], 0, |h[x].items| - j
  {
    hide Deep, IsChild;
    DeepBelow(h, deep, x);
    assert OnlyNew(before, h, x);
    if j < |h[x].items| {
      ItemIsChild(h, x, j);
      NewMergedIsNew(before, h, deep, h[x].items[j], name, true);
      NewFirstIsNew(before, h, deep, x, j + 1, name);
    }
  }

  // ---- what an inherited section holds beside a path ----

  /** Something can be read in x on a path that parts from `rest`. */
  ghost predicate Beside(h: Heap, deep: map<NodeId, nat>, x: NodeId, rest: seq<string>)
    requires Deep(h, deep) && x in h && rest != []
    decreases |rest|
  {
    || (exists step :: step != Key(rest[0]) && ChildOf(h, deep, x, step).Some?)
    || (|rest| > 1 && ChildOf(h, deep, x, Key(rest[0])).Some? && Beside(h, deep, ChildOf(h, deep, x, Key(rest[0])).value, rest[1..]))
  }

  lemma {:induction false} NothingBeside(h: Heap, deep: map<NodeId, nat>, x: NodeId, rest: seq<string>, steps: seq<Step>)
    requires Deep(h, deep) && x in h && rest != [] && !Beside(h, deep, x, rest) && Part(steps, rest)
    ensures ReadAt(h, deep, x, steps) == None
    decreases |rest|
  {
    hide Deep, ChildOf, Part;
    PartFirst(steps, rest);
    if steps[0] == Key(rest[0]) {
      var c := ChildOf(h, deep, x, steps[0]);
      if c.Some? { NothingBeside(h, deep, c.value, rest[1..], steps[1..]); }
    }
  }

  lemma {:induction false} SomethingBeside(h: Heap, deep: map<NodeId, nat>, x: NodeId, rest: seq<string>) returns (steps: seq<Step>)
    requires Deep(h, deep) && x in h && rest != [] && Beside(h, deep, x, rest)
    ensures Part(steps, rest) && ReadAt(h, deep, x, steps).Some?
    decreases |rest|
  {
    hide Deep, ChildOf;
    if exists step :: step != Key(rest[0]) && ChildOf(h, deep, x, step).Some? {
      var step :| step != Key(rest[0]) && ChildOf(h, deep, x, step).Some?;
      steps := [step];
      assert steps[1..] == [];
    } else {
      var c := ChildOf(h, deep, x, Key(rest[0])).value;
      var more := SomethingBeside(h, deep, c, rest[1..]);
      steps := [Key(rest[0])] + more;
      assert steps[1..] == more;
      PartBelow(more, rest);
    }
  }

  // ---- the sections on the way ----

  /** The rest of the path from the last section, its key first. */
  function LastTail(h: Heap, id: NodeId, path: seq<string>): (r: seq<string>)
    requires id in h && h[id].Mapping? && path != []
    ensures r != [] && r[0] == LastKey(h, id, path)
    decreases |path|
  {
    if GoesOn(h, id, path) then LastTail(h, Next(h, id, path[0]).value.value, path[1..]) else path
  }

  lemma KeysKept(h: Heap, h': Heap, root: NodeId, rank: map<NodeId, nat>, last: NodeId, key: string, edit: Edit, id: NodeId, name: string)
    requires Ranked(h, root, rank) && id in h && h[id].Mapping? && last in h && h[last].Mapping? && Shape(h, h', last, key, edit)
    ensures forall j :: 0 <= j < |h[id].content| ==> (Named(h', h[id].content[j].key, name) <==> Named(h, h[id].content[j].key, name))
  {
    hide Shape, Named;
    KeysInHeap(h, root, rank, id);
    forall j | 0 <= j < |h[id].content| ensures Named(h', h[id].content[j].key, name) <==> Named(h, h[id].content[j].key, name) {
      NamedKept(h, h', last, key, edit, h[id].content[j].key, name);
    }
  }

  /** A name in a mapping, through its own entries or its merge sources. */
  lemma MergedInMapping(h: Heap, deep: map<NodeId, nat>, x: NodeId, name: string, source: bool)
    requires Deep(h, deep) && x in h && h[x].Mapping?
    ensures var content := h[x].content; var i, m := FindFrom(h, content, name, 0), FindFrom(h, content, "<<", 0);
      && (i >= 0 ==> Merged(h, deep, x, name, source) == Some(content[i].value))
      && (i < 0 && m < 0 ==> Merged(h, deep, x, name, source) == None)
      && (i < 0 && m >= 0 ==> content[m].value in h && Merged(h, deep, x, name, source) == Merged(h, deep, content[m].value, name, true))
  {
    hide Deep, FindFrom;
    DeepBelow(h, deep, x);
  }

  /** What is inherited by a section on the way is inherited after the edit, unless the edit is at the merge key. */
  lemma SafeSource(h: Heap, deep: map<NodeId, nat>, h': Heap, deep': map<NodeId, nat>, root: NodeId, rank: map<NodeId, nat>,
                   path: seq<string>, edit: Edit, x: NodeId, name: string)
    requires Tree(h, root, rank) && h[root].Mapping? && path != [] && NoAliasInto(h, root, path, edit)
    requires Shape(h, h', Last(h, root, path), LastKey(h, root, path), edit) && Safe(h, root, path, edit, x)
    requires Deep(h, deep) && Deep(h', deep')
    ensures x in h' && Merged(h', deep', x, name, true) == Merged(h, deep, x, name, true)
    ensures Merged(h, deep, x, name, true).Some? ==> Safe(h, root, path, edit, Merged(h, deep, x, name, true).value)
  {
    hide In, IsChild, UniqueParents, Chain, Last, LastKey, Dropped, Shape, NoAliasInto, Closed, Ranked, DistinctEntries, Deep, Merged;
    SafeIsClosed(h, root, rank, path, edit);
    SafeAgrees(h, h', root, path, edit);
    MergedInside(h, deep, h', deep', SafeSet(h, root, path, edit), x, name, true);
  }

  lemma SafeReads(h: Heap, deep: map<NodeId, nat>, h': Heap, deep': map<NodeId, nat>, root: NodeId, rank: map<NodeId, nat>,
                  path: seq<string>, edit: Edit, x: NodeId, steps: seq<Step>)
    requires Tree(h, root, rank) && h[root].Mapping? && path != [] && NoAliasInto(h, root, path, edit)
    requires Shape(h, h', Last(h, root, path), LastKey(h, root, path), edit) && Safe(h, root, path, edit, x)
    requires Deep(h, deep) && Deep(h', deep')
    ensures x in h' && ReadAt(h', deep', x, steps) == ReadAt(h, deep, x, steps)
    ensures ReadAt(h, deep, x, steps).Some? ==> Safe(h, root, path, edit, ReadAt(h, deep, x, steps).value)
  {
    hide In, IsChild, UniqueParents, Chain, Last, LastKey, Dropped, Shape, NoAliasInto, Closed, Ranked, DistinctEntries, Deep, ReadAt;
    SafeIsClosed(h, root, rank, path, edit);
    SafeAgrees(h, h', root, path, edit);
    ReadInside(h, deep, h', deep', SafeSet(h, root, path, edit), x, steps);
  }

  lemma MappingStep(h: Heap, deep: map<NodeId, nat>, x: NodeId, step: Step)
    requires Deep(h, deep) && x in h && h[x].Mapping?
    ensures ChildOf(h, deep, x, step) == if step.Key? && step.name != "<<" then Merged(h, deep, x, step.name, false) else None
  {
    hide Deep, Merged;
  }

  /** A step in a section on the way, other than the last. */
  lemma StepOnWay(h: Heap, next: nat, deep: map<NodeId, nat>, h': Heap, deep': map<NodeId, nat>, root: NodeId,
                  rank: map<NodeId, nat>, path: seq<string>, edit: Edit, id: NodeId, p: seq<string>, step: Step)
    requires Tree(h, root, rank) && h[root].Mapping? && path != [] && NoAliasInto(h, root, path, edit)
    requires Shape(h, h', Last(h, root, path), LastKey(h, root, path), edit) && Deep(h, deep) && Deep(h', deep')
    requires p != [] && id in h && OnTheWay(h, next, root, rank, path, edit, id, p) && id != Last(h, root, path)
    ensures id in h' && ChildOf(h', deep', id, step) == ChildOf(h, deep, id, step)
    ensures step == Key(p[0]) ==> h[id].Mapping? && GoesOn(h, id, p) && ChildOf(h, deep, id, step) == Some(Next(h, id, p[0]).value.value)
    ensures step != Key(p[0]) && ChildOf(h, deep, id, step).Some? ==> Safe(h, root, path, edit, ChildOf(h, deep, id, step).value)
  {
    hide In, IsChild, UniqueParents, Chain, Last, LastKey, Dropped, OnlyNew, NewContent, EditAt, FindFrom, Safe, Deep, Merged, NoAliasInto,
      DistinctEntries, ChildOf;
    GoesOnBeforeLast(h, next, root, rank, path, edit, id, p);
    assert h'[id] == h[id];
    MappingStep(h, deep, id, step);
    MappingStep(h', deep', id, step);
    if step.Key? && step.name != "<<" {
      var content := h[id].content;
      KeysKept(h, h', root, rank, Last(h, root, path), LastKey(h, root, path), edit, id, step.name);
      KeysKept(h, h', root, rank, Last(h, root, path), LastKey(h, root, path), edit, id, "<<");
      FindSame(h, h', content, step.name);
      FindSame(h, h', content, "<<");
      MergedInMapping(h, deep, id, step.name, false);
      MergedInMapping(h', deep', id, step.name, false);
      var f, m := FindFrom(h, content, step.name, 0), FindFrom(h, content, "<<", 0);
      if f >= 0 {
        if step.name != p[0] { BesideIsSafe(h, root, rank, path, edit, id, p, f); }
      } else if m >= 0 {
        BesideIsSafe(h, root, rank, path, edit, id, p, m);
        SafeSource(h, deep, h', deep', root, rank, path, edit, content[m].value, step.name);
      }
    }
  }

  // ---- the last section ----

  /** What a set that goes on past the last section puts there: under a missing key a new entry, in the place
      of a null a new section, filled along the rest of the path. */
  lemma CreatedIsFilled(h: Heap, next: nat, id: NodeId, p: seq<string>, edit: Edit)
    requires id in h && h[id].Mapping? && |p| > 1 && Unused(h, next) && !GoesOn(h, id, p) && EditAt(h, next, id, p, edit).Edited?
    ensures var h' := EditAt(h, next, id, p, edit).h; var content := h[id].content; var i := KeyIndex(h, content, p[0]);
      && edit.SetTo? && id in h' && h'[id].Mapping?
      && (i < 0 ==> h'[id].content == content + [Entry(next, next + 1)] && Filled(h, h', next + 1, p[1..]))
      && (i >= 0 ==> h'[id].content == content[i := content[i].(value := next)] && Filled(h, h', next, p[1..])
                     && content[i].value in h && h[content[i].value].Scalar?)
  {
    hide OnlyNew, KeyIndex, Filled, EditAt;
    var content := h[id].content;
    var i := KeyIndex(h, content, p[0]);
    GoesOnBySet(h, next, id, p, edit);
    if i < 0 {
      var h1 := Put(h, id, content + [Entry(next, next + 1)])[next := NewScalar(p[0], "")][next + 1 := Mapping([], "")];
      CreatesSection(h, next, id, p, edit);
      FillsNewSection(h1, next + 2, next + 1, p[1..], edit);
      EditFills(h, h1, next + 2, next + 1, p[1..], edit);
    } else {
      var h1 := Put(h, id, content[i := content[i].(value := next)])[next := Mapping([], AnchorOf(h[content[i].value]))];
      FillsNewSection(h1, next + 1, next, p[1..], edit);
      EditFills(h, h1, next + 1, next, p[1..], edit);
    }
  }

  /** A step beside the key sought there, when that is no merge key. */
  lemma StepBesideKey(h: Heap, next: nat, deep: map<NodeId, nat>, h': Heap, deep': map<NodeId, nat>, root: NodeId,
                      rank: map<NodeId, nat>, path: seq<string>, edit: Edit, id: NodeId, p: seq<string>, step: Step)
    requires Tree(h, root, rank) && h[root].Mapping? && path != [] && NoAliasInto(h, root, path, edit) && Unused(h, next)
    requires Shape(h, h', Last(h, root, path), LastKey(h, root, path), edit) && Deep(h, deep) && Deep(h', deep')
    requires p != [] && id in h && OnTheWay(h, next, root, rank, path, edit, id, p) && id == Last(h, root, path)
    requires EditAt(h, next, root, path, edit).Edited? && EditAt(h, next, root, path, edit).h == h'
    requires step != Key(p[0]) && p[0] != "<<"
    ensures id in h' && ChildOf(h', deep', id, step) == ChildOf(h, deep, id, step)
    ensures ChildOf(h, deep, id, step).Some? ==> Safe(h, root, path, edit, ChildOf(h, deep, id, step).value)
  {
    hide In, IsChild, UniqueParents, Chain, Last, LastKey, Dropped, OnlyNew, NewContent, EditAt, FindFrom, Safe, Deep, Merged, NoAliasInto,
      ChildOf, KeyIndex;
    MappingStep(h, deep, id, step);
    MappingStep(h', deep', id, step);
    if step.Key? && step.name != "<<" {
      var content, content' := h[id].content, h'[id].content;
      LastStops(h, root, rank, id, p);
      var i := KeyIndex(h, content, p[0]);
      if i < 0 { NewKey(h, next, id, p, edit); }
      KeysKept(h, h', root, rank, Last(h, root, path), LastKey(h, root, path), edit, id, step.name);
      KeysKept(h, h', root, rank, Last(h, root, path), LastKey(h, root, path), edit, id, "<<");
      FindBeside(h, h', content, content', i, edit, p[0], step.name);
      FindBeside(h, h', content, content', i, edit, p[0], "<<");
      MergedInMapping(h, deep, id, step.name, false);
      MergedInMapping(h', deep', id, step.name, false);
      var f, m := FindFrom(h, content, step.name, 0), FindFrom(h, content, "<<", 0);
      if f >= 0 {
        BesideIsSafe(h, root, rank, path, edit, id, p, f);
      } else if m >= 0 {
        BesideIsSafe(h, root, rank, path, edit, id, p, m);
        SafeSource(h, deep, h', deep', root, rank, path, edit, content[m].value, step.name);
      }
    }
  }

  /** The name that a merge key written into the section makes it inherit, if it has neither that name nor a
      merge key yet. */
  function NewlyInherits(h: Heap, id: NodeId, p: seq<string>): Option<string>
    requires id in h && h[id].Mapping? && p != []
  {
    var name := FirstPlain(p[1..]);
    if name.Some? && FindFrom(h, h[id].content, "<<", 0) < 0 && FindFrom(h, h[id].content, name.value, 0) < 0 then name else None
  }

  /** A step in the last section when a merge key is written there. */
  lemma StepBesideMerge(h: Heap, next: nat, deep: map<NodeId, nat>, h': Heap, deep': map<NodeId, nat>, root: NodeId,
                        rank: map<NodeId, nat>, path: seq<string>, edit: Edit, id: NodeId, p: seq<string>, step: Step)
    requires Tree(h, root, rank) && h[root].Mapping? && path != [] && NoAliasInto(h, root, path, edit) && Unused(h, next)
    requires Shape(h, h', Last(h, root, path), LastKey(h, root, path), edit) && Deep(h, deep) && Deep(h', deep')
    requires p != [] && id in h && h[id].Mapping? && OnTheWay(h, next, root, rank, path, edit, id, p) && id == Last(h, root, path)
    requires EditAt(h, next, root, path, edit).Edited? && EditAt(h, next, root, path, edit).h == h' && p[0] == "<<"
    ensures id in h'
    ensures if step.Key? && step.name != "<<" && NewlyInherits(h, id, p) == Some(step.name)
      then ChildOf(h, deep, id, step) == None && ChildOf(h', deep', id, step).Some?
      else ChildOf(h', deep', id, step) == ChildOf(h, deep, id, step)
    ensures ChildOf(h, deep, id, step).Some? ==> Safe(h, root, path, edit, ChildOf(h, deep, id, step).value)
  {
    hide In, IsChild, UniqueParents, Chain, Last, LastKey, Dropped, OnlyNew, EditAt, FindFrom, Safe, Deep, Merged, NoAliasInto, ChildOf,
      FirstPlain, NewContent;
    MappingStep(h, deep, id, step);
    MappingStep(h', deep', id, step);
    if step.Key? && step.name != "<<" {
      var content, content' := h[id].content, h'[id].content;
      LastStops(h, root, rank, id, p);
      assert KeyIndex(h, content, p[0]) < 0;
      NewKey(h, next, id, p, edit);
      KeysKept(h, h', root, rank, Last(h, root, path), LastKey(h, root, path), edit, id, step.name);
      KeysKept(h, h', root, rank, Last(h, root, path), LastKey(h, root, path), edit, id, "<<");
      FindBeside(h, h', content, content', -1, edit, "<<", step.name);
      FindAppended(h, h', content, content', "<<");
      MergedInMapping(h, deep, id, step.name, false);
      MergedInMapping(h', deep', id, step.name, false);
      var f, m := FindFrom(h, content, step.name, 0), FindFrom(h, content, "<<", 0);
      if f >= 0 {
        BesideIsSafe(h, root, rank, path, edit, id, p, f);
      } else if m >= 0 {
        BesideIsSafe(h, root, rank, path, edit, id, p, m);
        SafeSource(h, deep, h', deep', root, rank, path, edit, content[m].value, step.name);
      } else {
        NewSource(h, next, deep', id, p, edit, step.name);
      }
    }
  }

  /** The new merge value offers the first key of its path that is no merge key, and nothing else. */
  lemma NewSource(h: Heap, next: nat, deep': map<NodeId, nat>, id: NodeId, p: seq<string>, edit: Edit, name: string)
    requires id in h && h[id].Mapping? && p != [] && Unused(h, next) && EditAt(h, next, id, p, edit).Edited?
    requires p[0] == "<<" && name != "<<" && Deep(EditAt(h, next, id, p, edit).h, deep')
    ensures next + 1 in EditAt(h, next, id, p, edit).h
    ensures Merged(EditAt(h, next, id, p, edit).h, deep', next + 1, name, true).Some? <==> FirstPlain(p[1..]) == Some(name)
  {
    hide Deep, Filled;
    if |p| == 1 {
      assert p[1..] == [];
    } else {
      hide EditAt, Merged, FirstPlain;
      CreatedIsFilled(h, next, id, p, edit);
      FilledInHeap(h, EditAt(h, next, id, p, edit).h, next + 1, p[1..]);
      FilledHas(h, EditAt(h, next, id, p, edit).h, deep', next + 1, p[1..], name, true);
    }
  }

  lemma FilledInHeap(before: Heap, h: Heap, id: NodeId, path: seq<string>)
    requires Filled(before, h, id, path)
    ensures id in h && id !in before
  {
  }

  /** The step along the path, past the last section: before the edit an inherited value, a null or nothing,
      and after it the new section. */
  lemma StepAtKey(h: Heap, next: nat, deep: map<NodeId, nat>, h': Heap, deep': map<NodeId, nat>, root: NodeId,
                  rank: map<NodeId, nat>, id: NodeId, p: seq<string>, edit: Edit)
    requires Ranked(h, root, rank) && id in h && h[id].Mapping? && |p| > 1 && Unused(h, next) && !GoesOn(h, id, p) && p[0] != "<<"
    requires EditAt(h, next, id, p, edit).Edited? && EditAt(h, next, id, p, edit).h == h' && Deep(h, deep) && Deep(h', deep')
    ensures id in h'
    ensures var c' := ChildOf(h', deep', id, Key(p[0])); c'.Some? && Filled(h, h', c'.value, p[1..])
    ensures Next(h, id, p[0]).None? ==> ChildOf(h, deep, id, Key(p[0])) == Merged(h, deep, id, p[0], false)
    ensures Next(h, id, p[0]).Some? ==>
      forall steps :: Part(steps, p[1..]) ==> ReadAt(h, deep, id, [Key(p[0])] + steps) == None
  {
    hide OnlyNew, IsChild, Deep, Merged, FindFrom, Filled, ChildOf, EditAt, ReadAt, Part;
    CreatedIsFilled(h, next, id, p, edit);
    var content, content' := h[id].content, h'[id].content;
    var i := KeyIndex(h, content, p[0]);
    MappingStep(h, deep, id, Key(p[0]));
    MappingStep(h', deep', id, Key(p[0]));
    MergedInMapping(h, deep, id, p[0], false);
    MergedInMapping(h', deep', id, p[0], false);
    EditShape(h, next, id, p, edit);
    KeysKept(h, h', root, rank, id, p[0], edit, id, p[0]);
    if i < 0 {
      NewKey(h, next, id, p, edit);
      FindAppended(h, h', content, content', p[0]);
    } else {
      FindReplaced(h, h', content, content', i, p[0]);
      forall steps | Part(steps, p[1..]) ensures ReadAt(h, deep, id, [Key(p[0])] + steps) == None {
        PartFirst(steps, p[1..]);
        ReadScalar(h, deep, content[i].value, steps);
        ReadFirst(h, deep, id, [Key(p[0])] + steps);
        assert ([Key(p[0])] + steps)[1..] == steps;
      }
    }
  }

  lemma ReadFirst(h: Heap, deep: map<NodeId, nat>, x: NodeId, steps: seq<Step>)
    requires Deep(h, deep) && x in h && steps != []
    ensures ReadAt(h, deep, x, steps) ==
      match ChildOf(h, deep, x, steps[0]) { case None => None case Some(c) => ReadAt(h, deep, c, steps[1..]) }
  {
    hide ChildOf, Deep;
  }

  lemma ReadScalar(h: Heap, deep: map<NodeId, nat>, x: NodeId, steps: seq<Step>)
    requires Deep(h, deep) && x in h && h[x].Scalar? && steps != []
    ensures ReadAt(h, deep, x, steps) == None
  {
    hide Deep;
  }

  // ---- what an edit hides and what it introduces ----

  /** A set creates a section where one was inherited, and the inherited one holds something beside the path. */
  ghost predicate Hides(h: Heap, deep: map<NodeId, nat>, root: NodeId, path: seq<string>, edit: Edit)
    requires Deep(h, deep) && root in h && h[root].Mapping? && path != []
  {
    var last, tail := Last(h, root, path), LastTail(h, root, path);
    && edit.SetTo? && Gone(h, root, path).None? && tail[0] != "<<" && |tail| > 1
    && var inherited := Merged(h, deep, last, tail[0], false);
       inherited.Some? && Beside(h, deep, inherited.value, tail[1..])
  }

  /** A set writes a merge key, through which a section comes to read as having what is set below that key. */
  predicate Introduces(h: Heap, root: NodeId, path: seq<string>, edit: Edit)
    requires root in h && h[root].Mapping? && path != []
  {
    var last, tail := Last(h, root, path), LastTail(h, root, path);
    edit.SetTo? && (if tail[0] == "<<" then NewlyInherits(h, last, tail).Some? else PlainAfterMerge(tail[1..]))
  }

  lemma {:induction false} TailOnWay(h: Heap, root: NodeId, rank: map<NodeId, nat>, id: NodeId, path: seq<string>)
    requires Ranked(h, root, rank) && id in h && h[id].Mapping? && path != []
    ensures !GoesOn(h, Last(h, id, path), LastTail(h, id, path))
    ensures Gone(h, id, path) == Next(h, Last(h, id, path), LastTail(h, id, path)[0])
    decreases |path|
  {
    hide IsChild, KeyIndex;
    if GoesOn(h, id, path) {
      TailOnWay(h, root, rank, Next(h, id, path[0]).value.value, path[1..]);
    }
  }

  /** Where the walk stands, the rest of the path from the last section is the same. */
  ghost predicate Toward(h: Heap, root: NodeId, path: seq<string>, id: NodeId, p: seq<string>)
    requires root in h && h[root].Mapping? && path != []
  {
    id in h && h[id].Mapping? && p != [] && LastTail(h, id, p) == LastTail(h, root, path) && Last(h, id, p) == Last(h, root, path)
  }

  lemma AtLast(h: Heap, next: nat, root: NodeId, rank: map<NodeId, nat>, path: seq<string>, edit: Edit, id: NodeId, p: seq<string>)
    requires Tree(h, root, rank) && h[root].Mapping? && path != [] && Toward(h, root, path, id, p) && id == Last(h, root, path)
    requires OnTheWay(h, next, root, rank, path, edit, id, p)
    ensures p == LastTail(h, root, path) && !GoesOn(h, id, p) && Gone(h, root, path) == Next(h, id, p[0])
    ensures EditAt(h, next, id, p, edit) == EditAt(h, next, root, path, edit)
  {
    hide In, IsChild, UniqueParents, DistinctEntries, EditAt, KeyIndex, Chain;
    LastStops(h, root, rank, id, p);
    TailOnWay(h, root, rank, root, path);
  }

  /** A path that parts from the edited one reads the same from a section on the way, if nothing is hidden
      and nothing introduced. */
  lemma {:induction false} OffPathReads(h: Heap, next: nat, deep: map<NodeId, nat>, h': Heap, deep': map<NodeId, nat>, root: NodeId,
                                        rank: map<NodeId, nat>, path: seq<string>, edit: Edit, id: NodeId, p: seq<string>,
                                        steps: seq<Step>)
    requires Tree(h, root, rank) && h[root].Mapping? && path != [] && Unused(h, next) && NoAliasInto(h, root, path, edit)
    requires Shape(h, h', Last(h, root, path), LastKey(h, root, path), edit) && Deep(h, deep) && Deep(h', deep')
    requires EditAt(h, next, root, path, edit).Edited? && EditAt(h, next, root, path, edit).h == h'
    requires p != [] && OnTheWay(h, next, root, rank, path, edit, id, p) && Toward(h, root, path, id, p) && Part(steps, p)
    requires !Hides(h, deep, root, path, edit) && !Introduces(h, root, path, edit)
    ensures id in h' && ReadAt(h', deep', id, steps) == ReadAt(h, deep, id, steps)
    ensures ReadAt(h, deep, id, steps).Some? ==> Safe(h, root, path, edit, ReadAt(h, deep, id, steps).value)
    decreases |p|
  {
    hide In, IsChild, UniqueParents, Chain, Last, LastKey, Dropped, Shape, EditAt, Safe, Part, ReadAt, NoAliasInto, ChildOf, DistinctEntries,
      OnTheWay, Deep, Hides, Introduces, LastTail, Ranked, KeyIndex;
    PartFirst(steps, p);
    StaysInHeap(h, h', Last(h, root, path), LastKey(h, root, path), edit, id);
    ReadFirst(h, deep, id, steps);
    ReadFirst(h', deep', id, steps);
    var c := ChildOf(h, deep, id, steps[0]);
    if id != Last(h, root, path) {
      StepOnWay(h, next, deep, h', deep', root, rank, path, edit, id, p, steps[0]);
      if steps[0] == Key(p[0]) {
        OneStepOn(h, next, root, rank, path, edit, id, p);
        TowardOn(h, root, path, id, p);
        OffPathReads(h, next, deep, h', deep', root, rank, path, edit, c.value, p[1..], steps[1..]);
      } else if c.Some? {
        SafeReads(h, deep, h', deep', root, rank, path, edit, c.value, steps[1..]);
      }
    } else {
      AtLast(h, next, root, rank, path, edit, id, p);
      if p[0] == "<<" {
        MergeKeyBySet(h, next, id, p, edit);
        NothingIntroduced(h, root, path, edit);
        StepBesideMerge(h, next, deep, h', deep', root, rank, path, edit, id, p, steps[0]);
      } else if steps[0] == Key(p[0]) {
        AlongReadsNothing(h, next, deep, h', deep', root, rank, path, edit, id, p, steps);
      } else {
        StepBesideKey(h, next, deep, h', deep', root, rank, path, edit, id, p, steps[0]);
      }
      if c.Some? && ChildOf(h', deep', id, steps[0]) == c && Safe(h, root, path, edit, c.value) {
        SafeReads(h, deep, h', deep', root, rank, path, edit, c.value, steps[1..]);
      }
    }
  }

  lemma StaysInHeap(h: Heap, h': Heap, last: NodeId, key: string, edit: Edit, x: NodeId)
    requires last in h && h[last].Mapping? && Shape(h, h', last, key, edit) && x in h
    ensures x in h'
  {
    hide NewContent, OnlyNew;
  }

  lemma TowardOn(h: Heap, root: NodeId, path: seq<string>, id: NodeId, p: seq<string>)
    requires root in h && h[root].Mapping? && path != [] && Toward(h, root, path, id, p) && GoesOn(h, id, p)
    ensures Toward(h, root, path, Next(h, id, p[0]).value.value, p[1..])
  {
    hide KeyIndex;
  }

  /** Only a set gets anywhere with a merge key. */
  lemma MergeKeyBySet(h: Heap, next: nat, id: NodeId, p: seq<string>, edit: Edit)
    requires id in h && h[id].Mapping? && p != [] && p[0] == "<<" && EditAt(h, next, id, p, edit).Edited?
    ensures edit.SetTo?
  {
  }

  lemma NothingIntroduced(h: Heap, root: NodeId, path: seq<string>, edit: Edit)
    requires root in h && h[root].Mapping? && path != [] && !Introduces(h, root, path, edit)
    requires LastTail(h, root, path)[0] == "<<"
    ensures edit.SetTo? ==> NewlyInherits(h, Last(h, root, path), LastTail(h, root, path)).None?
  {
    hide NewlyInherits;
  }

  /** Past the last section along the path: nothing was there to read off it, and nothing is. */
  lemma AlongReadsNothing(h: Heap, next: nat, deep: map<NodeId, nat>, h': Heap, deep': map<NodeId, nat>, root: NodeId,
                          rank: map<NodeId, nat>, path: seq<string>, edit: Edit, id: NodeId, p: seq<string>, steps: seq<Step>)
    requires Ranked(h, root, rank) && root in h && h[root].Mapping? && path != [] && Unused(h, next)
    requires Deep(h, deep) && Deep(h', deep') && id == Last(h, root, path) && p == LastTail(h, root, path)
    requires !GoesOn(h, id, p) && Gone(h, root, path) == Next(h, id, p[0])
    requires EditAt(h, next, id, p, edit).Edited? && EditAt(h, next, id, p, edit).h == h'
    requires steps != [] && p[0] != "<<" && steps[0] == Key(p[0]) && |p| > 1 && Part(steps[1..], p[1..])
    requires !Hides(h, deep, root, path, edit) && !Introduces(h, root, path, edit)
    ensures id in h' && ReadAt(h', deep', id, steps) == None && ReadAt(h, deep, id, steps) == None
  {
    hide IsChild, Deep, Part, EditAt, Filled, ChildOf, Merged, Beside, ReadAt, Last, LastTail, PlainAfterMerge, KeyIndex;
    StepAtKey(h, next, deep, h', deep', root, rank, id, p, edit);
    GoesOnBySet(h, next, id, p, edit);
    ReadFirst(h, deep, id, steps);
    ReadFirst(h', deep', id, steps);
    var c, c' := ChildOf(h, deep, id, steps[0]), ChildOf(h', deep', id, steps[0]);
    NewReadsNothing(h, h', deep', c'.value, p[1..], steps[1..]);
    if Next(h, id, p[0]).Some? {
      assert steps == [Key(p[0])] + steps[1..];
    } else if c.Some? {
      NothingBeside(h, deep, c.value, p[1..], steps[1..]);
    }
  }

  // ---- the theorem ----

  /** Every path that parts from the edited one reads the same node of the tree as before, with the same
      meaning. A created section that repeats a value it hides is another node, and counts as a change. */
  ghost predicate KeepsReading(h: Heap, deep: map<NodeId, nat>, h': Heap, deep': map<NodeId, nat>, root: NodeId, path: seq<string>)
    requires Deep(h, deep) && Deep(h', deep') && root in h && root in h'
  {
    forall steps :: Part(steps, path) ==> ReadsSame(h, deep, h', deep', root, steps)
  }

  ghost predicate ReadsSame(h: Heap, deep: map<NodeId, nat>, h': Heap, deep': map<NodeId, nat>, x: NodeId, steps: seq<Step>)
    requires Deep(h, deep) && Deep(h', deep') && x in h && x in h'
  {
    && ReadAt(h', deep', x, steps) == ReadAt(h, deep, x, steps)
    && (ReadAt(h, deep, x, steps).Some? ==> SameMeaning(h, h', ReadAt(h, deep, x, steps).value))
  }

  lemma KeepsIf(h: Heap, next: nat, deep: map<NodeId, nat>, h': Heap, deep': map<NodeId, nat>, root: NodeId, rank: map<NodeId, nat>,
                path: seq<string>, edit: Edit, steps: seq<Step>)
    requires Tree(h, root, rank) && h[root].Mapping? && path != [] && Unused(h, next) && NoAliasInto(h, root, path, edit)
    requires Shape(h, h', Last(h, root, path), LastKey(h, root, path), edit) && Deep(h, deep) && Deep(h', deep')
    requires EditAt(h, next, root, path, edit).Edited? && EditAt(h, next, root, path, edit).h == h' && Part(steps, path)
    requires !Hides(h, deep, root, path, edit) && !Introduces(h, root, path, edit)
    ensures root in h' && ReadsSame(h, deep, h', deep', root, steps)
  {
    hide In, IsChild, UniqueParents, Last, LastKey, Dropped, Shape, ReadAt, NoAliasInto, EditAt, Part, Ranked, DistinctEntries, Closed, Agree,
      Expand, Deep, Hides, Introduces, LastTail;
    assert OnTheWay(h, next, root, rank, path, edit, root, path);
    OffPathReads(h, next, deep, h', deep', root, rank, path, edit, root, path, steps);
    var found := ReadAt(h, deep, root, steps);
    if found.Some? {
      SafeIsClosed(h, root, rank, path, edit);
      SafeAgrees(h, h', root, path, edit);
      forall depth: nat ensures Expand(h', found.value, depth) == Expand(h, found.value, depth) {
        MeaningKept(h, h', SafeSet(h, root, path, edit), found.value, depth);
      }
    }
  }

  /** If something is hidden or introduced, some path from the last section reads differently. */
  lemma DiffersAtLast(h: Heap, next: nat, deep: map<NodeId, nat>, h': Heap, deep': map<NodeId, nat>, root: NodeId,
                      rank: map<NodeId, nat>, path: seq<string>, edit: Edit)
    returns (steps: seq<Step>)
    requires Tree(h, root, rank) && h[root].Mapping? && path != [] && Unused(h, next) && NoAliasInto(h, root, path, edit)
    requires Shape(h, h', Last(h, root, path), LastKey(h, root, path), edit) && Deep(h, deep) && Deep(h', deep')
    requires EditAt(h, next, root, path, edit).Edited? && EditAt(h, next, root, path, edit).h == h'
    requires OnTheWay(h, next, root, rank, path, edit, Last(h, root, path), LastTail(h, root, path))
    requires Toward(h, root, path, Last(h, root, path), LastTail(h, root, path))
    requires Hides(h, deep, root, path, edit) || Introduces(h, root, path, edit)
    ensures Part(steps, LastTail(h, root, path)) && Last(h, root, path) in h'
    ensures ReadAt(h', deep', Last(h, root, path), steps) != ReadAt(h, deep, Last(h, root, path), steps)
  {
    hide In, IsChild, UniqueParents, Chain, Last, LastKey, Dropped, OnlyNew, NewContent, EditAt, NoAliasInto, DistinctEntries, OnTheWay, Deep,
      LastTail, Ranked, Merged, ChildOf, Filled, Beside, ReadAt, PlainAfterMerge, KeyIndex, Part, FirstPlain;
    var id, p := Last(h, root, path), LastTail(h, root, path);
    AtLast(h, next, root, rank, path, edit, id, p);
    if p[0] == "<<" {
      var name := NewlyInherits(h, id, p).value;
      steps := [Key(name)];
      PlainIsPlain(p[1..]);
      StepBesideMerge(h, next, deep, h', deep', root, rank, path, edit, id, p, Key(name));
      ReadFirst(h, deep, id, steps);
      ReadFirst(h', deep', id, steps);
      assert steps[1..] == [];
      ReadsHereNothing(h', deep', ChildOf(h', deep', id, Key(name)).value);
      assert Part(steps, p) by { OneStepParts(steps, p); }
    } else {
      NeedsTail(p);
      StepAtKey(h, next, deep, h', deep', root, rank, id, p, edit);
      var c' := ChildOf(h', deep', id, Key(p[0])).value;
      var rest: seq<Step>;
      if Introduces(h, root, path, edit) {
        rest := NewReadsSomething(h, h', deep', c', p[1..]);
      } else {
        rest := SomethingBeside(h, deep, Merged(h, deep, id, p[0], false).value, p[1..]);
        FilledInHeap(h, h', c', p[1..]);
        NewReadsNew(h, h', deep', c', rest);
      }
      steps := [Key(p[0])] + rest;
      assert steps[1..] == rest;
      PartBelow(rest, p);
      ReadFirst(h, deep, id, steps);
      ReadFirst(h', deep', id, steps);
    }
  }

  lemma ReadsHereNothing(h: Heap, deep: map<NodeId, nat>, x: NodeId)
    requires Deep(h, deep) && x in h
    ensures ReadAt(h, deep, x, []) == Some(x)
  {
  }

  lemma OneStepParts(steps: seq<Step>, p: seq<string>)
    requires |steps| == 1 && p != [] && steps[0] != Key(p[0])
    ensures Part(steps, p)
  {
  }

  lemma NeedsTail(p: seq<string>)
    requires p != []
    ensures |p| == 1 ==> p[1..] == [] && !PlainAfterMerge(p[1..])
  {
  }

  /** That difference shows from every section on the way. */
  lemma {:induction false} DiffersFrom(h: Heap, next: nat, deep: map<NodeId, nat>, h': Heap, deep': map<NodeId, nat>, root: NodeId,
                                       rank: map<NodeId, nat>, path: seq<string>, edit: Edit, id: NodeId, p: seq<string>)
    returns (steps: seq<Step>)
    requires Tree(h, root, rank) && h[root].Mapping? && path != [] && Unused(h, next) && NoAliasInto(h, root, path, edit)
    requires Shape(h, h', Last(h, root, path), LastKey(h, root, path), edit) && Deep(h, deep) && Deep(h', deep')
    requires EditAt(h, next, root, path, edit).Edited? && EditAt(h, next, root, path, edit).h == h'
    requires p != [] && OnTheWay(h, next, root, rank, path, edit, id, p) && Toward(h, root, path, id, p)
    requires Hides(h, deep, root, path, edit) || Introduces(h, root, path, edit)
    ensures Part(steps, p) && id in h' && ReadAt(h', deep', id, steps) != ReadAt(h, deep, id, steps)
    decreases |p|
  {
    hide In, IsChild, UniqueParents, Chain, Last, LastKey, Dropped, Shape, EditAt, Part, ReadAt, NoAliasInto, ChildOf, DistinctEntries,
      OnTheWay, Deep, Hides, Introduces, LastTail, Ranked, KeyIndex;
    if id == Last(h, root, path) {
      AtLast(h, next, root, rank, path, edit, id, p);
      steps := DiffersAtLast(h, next, deep, h', deep', root, rank, path, edit);
    } else {
      StepOnWay(h, next, deep, h', deep', root, rank, path, edit, id, p, Key(p[0]));
      OneStepOn(h, next, root, rank, path, edit, id, p);
      TowardOn(h, root, path, id, p);
      var child := Next(h, id, p[0]).value.value;
      var rest := DiffersFrom(h, next, deep, h', deep', root, rank, path, edit, child, p[1..]);
      steps := [Key(p[0])] + rest;
      assert steps[1..] == rest;
      PartBelow(rest, p);
      ReadFirst(h, deep, id, steps);
      ReadFirst(h', deep', id, steps);
    }
  }

  lemma {:induction false} DeepDown(h: Heap, deep: map<NodeId, nat>, r: NodeId, x: NodeId)
    requires Deep(h, deep) && r in h && In(h, r, x)
    ensures x in h && deep[x] <= deep[r]
    decreases if r in deep then deep[r] else 0
  {
    hide IsChild, In;
    if x != r {
      var c := InFirst(h, r, x);
      DeepDown(h, deep, c, x);
    }
  }

  lemma DeepContainsNoSelf(h: Heap, deep: map<NodeId, nat>)
    requires Deep(h, deep)
    ensures NoSelfContaining(h)
  {
    hide In;
    forall a | a in h && h[a].Alias? ensures !In(h, h[a].target, a) {
      if In(h, h[a].target, a) { DeepDown(h, deep, h[a].target, a); }
    }
  }

  /** What an accepted edit does to the reader of the file: every path that parts from the edited one reads
      the same node as before, exactly when the edit neither hides an inherited section that holds something beside its
      path nor makes a section inherit what it writes below a merge key. */
  lemma AcceptedEditReadsExactly(h: Heap, next: nat, deep: map<NodeId, nat>, deep': map<NodeId, nat>, root: NodeId,
                                 rank: map<NodeId, nat>, path: seq<string>, edit: Edit)
    requires PlainFile(h, root, rank) && Unused(h, next) && Accepted(h, next, root, rank, path, edit) && Deep(h, deep)
    requires Deep(EditTree(h, next, root, path, edit).h, deep') && root in EditTree(h, next, root, path, edit).h
    ensures KeepsReading(h, deep, EditTree(h, next, root, path, edit).h, deep', root, path) <==>
      !Hides(h, deep, root, path, edit) && !Introduces(h, root, path, edit)
  {
    hide Tree, PlainKeys, UniqueKeys, RefusesShared, EditAt, NoAliasInto, RootNotReferred, Part, ReadAt, Shape, Deep, Hides, Introduces,
      NoSelfContaining, SameMeaning;
    RootInTree(h, root, rank);
    var h' := EditTree(h, next, root, path, edit).h;
    DeepContainsNoSelf(h, deep);
    RootHoldsAll(h, root, rank, path, edit);
    AcceptedExactly(h, next, root, rank, path, edit);
    EditShape(h, next, root, path, edit);
    if !Hides(h, deep, root, path, edit) && !Introduces(h, root, path, edit) {
      forall steps | Part(steps, path) ensures ReadsSame(h, deep, h', deep', root, steps) {
        KeepsIf(h, next, deep, h', deep', root, rank, path, edit, steps);
      }
    } else {
      assert OnTheWay(h, next, root, rank, path, edit, root, path);
      var steps := DiffersFrom(h, next, deep, h', deep', root, rank, path, edit, root, path);
      assert !ReadsSame(h, deep, h', deep', root, steps);
    }
  }

  // ---- what the edited path itself reads ----

  /** Own entries come first, so a path of plain keys that leads to a node of the tree as written is read so. */
  lemma {:induction false} OwnReads(h: Heap, deep: map<NodeId, nat>, x: NodeId, path: seq<string>, v: NodeId)
    requires Deep(h, deep) && x in h && "<<" !in path && Locate(h, x, Steps(path)) == Some(v)
    ensures ReadAt(h, deep, x, Steps(path)) == Some(v)
    decreases |path|
  {
    hide Deep, ChildOf, ChildAt, Locate, ReadAt;
    if path == [] {
      NoSteps(h, x, Steps(path));
      ReadsHereNothing(h, deep, x);
    } else {
      assert Steps(path)[1..] == Steps(path[1..]) && path[0] in path;
      LocateFirst(h, x, Steps(path));
      ReadFirst(h, deep, x, Steps(path));
      OwnChild(h, deep, x, path[0]);
      OwnReads(h, deep, ChildAt(h, x, Key(path[0])).value, path[1..], v);
    }
  }

  lemma OwnChild(h: Heap, deep: map<NodeId, nat>, x: NodeId, name: string)
    requires Deep(h, deep) && x in h && name != "<<" && ChildAt(h, x, Key(name)).Some?
    ensures ChildAt(h, x, Key(name)).value in h && ChildOf(h, deep, x, Key(name)) == ChildAt(h, x, Key(name))
  {
    hide Deep, FindFrom, Merged;
    DeepBelow(h, deep, x);
    DeepBelow(h, deep, Deref(h, x));
    if h[x].Alias? { MergedOfAlias(h, deep, x, name, false); }
    MergedInMapping(h, deep, Deref(h, x), name, false);
  }

  /** A path through a merge key reads nothing. */
  lemma {:induction false} MergeKeyReadsNothing(h: Heap, deep: map<NodeId, nat>, x: NodeId, path: seq<string>)
    requires Deep(h, deep) && x in h && "<<" in path
    ensures ReadAt(h, deep, x, Steps(path)) == None
    decreases |path|
  {
    hide Deep, Merged;
    assert Steps(path)[1..] == Steps(path[1..]);
    if path[0] != "<<" {
      var c := ChildOf(h, deep, x, Key(path[0]));
      if c.Some? { MergeKeyReadsNothing(h, deep, c.value, path[1..]); }
    }
  }

  /** What a mapping has under a name besides its own entries. */
  function Inherited(h: Heap, deep: map<NodeId, nat>, x: NodeId, name: string): (r: Option<NodeId>)
    requires Deep(h, deep) && x in h && h[x].Mapping?
  {
    DeepBelow(h, deep, x);
    var m := FindFrom(h, h[x].content, "<<", 0);
    if m < 0 then None else Merged(h, deep, h[x].content[m].value, name, true)
  }

  /** In the last section, an unset leaves what the section inherits under the key. */
  lemma UnsetLeavesInherited(h: Heap, next: nat, deep: map<NodeId, nat>, h': Heap, deep': map<NodeId, nat>, root: NodeId,
                             rank: map<NodeId, nat>, path: seq<string>, id: NodeId, p: seq<string>)
    requires Tree(h, root, rank) && UniqueKeys(h) && h[root].Mapping? && path != [] && NoAliasInto(h, root, path, Unset)
    requires Shape(h, h', Last(h, root, path), LastKey(h, root, path), Unset) && Deep(h, deep) && Deep(h', deep')
    requires OnTheWay(h, next, root, rank, path, Unset, id, p) && id == Last(h, root, path) && |p| == 1
    requires EditAt(h, next, root, path, Unset).Edited? && EditAt(h, next, root, path, Unset).h == h'
    ensures id in h' && ChildOf(h', deep', id, Key(p[0])) == Inherited(h, deep, id, p[0])
    ensures var r := Inherited(h, deep, id, p[0]); r.Some? ==> Safe(h, root, path, Unset, r.value)
  {
    hide In, IsChild, UniqueParents, Chain, Last, LastKey, Dropped, OnlyNew, NewContent, FindFrom, Safe, Deep, Merged, NoAliasInto,
      ChildOf, UniqueKeys, DistinctEntries, EditAt, Shape;
    UnsetRemoves(h, next, id, p);
    KeysInHeap(h, root, rank, id);
    OnlyOne(h, h', id, p[0]);
    var content := h[id].content;
    FindRemoved(h, h', content, KeyIndex(h, content, p[0]), "<<");
    MappingStep(h', deep', id, Key(p[0]));
    MergedInMapping(h', deep', id, p[0], false);
    var m := FindFrom(h, content, "<<", 0);
    if m >= 0 {
      BesideIsSafe(h, root, rank, path, Unset, id, p, m);
      SafeSource(h, deep, h', deep', root, rank, path, Unset, content[m].value, p[0]);
    }
  }

  lemma UnsetRemoves(h: Heap, next: nat, id: NodeId, p: seq<string>)
    requires id in h && h[id].Mapping? && |p| == 1 && EditAt(h, next, id, p, Unset).Edited?
    ensures var i := KeyIndex(h, h[id].content, p[0]); i >= 0 && EditAt(h, next, id, p, Unset).h == Put(h, id, Remove(h[id].content, i))
  {
  }

  /** An unset only walks along sections that are there. */
  lemma UnsetStops(h: Heap, next: nat, id: NodeId, p: seq<string>)
    requires id in h && h[id].Mapping? && p != [] && !GoesOn(h, id, p) && EditAt(h, next, id, p, Unset).Edited?
    ensures |p| == 1
  {
    hide KeyIndex;
  }

  lemma {:induction false} UnsetReadsFrom(h: Heap, next: nat, deep: map<NodeId, nat>, h': Heap, deep': map<NodeId, nat>, root: NodeId,
                                          rank: map<NodeId, nat>, path: seq<string>, id: NodeId, p: seq<string>)
    requires Tree(h, root, rank) && UniqueKeys(h) && h[root].Mapping? && path != [] && NoAliasInto(h, root, path, Unset)
    requires Shape(h, h', Last(h, root, path), LastKey(h, root, path), Unset) && Deep(h, deep) && Deep(h', deep')
    requires EditAt(h, next, root, path, Unset).Edited? && EditAt(h, next, root, path, Unset).h == h'
    requires p != [] && OnTheWay(h, next, root, rank, path, Unset, id, p)
    ensures id in h' && ReadAt(h', deep', id, Steps(p)) == Inherited(h, deep, Last(h, root, path), LastKey(h, root, path))
    ensures var r := Inherited(h, deep, Last(h, root, path), LastKey(h, root, path)); r.Some? ==> Safe(h, root, path, Unset, r.value)
    decreases |p|
  {
    hide In, IsChild, UniqueParents, Chain, Last, LastKey, Dropped, Shape, EditAt, Safe, ReadAt, NoAliasInto, ChildOf, DistinctEntries,
      OnTheWay, Deep, Ranked, KeyIndex, Inherited, UniqueKeys, Steps;
    WayInHeap(h, next, root, rank, path, Unset, id, p);
    StaysInHeap(h, h', Last(h, root, path), LastKey(h, root, path), Unset, id);
    StepsRest(p);
    ReadFirst(h', deep', id, Steps(p));
    if id != Last(h, root, path) {
      StepOnWay(h, next, deep, h', deep', root, rank, path, Unset, id, p, Key(p[0]));
      OneStepOn(h, next, root, rank, path, Unset, id, p);
      UnsetReadsFrom(h, next, deep, h', deep', root, rank, path, Next(h, id, p[0]).value.value, p[1..]);
    } else {
      RootInTree(h, root, rank);
      LastStops(h, root, rank, id, p);
      UnsetStops(h, next, id, p);
      UnsetLeavesInherited(h, next, deep, h', deep', root, rank, path, id, p);
      var c := ChildOf(h', deep', id, Key(p[0]));
      if c.Some? { ReadsHereNothing(h', deep', c.value); }
    }
  }

  lemma WayInHeap(h: Heap, next: nat, root: NodeId, rank: map<NodeId, nat>, path: seq<string>, edit: Edit, id: NodeId, p: seq<string>)
    requires Tree(h, root, rank) && h[root].Mapping? && path != [] && OnTheWay(h, next, root, rank, path, edit, id, p)
    ensures id in h && h[id].Mapping? && EditAt(h, next, id, p, edit) == EditAt(h, next, root, path, edit)
    ensures Last(h, id, p) == Last(h, root, path) && LastKey(h, id, p) == LastKey(h, root, path)
  {
    hide In, IsChild, UniqueParents, DistinctEntries, EditAt;
  }

  lemma StepsRest(p: seq<string>)
    requires p != []
    ensures Steps(p) != [] && Steps(p)[0] == Key(p[0]) && Steps(p)[1..] == Steps(p[1..])
    ensures |p| == 1 ==> Steps(p)[1..] == []
  {
  }

  /** What the path of an accepted edit itself reads afterwards. A set along keys reads the value set; one whose
      path has a merge key in it reads nothing there. An unset leaves what the section inherits under the key,
      unchanged, or nothing. */
  lemma EditedPathReads(h: Heap, next: nat, deep: map<NodeId, nat>, deep': map<NodeId, nat>, root: NodeId,
                        rank: map<NodeId, nat>, path: seq<string>, edit: Edit)
    requires PlainFile(h, root, rank) && Unused(h, next) && Accepted(h, next, root, rank, path, edit) && Deep(h, deep)
    requires Deep(EditTree(h, next, root, path, edit).h, deep') && root in EditTree(h, next, root, path, edit).h
    ensures var h' := EditTree(h, next, root, path, edit).h; var r := ReadAt(h', deep', root, Steps(path));
      match edit
      case SetTo(value) => if "<<" in path then r == None else r.Some? && h'[r.value].Scalar? && h'[r.value].value == value
      case Unset => r == Inherited(h, deep, Last(h, root, path), LastKey(h, root, path)) && (r.Some? ==> SameMeaning(h, h', r.value))
  {
    hide Tree, PlainKeys, UniqueKeys, RefusesShared, EditAt, NoAliasInto, RootNotReferred, ReadAt, Shape, Deep, NoSelfContaining, Locate, Steps,
      Last, LastKey, Inherited, Expand, OnTheWay, Shadowed, Chain, Closed, Agree, Dropped;
    RootInTree(h, root, rank);
    var h' := EditTree(h, next, root, path, edit).h;
    match edit
    case SetTo(value) =>
      if "<<" in path {
        MergeKeyReadsNothing(h', deep', root, path);
      } else {
        PlainNotShadowed(h, root, path);
        EditTakesEffect(h, next, root, rank, path, edit);
        OwnReads(h', deep', root, path, Locate(h', root, Steps(path)).value);
      }
    case Unset =>
      DeepContainsNoSelf(h, deep);
      RootHoldsAll(h, root, rank, path, edit);
      AcceptedExactly(h, next, root, rank, path, edit);
      EditShape(h, next, root, path, edit);
      WayStarts(h, next, root, rank, path, edit);
      UnsetReadsFrom(h, next, deep, h', deep', root, rank, path, root, path);
      SafeIsClosed(h, root, rank, path, edit);
      SafeAgrees(h, h', root, path, edit);
      var r := ReadAt(h', deep', root, Steps(path));
      if r.Some? {
        SafeMember(h, root, path, edit, r.value);
        forall depth: nat ensures Expand(h', r.value, depth) == Expand(h, r.value, depth) {
          MeaningKept(h, h', SafeSet(h, root, path, edit), r.value, depth);
        }
      }
  }

  lemma SafeMember(h: Heap, root: NodeId, path: seq<string>, edit: Edit, x: NodeId)
    requires root in h && h[root].Mapping? && path != [] && Safe(h, root, path, edit, x)
    ensures x in SafeSet(h, root, path, edit)
  {
  }

  lemma WayStarts(h: Heap, next: nat, root: NodeId, rank: map<NodeId, nat>, path: seq<string>, edit: Edit)
    requires Tree(h, root, rank) && h[root].Mapping? && path != []
    ensures OnTheWay(h, next, root, rank, path, edit, root, path)
  {
    hide In, IsChild, UniqueParents, DistinctEntries, EditAt, Last, LastKey, Ranked;
  }

  lemma {:induction false} PlainNotShadowed(h: Heap, id: NodeId, path: seq<string>)
    requires id in h && h[id].Mapping? && path != [] && "<<" !in path
    ensures !Shadowed(h, id, path)
    decreases |path|
  {
    hide FindFrom, KeyIndex;
    if GoesOn(h, id, path) {
      PlainNotShadowed(h, Next(h, id, path[0]).value.value, path[1..]);
    } else {
      assert path[0] in path;
    }
  }

  // ---- the edited file can be read ----

  /** The new nodes of a filled section, ranked: each holds only lower ones. */
  lemma {:induction false} FillRank(h: Heap, next: nat, id: NodeId, path: seq<string>, edit: Edit) returns (added: map<NodeId, nat>)
    requires id in h && h[id].Mapping? && h[id].content == [] && path != [] && Unused(h, next) && edit.SetTo?
    ensures var r := EditAt(h, next, id, path, edit);
      && r.Edited? && added.Keys == (r.h.Keys - h.Keys) + {id} && (forall x :: x in added ==> added[x] <= |path|)
      && (forall x, c :: x in added && IsChild(r.h, x, c) ==> c in added && added[c] < added[x])
    decreases |path|
  {
    hide OnlyNew, EditAt;
    EmptyHasNoKey(h, path[0]);
    if |path| == 1 {
      added := FillRankKey(h, next, id, path, edit);
    } else {
      var e := Entry(next, next + 1);
      assert h[id].content + [e] == [e];
      var h2 := Put(h, id, [e])[next := NewScalar(path[0], "")][next + 1 := Mapping([], "")];
      CreatesSection(h, next, id, path, edit);
      FillsNewSection(h2, next + 2, next + 1, path[1..], edit);
      var deeper := FillRank(h2, next + 2, next + 1, path[1..], edit);
      hide IsChild;
      var h' := EditAt(h, next, id, path, edit).h;
      added := deeper[id := |path|][next := 0];
      assert h'[id] == h2[id] && h'[next] == h2[next];
      assert h'.Keys - h.Keys == (h'.Keys - h2.Keys) + {next, next + 1};
      RankedOn(h', deeper, added, id, next, e, |path|);
    }
  }

  lemma FillRankKey(h: Heap, next: nat, id: NodeId, path: seq<string>, edit: Edit) returns (added: map<NodeId, nat>)
    requires id in h && h[id].Mapping? && h[id].content == [] && |path| == 1 && Unused(h, next) && edit.SetTo?
    requires KeyIndex(h, [], path[0]) < 0
    ensures var r := EditAt(h, next, id, path, edit);
      && r.Edited? && added.Keys == (r.h.Keys - h.Keys) + {id} && (forall x :: x in added ==> added[x] <= 1)
      && (forall x, c :: x in added && IsChild(r.h, x, c) ==> c in added && added[c] < added[x])
  {
    hide KeyIndex;
    added := map[id := 1, next := 0, next + 1 := 0];
    assert h[id].content + [Entry(next, next + 1)] == [Entry(next, next + 1)];
  }

  lemma RankedOn(h: Heap, deeper: map<NodeId, nat>, added: map<NodeId, nat>, id: NodeId, k: NodeId, e: Entry, top: nat)
    requires added == deeper[id := top][k := 0] && id !in deeper && k !in deeper && id != k && e.key == k && e.value in deeper
    requires id in h && h[id].Mapping? && h[id].content == [e] && k in h && h[k].Scalar?
    requires forall x :: x in deeper ==> deeper[x] < top
    requires forall x, c :: x in deeper && IsChild(h, x, c) ==> c in deeper && deeper[c] < deeper[x]
    ensures forall x, c :: x in added && IsChild(h, x, c) ==> c in added && added[c] < added[x]
  {
  }

  /** Ranks for the nodes of an edited tree: the old ones, raised above the new. */
  function Raised(h: Heap, h': Heap, deep: map<NodeId, nat>, added: map<NodeId, nat>, lift: nat): (r: map<NodeId, nat>)
    requires deep.Keys == h.Keys
    ensures r.Keys == h'.Keys
  {
    map x | x in h' :: if x in h then deep[x] + lift else if x in added then added[x] else 0
  }

  lemma RaisedIsDeep(h: Heap, h': Heap, deep: map<NodeId, nat>, added: map<NodeId, nat>, lift: nat, last: NodeId, key: string, edit: Edit)
    requires Deep(h, deep) && last in h && h[last].Mapping? && Shape(h, h', last, key, edit)
    requires forall c :: IsChild(h', last, c) && c !in h ==> c in h'
    requires forall x :: x in added ==> added[x] < lift
    requires lift > 0 && forall x, c :: x in h' && x !in h && IsChild(h', x, c) ==> x in added && c in added && c in h' && added[c] < added[x]
    ensures Deep(h', Raised(h, h', deep, added, lift))
  {
    hide NewContent;
    var deep' := Raised(h, h', deep, added, lift);
    forall p: NodeId, c: NodeId | IsChild(h', p, c) ensures c in h' && deep'[c] < deep'[p] {
      if p in h {
        if c in h { RaisedChild(h, h', last, key, edit, p, c); }
        else { NewUnderOld(h, h', last, key, edit, p, c); }
      } else {
        assert OnlyNew(h, h', p);
      }
    }
    forall a | a in h' && h'[a].Alias? ensures h'[a].target in h' && deep'[h'[a].target] < deep'[a] {
      AliasIsOld(h, h', last, key, edit, a);
    }
  }

  /** A child that was in the old tree was a child there. */
  lemma RaisedChild(h: Heap, h': Heap, last: NodeId, key: string, edit: Edit, p: NodeId, c: NodeId)
    requires last in h && h[last].Mapping? && Shape(h, h', last, key, edit) && p in h && c in h && IsChild(h', p, c)
    ensures IsChild(h, p, c)
  {
    hide OnlyNew, NewContent, KeyIndex;
    if p == last {
      EntryWasThere(h, h[p].content, h'[p].content, KeyIndex(h, h[p].content, key), edit, c);
    } else {
      SameNodeSameChild(h, h', p, c);
    }
  }

  lemma EntryWasThere(h: Heap, content: seq<Entry>, content': seq<Entry>, i: int, edit: Edit, c: NodeId)
    requires i < |content| && NewContent(h, content, content', i, edit) && c in h
    requires exists e :: e in content' && (e.key == c || e.value == c)
    ensures exists e :: e in content && (e.key == c || e.value == c)
  {
    var e :| e in content' && (e.key == c || e.value == c);
    var j :| 0 <= j < |content'| && content'[j] == e;
    if i >= 0 && edit.Unset? {
      assert e == content[if j < i then j else j + 1];
    } else if j < |content| {
      assert content[j] in content;
    }
  }

  lemma NewUnderOld(h: Heap, h': Heap, last: NodeId, key: string, edit: Edit, p: NodeId, c: NodeId)
    requires last in h && h[last].Mapping? && Shape(h, h', last, key, edit) && p in h && c !in h && IsChild(h', p, c)
    requires forall q, d :: IsChild(h, q, d) ==> d in h
    ensures p == last
  {
    hide NewContent, OnlyNew;
    if p != last { SameNodeSameChild(h, h', p, c); }
  }

  lemma SameNodeSameChild(h: Heap, h': Heap, p: NodeId, c: NodeId)
    requires p in h && p in h' && h'[p] == h[p] && IsChild(h', p, c)
    ensures IsChild(h, p, c)
  {
  }

  /** A file without self-containing values stays one under every edit, so the edited file can be read. */
  lemma {:induction false} EditStaysDeep(h: Heap, deep: map<NodeId, nat>, next: nat, id: NodeId, path: seq<string>, edit: Edit)
    returns (deep': map<NodeId, nat>)
    requires Deep(h, deep) && id in h && h[id].Mapping? && path != [] && Unused(h, next) && EditAt(h, next, id, path, edit).Edited?
    ensures Deep(EditAt(h, next, id, path, edit).h, deep')
    decreases |path|
  {
    hide OnlyNew, Deep, Shape, KeyIndex, IsChild;
    var h' := EditAt(h, next, id, path, edit).h;
    EditShape(h, next, id, path, edit);
    if GoesOn(h, id, path) {
      deep' := EditStaysDeep(h, deep, next, Next(h, id, path[0]).value.value, path[1..], edit);
    } else if |path| == 1 {
      deep' := DeepAtKey(h, deep, next, id, path, edit);
    } else {
      deep' := DeepWithSections(h, deep, next, id, path, edit);
    }
  }

  lemma DeepAtKey(h: Heap, deep: map<NodeId, nat>, next: nat, id: NodeId, path: seq<string>, edit: Edit) returns (deep': map<NodeId, nat>)
    requires Deep(h, deep) && id in h && h[id].Mapping? && |path| == 1 && Unused(h, next) && EditAt(h, next, id, path, edit).Edited?
    requires Shape(h, EditAt(h, next, id, path, edit).h, id, path[0], edit)
    ensures Deep(EditAt(h, next, id, path, edit).h, deep')
  {
    hide Deep, Shape, KeyIndex;
    var h' := EditAt(h, next, id, path, edit).h;
    assert deep.Keys == h.Keys by { DeepBelow(h, deep, id); }
    deep' := Raised(h, h', deep, map[], 1);
    KeyChildren(h, deep, next, id, path, edit);
    RaisedIsDeep(h, h', deep, map[], 1, id, path[0], edit);
  }

  lemma KeyChildren(h: Heap, deep: map<NodeId, nat>, next: nat, id: NodeId, path: seq<string>, edit: Edit)
    requires Deep(h, deep) && id in h && h[id].Mapping? && |path| == 1 && Unused(h, next) && EditAt(h, next, id, path, edit).Edited?
    ensures var h' := EditAt(h, next, id, path, edit).h;
      && (forall c :: IsChild(h', id, c) && c !in h ==> c in h')
      && (forall x, c :: x in h' && x !in h ==> !IsChild(h', x, c))
  {
    hide KeyIndex, IsChild;
    EntriesInHeap(h, deep, id);
    var h', content, i := EditAt(h, next, id, path, edit).h, h[id].content, KeyIndex(h, h[id].content, path[0]);
    forall e | e in h'[id].content ensures (e.key in h || e.key in h') && (e.value in h || e.value in h') {
      var j :| 0 <= j < |h'[id].content| && h'[id].content[j] == e;
      var j' := if edit.Unset? && j >= i then j + 1 else j;
      assert j' < |content| ==> content[j'] in content;
    }
    NewContentOf(h, h', id, path[0], edit, h'[id].content);
    forall x | x in h' && x !in h ensures forall c :: !IsChild(h', x, c) { NoChildren(h', x); }
  }

  lemma DeepWithSections(h: Heap, deep: map<NodeId, nat>, next: nat, id: NodeId, path: seq<string>, edit: Edit)
    returns (deep': map<NodeId, nat>)
    requires Deep(h, deep) && id in h && h[id].Mapping? && |path| > 1 && Unused(h, next) && !GoesOn(h, id, path)
    requires EditAt(h, next, id, path, edit).Edited? && Shape(h, EditAt(h, next, id, path, edit).h, id, path[0], edit)
    ensures Deep(EditAt(h, next, id, path, edit).h, deep')
  {
    hide Deep, Shape, KeyIndex, EditAt, OnlyNew, IsChild;
    var h' := EditAt(h, next, id, path, edit).h;
    var content := h[id].content;
    var i := KeyIndex(h, content, path[0]);
    GoesOnBySet(h, next, id, path, edit);
    EntriesInHeap(h, deep, id);
    var added: map<NodeId, nat>;
    if i < 0 {
      var h1 := Put(h, id, content + [Entry(next, next + 1)])[next := NewScalar(path[0], "")][next + 1 := Mapping([], "")];
      CreatesSection(h, next, id, path, edit);
      FillsNewSection(h1, next + 2, next + 1, path[1..], edit);
      added := FillRank(h1, next + 2, next + 1, path[1..], edit);
      assert h'[next] == h1[next];
      NoChildren(h', next);
      NewContentOf(h, h', id, path[0], edit, content + [Entry(next, next + 1)]);
    } else {
      var h1 := Put(h, id, content[i := content[i].(value := next)])[next := Mapping([], AnchorOf(h[content[i].value]))];
      FillsNewSection(h1, next + 1, next, path[1..], edit);
      added := FillRank(h1, next + 1, next, path[1..], edit);
      forall e | e in content[i := content[i].(value := next)] ensures (e.key in h || e.key in h') && (e.value in h || e.value in h') {
        var j :| 0 <= j < |content| && e == content[i := content[i].(value := next)][j];
        assert content[j] in content;
      }
      NewContentOf(h, h', id, path[0], edit, content[i := content[i].(value := next)]);
    }
    assert deep.Keys == h.Keys by { DeepBelow(h, deep, id); }
    deep' := Raised(h, h', deep, added, |path|);
    RaisedIsDeep(h, h', deep, added, |path|, id, path[0], edit);
  }

  lemma EntriesInHeap(h: Heap, deep: map<NodeId, nat>, id: NodeId)
    requires Deep(h, deep) && id in h && h[id].Mapping?
    ensures forall e :: e in h[id].content ==> e.key in h && e.value in h
  {
    hide IsChild;
    forall e | e in h[id].content ensures e.key in h && e.value in h {
      var i :| 0 <= i < |h[id].content| && h[id].content[i] == e;
      EntryIsChild(h, id, i);
    }
  }

  lemma NoChildren(h: Heap, x: NodeId)
    requires x in h && h[x].Scalar?
    ensures forall c :: !IsChild(h, x, c)
  {
  }

  /** What the edited section holds is in the edited tree. */
  lemma NewContentOf(h: Heap, h': Heap, id: NodeId, key: string, edit: Edit, content: seq<Entry>)
    requires id in h' && h'[id].Mapping? && h'[id].content == content
    requires forall e :: e in content ==> (e.key in h || e.key in h') && (e.value in h || e.value in h')
    ensures forall c :: IsChild(h', id, c) && c !in h ==> c in h'
  {
  }

  // ---- where the promise fails ----

  function Text(value: string): Node {
    Scalar(value, false, "")
  }

  /** `base: &b {t: {v: 1}}` and `s: {<<: *b}`. */
  const Inheriting: Heap := map[
    0 := Mapping([Entry(1, 2), Entry(3, 4)], ""),
    1 := Text("base"), 2 := Mapping([Entry(5, 6)], "b"),
    3 := Text("s"), 4 := Mapping([Entry(7, 8)], ""),
    5 := Text("t"), 6 := Mapping([Entry(9, 10)], ""),
    7 := Text("<<"), 8 := Alias(2, "b"),
    9 := Text("v"), 10 := Text("1")]

  /** The same, node by node. */
  ghost predicate IsInheriting(h: Heap) {
    && (forall x :: x in h <==> 0 <= x <= 10)
    && h[0] == Mapping([Entry(1, 2), Entry(3, 4)], "") && h[2] == Mapping([Entry(5, 6)], "b")
    && h[4] == Mapping([Entry(7, 8)], "") && h[6] == Mapping([Entry(9, 10)], "")
    && h[1] == Text("base") && h[3] == Text("s") && h[5] == Text("t") && h[7] == Text("<<") && h[9] == Text("v") && h[10] == Text("1")
    && h[8] == Alias(2, "b")
  }

  lemma InheritingIs()
    ensures IsInheriting(Inheriting)
  {
  }

  const InheritingRanks: map<NodeId, nat> := map[0 := 5, 1 := 0, 2 := 2, 3 := 0, 4 := 4, 5 := 0, 6 := 1, 7 := 0, 8 := 3, 9 := 0, 10 := 0]

  predicate Under(p: NodeId, c: NodeId) {
    (p == 0 && 1 <= c <= 4) || (p == 2 && 5 <= c <= 6) || (p == 4 && 7 <= c <= 8) || (p == 6 && 9 <= c <= 10)
  }

  lemma PairChildren(h: Heap, p: NodeId, e: Entry, c: NodeId)
    requires p in h && h[p].Mapping? && h[p].content == [e]
    ensures IsChild(h, p, c) <==> c == e.key || c == e.value
  {
    assert e in h[p].content;
    assert forall d :: d in h[p].content ==> d == e;
  }

  lemma RootChildren(h: Heap, c: NodeId)
    requires 0 in h && h[0] == Mapping([Entry(1, 2), Entry(3, 4)], "")
    ensures IsChild(h, 0, c) <==> 1 <= c <= 4
  {
    var content := h[0].content;
    assert content[0] in content && content[1] in content;
    assert forall d :: d in content ==> d == Entry(1, 2) || d == Entry(3, 4);
  }

  lemma InheritingChildren(h: Heap, p: NodeId, c: NodeId)
    requires IsInheriting(h)
    ensures IsChild(h, p, c) <==> Under(p, c)
  {
    RootChildren(h, c);
    PairChildren(h, 2, Entry(5, 6), c);
    PairChildren(h, 4, Entry(7, 8), c);
    PairChildren(h, 6, Entry(9, 10), c);
    if p !in {0, 2, 4, 6} && p in h { NotAContainer(h, p, c); }
  }

  lemma NotAContainer(h: Heap, p: NodeId, c: NodeId)
    requires p in h && !h[p].Mapping? && !h[p].Sequence?
    ensures !IsChild(h, p, c)
  {
  }

  lemma RanksAre()
    ensures (forall x :: x in InheritingRanks <==> 0 <= x <= 10) && (forall p, c :: Under(p, c) ==> p in InheritingRanks && c in InheritingRanks && InheritingRanks[c] < InheritingRanks[p])
    ensures InheritingRanks[2] < InheritingRanks[8]
  {
  }

  lemma InheritingIsDeep(h: Heap)
    requires IsInheriting(h)
    ensures Deep(h, InheritingRanks) && Ranked(h, 0, InheritingRanks) && UniqueParents(h)
  {
    hide IsChild;
    RanksAre();
    forall p, c ensures IsChild(h, p, c) <==> Under(p, c) {
      InheritingChildren(h, p, c);
    }
    assert forall a :: a in h && h[a].Alias? ==> a == 8;
    assert InheritingRanks.Keys == h.Keys;
    hide IsInheriting;
  }

  lemma InheritingReached(h: Heap, x: NodeId)
    requires IsInheriting(h) && x in h
    ensures In(h, 0, x)
  {
    hide IsChild, In;
    assert 0 <= x <= 10;
    forall p, c ensures IsChild(h, p, c) <==> Under(p, c) {
      InheritingChildren(h, p, c);
    }
    hide IsInheriting;
    InRefl(h, 0);
    if x != 0 {
      InStep(h, 0, 0, 2);
      InStep(h, 0, 0, 4);
      InStep(h, 0, 2, 6);
      InStep(h, 0, if x <= 4 then 0 else if x <= 6 then 2 else if x <= 8 then 4 else 6, x);
    }
  }

  lemma InheritingIsPlain(h: Heap)
    requires IsInheriting(h)
    ensures PlainFile(h, 0, InheritingRanks) && Unused(h, 11)
  {
    hide IsChild, In, PlainKeys, UniqueKeys, DistinctEntries, UniqueParents, Ranked;
    InheritingIsDeep(h);
    InheritingKeys(h);
    InheritingEntries(h);
    InheritingAliases(h);
    assert 0 in h && Unused(h, 11);
    hide IsInheriting;
    forall x | x in h ensures In(h, 0, x) { InheritingReached(h, x); }
  }

  lemma InheritingAliases(h: Heap)
    requires IsInheriting(h)
    ensures forall a :: a in h && h[a].Alias? ==> h[a].target in h && !h[h[a].target].Alias? && AnchorOf(h[h[a].target]) == h[a].name != ""
  {
    assert forall a :: a in h && h[a].Alias? ==> a == 8;
  }

  lemma InheritingEntries(h: Heap)
    requires IsInheriting(h)
    ensures forall p :: p in h && h[p].Mapping? ==> DistinctEntries(h[p].content)
  {
    assert forall p :: p in h && h[p].Mapping? ==> p == 0 || |h[p].content| == 1;
  }

  lemma InheritingKeys(h: Heap)
    requires IsInheriting(h)
    ensures PlainKeys(h) && UniqueKeys(h)
  {
    forall p, i | p in h && h[p].Mapping? && 0 <= i < |h[p].content|
      ensures h[p].content[i].key in h && h[h[p].content[i].key].Scalar? && NotReferred(h, h[p].content[i].key)
    {
      assert h[p].content[i].key in {1, 3, 5, 7, 9};
      assert forall a :: a in h && h[a].Alias? ==> a == 8;
    }
    assert forall p :: p in h && h[p].Mapping? ==> p == 0 || |h[p].content| == 1;
    assert DistinctKeys(h, h[0].content);
  }

  /** The check walks to s, finds no key t there, and lets the edit through. */
  lemma InheritingPasses(h: Heap)
    requires IsInheriting(h) && Ranked(h, 0, InheritingRanks)
    ensures !RefusesShared(h, 0, InheritingRanks, ["s", "t", "u"])
  {
    hide IsChild, Ranked, AliasRefs;
    InheritingFinds(h);
    assert ["s", "t", "u"][1..] == ["t", "u"];
    var refs := AliasRefs(h, 0, InheritingRanks, 0, [], []);
    assert !Shared(h, refs, 4);
    assert !RefuseAt(h, 0, InheritingRanks, refs, 4, [] + ["s"], ["t", "u"]);
  }

  lemma InheritingFinds(h: Heap)
    requires IsInheriting(h)
    ensures Next(h, 0, "s") == Some(Entry(3, 4)) && KeyIndex(h, h[0].content, "s") == 1
    ensures Next(h, 4, "t") == None && KeyIndex(h, h[4].content, "t") == -1
  {
    var i, j := KeyIndex(h, h[0].content, "s"), KeyIndex(h, h[4].content, "t");
    hide FindFrom;
    assert Named(h, h[0].content[1].key, "s") && !Named(h, h[0].content[0].key, "s") && !Named(h, h[4].content[0].key, "t");
  }

  lemma InheritingAccepts(h: Heap)
    requires IsInheriting(h) && PlainFile(h, 0, InheritingRanks) && Unused(h, 11)
    ensures Accepted(h, 11, 0, InheritingRanks, ["s", "t", "u"], SetTo("2"))
    ensures var path := ["s", "t", "u"];
      && Last(h, 0, path) == 4 && LastKey(h, 0, path) == "t" && !GoesOn(h, 4, ["t", "u"])
      && EditTree(h, 11, 0, path, SetTo("2")) == EditAt(h, 11, 4, ["t", "u"], SetTo("2"))
  {
    hide KeyIndex, OnlyNew, RefusesShared, PlainKeys, UniqueKeys, In, UniqueParents, Ranked, DistinctEntries;
    var path := ["s", "t", "u"];
    InheritingPasses(h);
    InheritingFinds(h);
    assert path[1..] == ["t", "u"] && GoesOn(h, 0, path);
    var h1 := Put(h, 4, h[4].content + [Entry(11, 12)])[11 := NewScalar("t", "")][12 := Mapping([], "")];
    CreatesSection(h, 11, 4, ["t", "u"], SetTo("2"));
    FillsNewSection(h1, 13, 12, ["t", "u"][1..], SetTo("2"));
  }

  /** `config set s.t.u 2` on that file is accepted, and gives s a section t of its own, which hides the one it
      inherits: s.t.v read 1 and reads nothing any more. */
  lemma InheritedIsHidden() returns (deep': map<NodeId, nat>)
    ensures PlainFile(Inheriting, 0, InheritingRanks) && Deep(Inheriting, InheritingRanks)
    ensures Accepted(Inheriting, 11, 0, InheritingRanks, ["s", "t", "u"], SetTo("2"))
    ensures ReadAt(Inheriting, InheritingRanks, 0, [Key("s"), Key("t"), Key("v")]) == Some(10) && Inheriting[10].value == "1"
    ensures var h' := EditTree(Inheriting, 11, 0, ["s", "t", "u"], SetTo("2")).h;
      Deep(h', deep') && 0 in h' && ReadAt(h', deep', 0, [Key("s"), Key("t"), Key("v")]) == None
  {
    InheritingIs();
    deep' := HiddenIn(Inheriting);
  }

  lemma HiddenIn(h: Heap) returns (deep': map<NodeId, nat>)
    requires IsInheriting(h)
    ensures PlainFile(h, 0, InheritingRanks) && Deep(h, InheritingRanks) && Accepted(h, 11, 0, InheritingRanks, ["s", "t", "u"], SetTo("2"))
    ensures ReadAt(h, InheritingRanks, 0, [Key("s"), Key("t"), Key("v")]) == Some(10)
    ensures var h' := EditTree(h, 11, 0, ["s", "t", "u"], SetTo("2")).h;
      Deep(h', deep') && 0 in h' && ReadAt(h', deep', 0, [Key("s"), Key("t"), Key("v")]) == None
  {
    hide Deep, Tree, PlainKeys, UniqueKeys, EditAt, RefusesShared, IsChild, ReadAt, ChildOf, Merged, Shape, Filled, FindFrom;
    var path, edit := ["s", "t", "u"], SetTo("2");
    InheritingIsDeep(h);
    InheritingIsPlain(h);
    InheritingAccepts(h);
    InheritedReads(h);
    deep' := EditStaysDeep(h, InheritingRanks, 11, 0, path, edit);
    EditShape(h, 11, 0, path, edit);
    HiddenReads(h, EditTree(h, 11, 0, path, edit).h, deep');
  }

  lemma InheritedReads(h: Heap)
    requires IsInheriting(h) && Deep(h, InheritingRanks)
    ensures ReadAt(h, InheritingRanks, 0, [Key("s"), Key("t"), Key("v")]) == Some(10)
  {
    hide Deep, IsChild, ReadAt, ChildOf, Merged;
    var steps := [Key("s"), Key("t"), Key("v")];
    ReadFirst(h, InheritingRanks, 0, steps);
    ReadFirst(h, InheritingRanks, 4, steps[1..]);
    ReadFirst(h, InheritingRanks, 6, steps[1..][1..]);
    assert steps[1..][1..][1..] == [];
    ReadsHereNothing(h, InheritingRanks, 10);
    OwnStep(h, InheritingRanks, 0, "s", 1);
    OwnStep(h, InheritingRanks, 6, "v", 0);
    MappingStep(h, InheritingRanks, 4, Key("t"));
    MergedInMapping(h, InheritingRanks, 4, "t", false);
    assert FindFrom(h, h[4].content, "<<", 0) == 0 && FindFrom(h, h[4].content, "t", 0) == -1;
    MergedInMapping(h, InheritingRanks, 2, "t", true);
    assert FindFrom(h, h[2].content, "t", 0) == 0;
    MergedOfAlias(h, InheritingRanks, 8, "t", true);
  }

  lemma OwnStep(h: Heap, deep: map<NodeId, nat>, x: NodeId, name: string, i: nat)
    requires Deep(h, deep) && x in h && h[x].Mapping? && name != "<<" && i < |h[x].content|
    requires Named(h, h[x].content[i].key, name) && forall j :: 0 <= j < i ==> !Named(h, h[x].content[j].key, name)
    ensures ChildOf(h, deep, x, Key(name)) == Some(h[x].content[i].value)
  {
    hide Deep, Merged, ChildOf, FindFrom, Named;
    MappingStep(h, deep, x, Key(name));
    MergedInMapping(h, deep, x, name, false);
    var f := FindFrom(h, h[x].content, name, 0);
  }

  lemma MergedOfAlias(h: Heap, deep: map<NodeId, nat>, a: NodeId, name: string, source: bool)
    requires Deep(h, deep) && a in h && h[a].Alias? && h[a].target in h
    ensures Merged(h, deep, a, name, source) == Merged(h, deep, h[a].target, name, source)
  {
    hide Deep;
  }

  lemma HiddenReads(h: Heap, h': Heap, deep': map<NodeId, nat>)
    requires IsInheriting(h) && Deep(h, InheritingRanks) && Ranked(h, 0, InheritingRanks) && Unused(h, 11) && Deep(h', deep')
    requires var r := EditAt(h, 11, 4, ["t", "u"], SetTo("2")); r.Edited? && r.h == h' && !GoesOn(h, 4, ["t", "u"])
    requires Shape(h, h', 4, "t", SetTo("2"))
    ensures 0 in h' && ReadAt(h', deep', 0, [Key("s"), Key("t"), Key("v")]) == None
  {
    hide Deep, IsChild, ReadAt, ChildOf, Merged, EditAt, Filled, FindFrom, OnlyNew, NewContent, KeyIndex;
    var steps := [Key("s"), Key("t"), Key("v")];
    assert h'[0] == h[0] && h'[1] == h[1] && h'[3] == h[3];
    OwnStep(h', deep', 0, "s", 1);
    StepAtKey(h, 11, InheritingRanks, h', deep', 0, InheritingRanks, 4, ["t", "u"], SetTo("2"));
    var c := ChildOf(h', deep', 4, Key("t")).value;
    assert ["t", "u"][1..] == ["u"];
    OneStepParts([Key("v")], ["u"]);
    assert !PlainAfterMerge(["u"]) by { assert ["u"][1..] == []; }
    NewReadsNothing(h, h', deep', c, ["u"], [Key("v")]);
    ReadFirst(h', deep', 0, steps);
    ReadFirst(h', deep', 4, steps[1..]);
    assert steps[1..][1..] == [Key("v")];
  }

  /** `config set <<.x 2` on the same file is accepted too: it writes a merge key into the root, which then
      reads as having x. */
  lemma MergeKeyIntroduces() returns (deep': map<NodeId, nat>)
    ensures PlainFile(Inheriting, 0, InheritingRanks) && Deep(Inheriting, InheritingRanks) && Accepted(Inheriting, 11, 0, InheritingRanks, ["<<", "x"], SetTo("2"))
    ensures var h' := EditTree(Inheriting, 11, 0, ["<<", "x"], SetTo("2")).h;
      && Deep(h', deep') && 0 in h' && !KeepsReading(Inheriting, InheritingRanks, h', deep', 0, ["<<", "x"])
      && ReadAt(Inheriting, InheritingRanks, 0, [Key("x")]) == None && ReadAt(h', deep', 0, [Key("x")]).Some?
  {
    InheritingIs();
    deep' := IntroducedIn(Inheriting);
  }

  lemma IntroducedIn(h: Heap) returns (deep': map<NodeId, nat>)
    requires IsInheriting(h)
    ensures PlainFile(h, 0, InheritingRanks) && Deep(h, InheritingRanks) && Accepted(h, 11, 0, InheritingRanks, ["<<", "x"], SetTo("2"))
    ensures var h' := EditTree(h, 11, 0, ["<<", "x"], SetTo("2")).h;
      && Deep(h', deep') && 0 in h' && !KeepsReading(h, InheritingRanks, h', deep', 0, ["<<", "x"])
      && ReadAt(h, InheritingRanks, 0, [Key("x")]) == None && ReadAt(h', deep', 0, [Key("x")]).Some?
  {
    hide Deep, Tree, PlainKeys, UniqueKeys, EditAt, RefusesShared, IsChild, Shape, FindFrom, Introduces, Hides, KeepsReading;
    var path, edit := ["<<", "x"], SetTo("2");
    InheritingIsDeep(h);
    InheritingIsPlain(h);
    RootTakesMergeKey(h);
    deep' := EditStaysDeep(h, InheritingRanks, 11, 0, path, edit);
    EditShape(h, 11, 0, path, edit);
    StaysInHeap(h, EditTree(h, 11, 0, path, edit).h, Last(h, 0, path), LastKey(h, 0, path), edit, 0);
    AcceptedEditReadsExactly(h, 11, InheritingRanks, deep', 0, InheritingRanks, path, edit);
    RootReadsMerged(h, deep');
  }

  lemma RootReadsMerged(h: Heap, deep': map<NodeId, nat>)
    requires IsInheriting(h) && Deep(h, InheritingRanks) && Unused(h, 11)
    requires var r := EditTree(h, 11, 0, ["<<", "x"], SetTo("2")); r.Edited? && Deep(r.h, deep') && 0 in r.h
    requires Shape(h, EditTree(h, 11, 0, ["<<", "x"], SetTo("2")).h, 0, "<<", SetTo("2"))
    ensures ReadAt(h, InheritingRanks, 0, [Key("x")]) == None
    ensures ReadAt(EditTree(h, 11, 0, ["<<", "x"], SetTo("2")).h, deep', 0, [Key("x")]).Some?
  {
    var p, edit := ["<<", "x"], SetTo("2");
    assert 0 in h;
    hide Deep, ReadAt, EditAt, FindFrom, Shape, KeyIndex, IsInheriting, Unused, FirstPlain, Named, Merged;
    RootKeys(h, EditTree(h, 11, 0, p, edit).h);
    MergedInMapping(h, InheritingRanks, 0, "x", false);
    ReadsMerged(h, InheritingRanks, 0, "x");
    var h' := EditAt(h, 11, 0, p, edit).h;
    NewKey(h, 11, 0, p, edit);
    NewSource(h, 11, deep', 0, p, edit, "x");
    assert p[1..] == ["x"];
    PlainFirst("x");
    ReadsNewSource(h', deep');
  }

  lemma ReadsNewSource(h: Heap, deep: map<NodeId, nat>)
    requires Deep(h, deep) && 0 in h && h[0].Mapping? && h[0].content == [Entry(1, 2), Entry(3, 4)] + [Entry(11, 12)] && Named(h, 11, "<<")
    requires !Named(h, 1, "x") && !Named(h, 3, "x") && !Named(h, 1, "<<") && !Named(h, 3, "<<")
    requires 12 in h && Merged(h, deep, 12, "x", true).Some?
    ensures ReadAt(h, deep, 0, [Key("x")]).Some?
  {
    hide Deep, ReadAt, FindFrom, Merged, Named;
    FindsOnlyMerge(h, h[0].content);
    MergedInMapping(h, deep, 0, "x", false);
    ReadsMerged(h, deep, 0, "x");
  }

  lemma PlainFirst(name: string)
    requires name != "<<"
    ensures FirstPlain([name]) == Some(name)
  {
  }

  /** A path of one plain key reads what the mapping has under it. */
  lemma ReadsMerged(h: Heap, deep: map<NodeId, nat>, x: NodeId, name: string)
    requires Deep(h, deep) && x in h && h[x].Mapping? && name != "<<"
    ensures ReadAt(h, deep, x, [Key(name)]) == Merged(h, deep, x, name, false)
  {
    hide Deep, ReadAt, ChildOf, Merged;
    MappingStep(h, deep, x, Key(name));
    ReadFirst(h, deep, x, [Key(name)]);
    assert [Key(name)][1..] == [];
    var c := ChildOf(h, deep, x, Key(name));
    if c.Some? { ReadsHereNothing(h, deep, c.value); }
  }

  lemma RootKeys(h: Heap, h': Heap)
    requires IsInheriting(h) && Shape(h, h', 0, "<<", SetTo("2"))
    ensures 0 in h && h[0].Mapping? && h[0].content == [Entry(1, 2), Entry(3, 4)] && KeyIndex(h, h[0].content, "<<") < 0
    ensures FindFrom(h, h[0].content, "<<", 0) < 0 && FindFrom(h, h[0].content, "x", 0) < 0
    ensures !Named(h', 1, "x") && !Named(h', 3, "x") && !Named(h', 1, "<<") && !Named(h', 3, "<<")
  {
    hide OnlyNew, NewContent;
    assert !Named(h, 1, "x") && !Named(h, 3, "x") && !Named(h, 1, "<<") && !Named(h, 3, "<<");
    assert h'[1] == h[1] && h'[3] == h[3];
  }

  lemma FindsOnlyMerge(h: Heap, content: seq<Entry>)
    requires content == [Entry(1, 2), Entry(3, 4), Entry(11, 12)] && Named(h, 11, "<<")
    requires !Named(h, 1, "x") && !Named(h, 3, "x") && !Named(h, 1, "<<") && !Named(h, 3, "<<")
    ensures FindFrom(h, content, "<<", 0) == 2 && FindFrom(h, content, "x", 0) < 0
  {
    var m, f := FindFrom(h, content, "<<", 0), FindFrom(h, content, "x", 0);
    hide FindFrom;
    assert content[0].key == 1 && content[1].key == 3 && content[2].key == 11;
  }

  lemma RootTakesMergeKey(h: Heap)
    requires IsInheriting(h) && Ranked(h, 0, InheritingRanks) && Unused(h, 11)
    ensures EditTree(h, 11, 0, ["<<", "x"], SetTo("2")).Edited? && !RefusesShared(h, 0, InheritingRanks, ["<<", "x"])
    ensures Introduces(h, 0, ["<<", "x"], SetTo("2"))
  {
    hide IsChild, Ranked, AliasRefs, OnlyNew;
    var path := ["<<", "x"];
    assert path[1..] == ["x"];
    assert Next(h, 0, "<<").None?;
    var h1 := Put(h, 0, h[0].content + [Entry(11, 12)])[11 := NewScalar("<<", "")][12 := Mapping([], "")];
    CreatesSection(h, 11, 0, path, SetTo("2"));
    FillsNewSection(h1, 13, 12, path[1..], SetTo("2"));
    hide EditAt;
    assert !Named(h, 1, "x") && !Named(h, 3, "x") && !Named(h, 1, "<<") && !Named(h, 3, "<<");
    assert FindFrom(h, h[0].content, "<<", 0) < 0 && FindFrom(h, h[0].content, "x", 0) < 0;
  }
}
