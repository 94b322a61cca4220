/** The promise of the configuration editor on the tree as it is written, where a merge key is a key like any
    other: an accepted edit changes the key it names and nothing else. YamlMerge says what that means for a
    reader who resolves merge keys. */
module YamlSafety {
  import opened YamlTree
  import opened YamlEdit
  import opened YamlAlias

  // ---- reading a value along a path ----

  datatype Step = Key(name: string) | Index(i: nat)

  function Steps(path: seq<string>): (r: seq<Step>)
    ensures |r| == |path| && forall i :: 0 <= i < |path| ==> r[i] == Key(path[i])
  {
    seq(|path|, i requires 0 <= i < |path| => Key(path[i]))
  }

  /** The node one step below x, following an alias. */
  function ChildAt(h: Heap, x: NodeId, step: Step): Option<NodeId> {
    var y := Deref(h, x);
    if y !in h then None
    else if h[y].Mapping? && step.Key? then
      var i := FindFrom(h, h[y].content, step.name, 0);
      if i < 0 then None else Some(h[y].content[i].value)
    else if h[y].Sequence? && step.Index? && step.i < |h[y].items| then Some(h[y].items[step.i])
    else None
  }

  function Locate(h: Heap, x: NodeId, steps: seq<Step>): Option<NodeId>
    decreases |steps|
  {
    if steps == [] then Some(x)
    else match ChildAt(h, x, steps[0])
      case None => None
      case Some(c) => Locate(h, c, steps[1..])
  }

  /** Two paths that part: neither leads to a value inside the other's. */
  predicate Part(steps: seq<Step>, path: seq<string>) {
    !(steps <= Steps(path)) && !(Steps(path) <= steps)
  }

  // ---- lookups agree where the trees do ----

  lemma FindSame(h: Heap, h': Heap, content: seq<Entry>, key: string)
    requires forall j :: 0 <= j < |content| ==> (Named(h', content[j].key, key) <==> Named(h, content[j].key, key))
    ensures FindFrom(h', content, key, 0) == FindFrom(h, content, key, 0)
  {
    hide Named;
    var i, i' := FindFrom(h, content, key, 0), FindFrom(h', content, key, 0);
    assert i >= 0 ==> Named(h', content[i].key, key);
    assert i' >= 0 ==> Named(h, content[i'].key, key);
  }

  lemma ChildInside(h: Heap, h': Heap, s: set<NodeId>, x: NodeId, step: Step)
    requires Closed(h, s) && Agree(h, h', s) && x in s
    ensures ChildAt(h', x, step) == ChildAt(h, x, step)
    ensures ChildAt(h, x, step).Some? ==> ChildAt(h, x, step).value in s
  {
    hide IsChild, FindFrom;
    var y := if h[x].Alias? then h[x].target else x;
    if h[y].Mapping? && step.Key? {
      var content := h[y].content;
      forall j | 0 <= j < |content| ensures content[j].key in s && content[j].value in s {
        EntryIsChild(h, y, j);
      }
      FindSame(h, h', content, step.name);
    } else if h[y].Sequence? && step.Index? && step.i < |h[y].items| {
      ItemIsChild(h, y, step.i);
    }
  }

  lemma {:induction false} LocateInside(h: Heap, h': Heap, s: set<NodeId>, x: NodeId, steps: seq<Step>)
    requires Closed(h, s) && Agree(h, h', s) && x in s
    ensures Locate(h', x, steps) == Locate(h, x, steps)
    ensures Locate(h, x, steps).Some? ==> Locate(h, x, steps).value in s
    decreases |steps|
  {
    hide ChildAt, Closed, Agree;
    if steps != [] {
      ChildInside(h, h', s, x, steps[0]);
      if ChildAt(h, x, steps[0]).Some? {
        LocateInside(h, h', s, ChildAt(h, x, steps[0]).value, steps[1..]);
      }
    }
  }

  // ---- lookups in the sections on the way ----

  lemma NamedKept(h: Heap, h': Heap, last: NodeId, key: string, edit: Edit, k: NodeId, name: string)
    requires last in h && h[last].Mapping? && Shape(h, h', last, key, edit) && k in h
    ensures Named(h', k, name) <==> Named(h, k, name)
  {
    hide NewContent, OnlyNew;
  }

  /** Below a section just filled, only the path it was filled along leads anywhere. */
  lemma {:induction false} OnlyFilledPath(h: Heap, next: nat, id: NodeId, path: seq<string>, edit: Edit, steps: seq<Step>)
    requires id in h && h[id].Mapping? && h[id].content == [] && path != [] && Unused(h, next) && edit.SetTo?
    requires Part(steps, path)
    ensures EditAt(h, next, id, path, edit).Edited? && Locate(EditAt(h, next, id, path, edit).h, id, steps) == None
    decreases |path|
  {
    hide OnlyNew, Part, Locate;
    EmptyHasNoKey(h, path[0]);
    var r := EditAt(h, next, id, path, edit);
    PartFirst(steps, path);
    var e := Entry(next, next + 1);
    assert h[id].content + [e] == [e];
    if |path| == 1 {
      assert r.h[id].content == [e] && Named(r.h, next, path[0]);
      OneEntry(r.h, id, e, path[0], steps[0]);
      LocateFirst(r.h, id, steps);
    } else {
      var h2 := Put(h, id, [e])[next := NewScalar(path[0], "")][next + 1 := Mapping([], "")];
      FillsNewSection(h2, next + 2, next + 1, path[1..], edit);
      assert r.h[id] == h2[id] && r.h[next] == h2[next];
      OneEntry(r.h, id, e, path[0], steps[0]);
      LocateFirst(r.h, id, steps);
      if steps[0] == Key(path[0]) {
        OnlyFilledPath(h2, next + 2, next + 1, path[1..], edit, steps[1..]);
      }
    }
  }

  lemma PartFirst(steps: seq<Step>, path: seq<string>)
    requires path != [] && Part(steps, path)
    ensures steps != []
    ensures steps[0] == Key(path[0]) ==> |path| > 1 && |steps| > 1 && Part(steps[1..], path[1..])
  {
    assert steps == [] ==> steps <= Steps(path);
    if steps != [] && steps[0] == Key(path[0]) {
      var all, tail := Steps(path), Steps(path[1..]);
      assert all[1..] == tail;
      hide Steps;
      PrefixTail(steps, all);
      PrefixTail(all, steps);
    }
  }

  lemma PrefixTail(a: seq<Step>, b: seq<Step>)
    requires a != [] && b != [] && a[0] == b[0]
    ensures a <= b <==> a[1..] <= b[1..]
  {
    assert a == [a[0]] + a[1..] && b == [b[0]] + b[1..];
  }

  lemma OneEntry(h: Heap, id: NodeId, e: Entry, name: string, step: Step)
    requires id in h && h[id].Mapping? && h[id].content == [e] && Named(h, e.key, name)
    ensures ChildAt(h, id, step) == if step == Key(name) then Some(e.value) else None
  {
  }

  lemma LocateFirst(h: Heap, id: NodeId, steps: seq<Step>)
    requires steps != []
    ensures Locate(h, id, steps) ==
      match ChildAt(h, id, steps[0]) { case None => None case Some(c) => Locate(h, c, steps[1..]) }
  {
    hide ChildAt;
  }

  // ---- values beside a section on the way ----

  lemma ChainStays(h: Heap, root: NodeId, rank: map<NodeId, nat>, path: seq<string>, edit: Edit, x: NodeId)
    requires Tree(h, root, rank) && h[root].Mapping? && path != [] && x in Chain(h, root, path)
    ensures !Dropped(h, root, path, edit, x)
  {
    hide IsChild, DistinctEntries, UniqueParents, In, Chain, Last, LastKey, Gone;
    if Dropped(h, root, path, edit, x) {
      var e := Gone(h, root, path).value;
      GoneHangs(h, root, path);
      LastIsLowest(h, root, rank, root, path);
      if In(h, e.value, x) {
        RankDown(h, root, rank, e.value, x);
      }
    }
  }

  lemma {:induction false} LastIsLowest(h: Heap, root: NodeId, rank: map<NodeId, nat>, id: NodeId, path: seq<string>)
    requires Ranked(h, root, rank) && id in h && h[id].Mapping? && path != []
    ensures forall x :: x in Chain(h, id, path) ==> rank[Last(h, id, path)] <= rank[x]
    decreases |path|
  {
    hide IsChild, KeyIndex;
    if GoesOn(h, id, path) {
      LastRank(h, root, rank, id, path);
      LastIsLowest(h, root, rank, Next(h, id, path[0]).value.value, path[1..]);
    }
  }

  lemma RankDown(h: Heap, root: NodeId, rank: map<NodeId, nat>, r: NodeId, x: NodeId)
    requires Ranked(h, root, rank) && In(h, r, x) && r in h
    ensures x in h && rank[x] <= rank[r]
    decreases rank[r]
  {
    hide IsChild, In;
    if x != r {
      var c := InFirst(h, r, x);
      RankDown(h, root, rank, c, x);
    }
  }

  /** A value beside the next key of a section on the way is outside the touched part. */
  lemma BesideIsSafe(h: Heap, root: NodeId, rank: map<NodeId, nat>, path: seq<string>, edit: Edit,
                     id: NodeId, p: seq<string>, f: nat)
    requires Tree(h, root, rank) && h[root].Mapping? && path != []
    requires id in Chain(h, root, path) && p != [] && f < |h[id].content|
    requires forall x :: x in Chain(h, root, path) ==> x in Chain(h, id, p) || rank[x] > rank[id]
    requires Last(h, id, p) == Last(h, root, path) && LastKey(h, id, p) == LastKey(h, root, path)
    requires f != KeyIndex(h, h[id].content, p[0])
    ensures Safe(h, root, path, edit, h[id].content[f].value)
  {
    hide IsChild, In, UniqueParents, Dropped, Chain, Last, LastKey, KeyIndex;
    var c := h[id].content[f].value;
    EntryIsChild(h, id, f);
    ChainStays(h, root, rank, path, edit, id);
    if c in Chain(h, root, path) {
      ChainChildIsNext(h, root, rank, id, p, c);
    }
    if Dropped(h, root, path, edit, c) {
      DroppedAbove(h, root, rank, path, edit, id, c);
      GoneOfDropped(h, root, path, edit, c);
      LastStops(h, root, rank, id, p);
    }
  }

  lemma LastStops(h: Heap, root: NodeId, rank: map<NodeId, nat>, id: NodeId, p: seq<string>)
    requires Ranked(h, root, rank) && id in h && h[id].Mapping? && p != [] && Last(h, id, p) == id
    ensures !GoesOn(h, id, p) && LastKey(h, id, p) == p[0]
  {
    LastRank(h, root, rank, id, p);
  }

  lemma ChainChildIsNext(h: Heap, root: NodeId, rank: map<NodeId, nat>, id: NodeId, p: seq<string>, c: NodeId)
    requires Ranked(h, root, rank) && UniqueParents(h) && id in h && h[id].Mapping? && p != []
    requires c in Chain(h, id, p) && IsChild(h, id, c)
    ensures Next(h, id, p[0]).Some? && Next(h, id, p[0]).value.value == c
  {
    hide IsChild, KeyIndex;
    var next := Next(h, id, p[0]).value.value;
    assert Chain(h, id, p) == [id] + Chain(h, next, p[1..]);
    if c != next {
      ChainHangs(h, next, p[1..], c);
      var q :| q in Chain(h, next, p[1..]) && IsChild(h, q, c);
      NextIsChild(h, id, p[0]);
      LastRank(h, root, rank, next, p[1..]);
    }
  }

  // ---- lookups in the section the edit happens in ----

  /** Lookups of a name find the same value in both contents, and never the entry at i. */
  predicate FindsSame(h: Heap, h': Heap, content: seq<Entry>, content': seq<Entry>, i: int, name: string) {
    var f, f' := FindFrom(h, content, name, 0), FindFrom(h', content', name, 0);
    (f < 0 <==> f' < 0) && (f >= 0 ==> f != i && content'[f'].value == content[f].value)
  }

  lemma FindRemoved(h: Heap, h': Heap, content: seq<Entry>, i: nat, name: string)
    requires i < |content| && !Named(h, content[i].key, name)
    requires forall j :: 0 <= j < |content| ==> (Named(h', content[j].key, name) <==> Named(h, content[j].key, name))
    ensures FindsSame(h, h', content, Remove(content, i), i, name)
  {
    hide FindFrom, Named;
    var content' := Remove(content, i);
    FindSame(h, h', content, name);
    var f, f' := FindFrom(h', content, name, 0), FindFrom(h', content', name, 0);
    var g := if f < i then f else f - 1;
    var g' := if f' < i then f' else f' + 1;
    assert f' >= 0 ==> content'[f'] == content[g'];
    assert f >= 0 ==> content'[g] == content[f];
    assert f >= 0 && f' >= 0 ==> f' <= g;
    assert f >= 0 ==> f' >= 0;
  }

  /** Later entries do not matter once one is found, and the keys alone decide. */
  lemma FindExtended(h: Heap, h': Heap, content: seq<Entry>, content': seq<Entry>, i: int, name: string)
    requires |content| <= |content'| && (i < |content| && (i >= 0 ==> !Named(h, content[i].key, name)))
    requires forall j :: 0 <= j < |content| ==> content'[j].key == content[j].key && (j != i ==> content'[j] == content[j])
    requires forall j :: 0 <= j < |content| ==> (Named(h', content[j].key, name) <==> Named(h, content[j].key, name))
    requires forall j :: |content| <= j < |content'| ==> !Named(h', content'[j].key, name)
    ensures FindsSame(h, h', content, content', i, name)
  {
    hide FindFrom, Named;
    var f, f' := FindFrom(h, content, name, 0), FindFrom(h', content', name, 0);
    assert f >= 0 ==> Named(h', content'[f].key, name);
    assert f' >= 0 ==> f' < |content| && Named(h, content[f'].key, name);
  }

  /** The section has another entry under `name`: the lookup finds the same value. */
  lemma FindBeside(h: Heap, h': Heap, content: seq<Entry>, content': seq<Entry>, i: int, edit: Edit, key: string, name: string)
    requires i < |content| && NewContent(h, content, content', i, edit) && name != key
    requires forall j :: 0 <= j < |content| ==> (Named(h', content[j].key, name) <==> Named(h, content[j].key, name))
    requires i >= 0 ==> Named(h, content[i].key, key)
    requires i < 0 ==> Named(h', content'[|content|].key, key)
    ensures FindsSame(h, h', content, content', i, name)
  {
    hide FindFrom, FindsSame;
    if i >= 0 && edit.Unset? {
      FindRemoved(h, h', content, i, name);
    } else {
      FindExtended(h, h', content, content', i, name);
    }
  }

  /** A key the section lacked goes to its end. */
  lemma NewKey(h: Heap, next: nat, id: NodeId, p: seq<string>, edit: Edit)
    requires id in h && h[id].Mapping? && p != [] && Unused(h, next) && EditAt(h, next, id, p, edit).Edited?
    requires KeyIndex(h, h[id].content, p[0]) < 0
    ensures var h' := EditAt(h, next, id, p, edit).h;
      id in h' && h'[id].Mapping? && h'[id].content == h[id].content + [Entry(next, next + 1)] && Named(h', next, p[0])
  {
    hide OnlyNew, KeyIndex;
    if |p| > 1 {
      var h1 := Put(h, id, h[id].content + [Entry(next, next + 1)])[next := NewScalar(p[0], "")][next + 1 := Mapping([], "")];
      FillsNewSection(h1, next + 2, next + 1, p[1..], edit);
    }
  }

  /** Below a section that an edit creates, or makes out of a null, there was nothing before and there is
      nothing off the path afterwards. */
  lemma CreatedHoldsOnlyPath(h: Heap, next: nat, id: NodeId, p: seq<string>, edit: Edit, steps: seq<Step>)
    requires id in h && h[id].Mapping? && |p| > 1 && Unused(h, next) && !GoesOn(h, id, p) && EditAt(h, next, id, p, edit).Edited?
    requires Part(steps, p[1..])
    ensures var h' := EditAt(h, next, id, p, edit).h; var content := h[id].content; var i := KeyIndex(h, content, p[0]);
      && id in h' && h'[id].Mapping?
      && (i < 0 ==> h'[id].content == content + [Entry(next, next + 1)] && Locate(h', next + 1, steps) == None)
      && (i >= 0 ==> h'[id].content == content[i := content[i].(value := next)] && Locate(h', next, steps) == None
                     && Locate(h, content[i].value, steps) == None)
  {
    hide OnlyNew, Part, KeyIndex, Locate, EditAt;
    GoesOnBySet(h, next, id, p, edit);
    var content := h[id].content;
    var i := KeyIndex(h, content, p[0]);
    if i < 0 {
      var h1 := Put(h, id, content + [Entry(next, next + 1)])[next := NewScalar(p[0], "")][next + 1 := Mapping([], "")];
      CreatesSection(h, next, id, p, edit);
      FillsNewSection(h1, next + 2, next + 1, p[1..], edit);
      OnlyFilledPath(h1, next + 2, next + 1, p[1..], edit, steps);
    } else {
      var h1 := Put(h, id, content[i := content[i].(value := next)])[next := Mapping([], AnchorOf(h[content[i].value]))];
      FillsNewSection(h1, next + 1, next, p[1..], edit);
      OnlyFilledPath(h1, next + 1, next, p[1..], edit, steps);
      PartFirst(steps, p[1..]);
      LocateFirst(h, content[i].value, steps);
    }
  }

  // ---- the theorems ----

  /** Where the walk stands: `id` is a section on the way and `p` the rest of the path from it. */
  ghost predicate OnTheWay(h: Heap, next: nat, root: NodeId, rank: map<NodeId, nat>, path: seq<string>, edit: Edit,
                           id: NodeId, p: seq<string>)
    requires Tree(h, root, rank) && h[root].Mapping? && path != []
  {
    && p != [] && id in Chain(h, root, path)
    && (forall x :: x in Chain(h, id, p) ==> x in Chain(h, root, path))
    && (forall x :: x in Chain(h, root, path) ==> x in Chain(h, id, p) || rank[x] > rank[id])
    && Last(h, id, p) == Last(h, root, path) && LastKey(h, id, p) == LastKey(h, root, path)
    && EditAt(h, next, id, p, edit) == EditAt(h, next, root, path, edit)
  }

  lemma OneStepOn(h: Heap, next: nat, root: NodeId, rank: map<NodeId, nat>, path: seq<string>, edit: Edit,
                  id: NodeId, p: seq<string>)
    requires Tree(h, root, rank) && h[root].Mapping? && path != []
    requires OnTheWay(h, next, root, rank, path, edit, id, p) && GoesOn(h, id, p)
    requires EditAt(h, next, root, path, edit).Edited?
    ensures OnTheWay(h, next, root, rank, path, edit, Next(h, id, p[0]).value.value, p[1..])
  {
    hide In, IsChild, UniqueParents, DistinctEntries, KeyIndex;
    var child := Next(h, id, p[0]).value.value;
    NextIsChild(h, id, p[0]);
    assert Chain(h, id, p) == [id] + Chain(h, child, p[1..]);
    assert child in Chain(h, child, p[1..]);
  }

  /** The values a step off the path leads to, in a section on the way other than the last. */
  lemma StepInSection(h: Heap, next: nat, h': Heap, root: NodeId, rank: map<NodeId, nat>, path: seq<string>, edit: Edit,
                      id: NodeId, p: seq<string>, step: Step)
    requires Tree(h, root, rank) && h[root].Mapping? && path != []
    requires Shape(h, h', Last(h, root, path), LastKey(h, root, path), edit)
    requires OnTheWay(h, next, root, rank, path, edit, id, p) && id != Last(h, root, path)
    ensures ChildAt(h', id, step) == ChildAt(h, id, step)
    ensures step == Key(p[0]) && KeyIndex(h, h[id].content, p[0]) >= 0 ==>
      ChildAt(h, id, step) == Some(Next(h, id, p[0]).value.value)
    ensures step != Key(p[0]) && ChildAt(h, id, step).Some? ==> Safe(h, root, path, edit, ChildAt(h, id, step).value)
  {
    hide In, IsChild, UniqueParents, Chain, Last, LastKey, Dropped, OnlyNew, NewContent, EditAt, FindFrom, Safe;
    if step.Key? {
      var content := h[id].content;
      KeysInHeap(h, root, rank, id);
      forall j | 0 <= j < |content|
        ensures Named(h', content[j].key, step.name) <==> Named(h, content[j].key, step.name)
      {
        NamedKept(h, h', Last(h, root, path), LastKey(h, root, path), edit, content[j].key, step.name);
      }
      FindSame(h, h', content, step.name);
      var f := FindFrom(h, content, step.name, 0);
      if f >= 0 && step.name != p[0] {
        BesideIsSafe(h, root, rank, path, edit, id, p, f);
      }
    }
  }

  lemma KeysInHeap(h: Heap, root: NodeId, rank: map<NodeId, nat>, id: NodeId)
    requires Ranked(h, root, rank) && id in h && h[id].Mapping?
    ensures forall j :: 0 <= j < |h[id].content| ==> h[id].content[j].key in h
  {
    hide IsChild;
    forall j | 0 <= j < |h[id].content| ensures h[id].content[j].key in h {
      EntryIsChild(h, id, j);
    }
  }

  lemma KeyedStep(h: Heap, id: NodeId, name: string)
    requires id in h && h[id].Mapping?
    ensures var f := FindFrom(h, h[id].content, name, 0);
      ChildAt(h, id, Key(name)) == if f < 0 then None else Some(h[id].content[f].value)
  {
  }

  /** The same in the last section, for steps that do not name the key sought there. */
  lemma StepInLast(h: Heap, next: nat, h': Heap, root: NodeId, rank: map<NodeId, nat>, path: seq<string>, edit: Edit,
                   id: NodeId, p: seq<string>, step: Step)
    requires Tree(h, root, rank) && h[root].Mapping? && path != [] && Unused(h, next)
    requires Shape(h, h', Last(h, root, path), LastKey(h, root, path), edit)
    requires OnTheWay(h, next, root, rank, path, edit, id, p) && id == Last(h, root, path)
    requires EditAt(h, next, root, path, edit).Edited? && EditAt(h, next, root, path, edit).h == h'
    requires step != Key(p[0])
    ensures ChildAt(h', id, step) == ChildAt(h, id, step)
    ensures ChildAt(h, id, step).Some? ==> Safe(h, root, path, edit, ChildAt(h, id, step).value)
  {
    hide In, IsChild, UniqueParents, Chain, Last, LastKey, Dropped, OnlyNew, NewContent, EditAt, FindFrom, Safe, KeyIndex;
    if step.Key? {
      var content, content' := h[id].content, h'[id].content;
      LastStops(h, root, rank, id, p);
      var i := KeyIndex(h, content, p[0]);
      KeysInHeap(h, root, rank, id);
      forall j | 0 <= j < |content|
        ensures Named(h', content[j].key, step.name) <==> Named(h, content[j].key, step.name)
      {
        NamedKept(h, h', Last(h, root, path), LastKey(h, root, path), edit, content[j].key, step.name);
      }
      if i < 0 { NewKey(h, next, id, p, edit); }
      FindBeside(h, h', content, content', i, edit, p[0], step.name);
      KeyedStep(h, id, step.name);
      KeyedStep(h', id, step.name);
      var f := FindFrom(h, content, step.name, 0);
      if f >= 0 {
        BesideIsSafe(h, root, rank, path, edit, id, p, f);
      }
    }
  }

  /** In the last section, a step along the path leads into what the edit creates, or to a merge value. */
  lemma StepIntoNew(h: Heap, next: nat, h': Heap, root: NodeId, rank: map<NodeId, nat>, path: seq<string>, edit: Edit,
                    id: NodeId, p: seq<string>, steps: seq<Step>)
    requires Tree(h, root, rank) && h[root].Mapping? && path != [] && Unused(h, next)
    requires Shape(h, h', Last(h, root, path), LastKey(h, root, path), edit)
    requires OnTheWay(h, next, root, rank, path, edit, id, p) && id == Last(h, root, path)
    requires EditAt(h, next, root, path, edit).Edited? && EditAt(h, next, root, path, edit).h == h'
    requires |p| > 1 && Part(steps, p[1..])
    ensures var c, c' := ChildAt(h, id, Key(p[0])), ChildAt(h', id, Key(p[0]));
      || (c.Some? && c' == c && Safe(h, root, path, edit, c.value))
      || ((c.None? || Locate(h, c.value, steps) == None) && (c'.None? || Locate(h', c'.value, steps) == None))
  {
    hide In, IsChild, UniqueParents, Chain, Last, LastKey, Dropped, OnlyNew, NewContent, EditAt, Safe, Part, Locate, FindFrom, DistinctEntries,
      ChildAt;
    var content, content' := h[id].content, h'[id].content;
    var i := KeyIndex(h, content, p[0]);
    LastStops(h, root, rank, id, p);
    CreatedHoldsOnlyPath(h, next, id, p, edit, steps);
    KeysInHeap(h, root, rank, id);
    forall j | 0 <= j < |content| ensures Named(h', content[j].key, p[0]) <==> Named(h, content[j].key, p[0]) {
      NamedKept(h, h', Last(h, root, path), LastKey(h, root, path), edit, content[j].key, p[0]);
    }
    KeyedStep(h, id, p[0]);
    KeyedStep(h', id, p[0]);
    var f, f' := FindFrom(h, content, p[0], 0), FindFrom(h', content', p[0], 0);
    if i < 0 {
      NewKey(h, next, id, p, edit);
      FindAppended(h, h', content, content', p[0]);
      if f >= 0 { BesideIsSafe(h, root, rank, path, edit, id, p, f); }
    } else {
      FindReplaced(h, h', content, content', i, p[0]);
    }
  }

  lemma FindAppended(h: Heap, h': Heap, content: seq<Entry>, content': seq<Entry>, name: string)
    requires |content'| == |content| + 1 && content' == content + [content'[|content|]] && Named(h', content'[|content|].key, name)
    requires forall j :: 0 <= j < |content| ==> (Named(h', content[j].key, name) <==> Named(h, content[j].key, name))
    ensures FindFrom(h', content', name, 0) ==
      if FindFrom(h, content, name, 0) >= 0 then FindFrom(h, content, name, 0) else |content|
  {
    hide FindFrom, Named;
    var f, f' := FindFrom(h, content, name, 0), FindFrom(h', content', name, 0);
    assert f >= 0 ==> Named(h', content'[f].key, name);
    assert 0 <= f' < |content| ==> Named(h, content[f'].key, name);
  }

  lemma FindReplaced(h: Heap, h': Heap, content: seq<Entry>, content': seq<Entry>, i: nat, name: string)
    requires i == FindFrom(h, content, name, 0) && |content'| == |content|
    requires forall j :: 0 <= j < |content| ==> content'[j].key == content[j].key
    requires forall j :: 0 <= j < |content| ==> (Named(h', content[j].key, name) <==> Named(h, content[j].key, name))
    ensures FindFrom(h', content', name, 0) == i
  {
    hide FindFrom, Named;
    var f' := FindFrom(h', content', name, 0);
    assert Named(h', content'[i].key, name);
    assert f' >= 0 ==> Named(h, content[f'].key, name);
  }

  /** From a section on the way, a path that parts from the edited one finds the same node as before, and
      one outside the touched part. */
  lemma {:induction false} OffPathFrom(h: Heap, next: nat, h': Heap, root: NodeId, rank: map<NodeId, nat>, path: seq<string>,
                                       edit: Edit, id: NodeId, p: seq<string>, steps: seq<Step>)
    requires Tree(h, root, rank) && h[root].Mapping? && path != [] && Unused(h, next) && NoAliasInto(h, root, path, edit)
    requires Shape(h, h', Last(h, root, path), LastKey(h, root, path), edit)
    requires p != [] && OnTheWay(h, next, root, rank, path, edit, id, p) && Part(steps, p)
    requires EditAt(h, next, root, path, edit).Edited? && EditAt(h, next, root, path, edit).h == h'
    ensures Locate(h', id, steps) == Locate(h, id, steps)
    ensures Locate(h, id, steps).Some? ==> Safe(h, root, path, edit, Locate(h, id, steps).value)
    decreases |p|
  {
    hide In, IsChild, UniqueParents, Chain, Last, LastKey, Dropped, Shape, EditAt, Safe, Part, Locate, NoAliasInto, ChildAt, DistinctEntries,
      OnTheWay, Closed, Agree;
    PartFirst(steps, p);
    LocateFirst(h, id, steps);
    LocateFirst(h', id, steps);
    var c := ChildAt(h, id, steps[0]);
    if id != Last(h, root, path) {
      StepInSection(h, next, h', root, rank, path, edit, id, p, steps[0]);
      GoesOnBeforeLast(h, next, root, rank, path, edit, id, p);
      if steps[0] == Key(p[0]) {
        OneStepOn(h, next, root, rank, path, edit, id, p);
        OffPathFrom(h, next, h', root, rank, path, edit, c.value, p[1..], steps[1..]);
      } else if c.Some? {
        FromSafe(h, h', root, rank, path, edit, c.value, steps[1..]);
      }
    } else if steps[0] == Key(p[0]) {
      StepIntoNew(h, next, h', root, rank, path, edit, id, p, steps[1..]);
      if c.Some? && ChildAt(h', id, steps[0]) == c && Safe(h, root, path, edit, c.value) {
        FromSafe(h, h', root, rank, path, edit, c.value, steps[1..]);
      }
    } else {
      StepInLast(h, next, h', root, rank, path, edit, id, p, steps[0]);
      if c.Some? {
        FromSafe(h, h', root, rank, path, edit, c.value, steps[1..]);
      }
    }
  }

  lemma GoesOnBeforeLast(h: Heap, next: nat, root: NodeId, rank: map<NodeId, nat>, path: seq<string>, edit: Edit,
                         id: NodeId, p: seq<string>)
    requires Tree(h, root, rank) && h[root].Mapping? && path != []
    requires OnTheWay(h, next, root, rank, path, edit, id, p) && id != Last(h, root, path)
    ensures id in h && h[id].Mapping? && p != [] && GoesOn(h, id, p) && KeyIndex(h, h[id].content, p[0]) >= 0
  {
    hide In, IsChild, UniqueParents, EditAt;
  }

  lemma FromSafe(h: Heap, h': Heap, root: NodeId, rank: map<NodeId, nat>, path: seq<string>, edit: Edit, x: NodeId, steps: seq<Step>)
    requires Tree(h, root, rank) && h[root].Mapping? && path != [] && NoAliasInto(h, root, path, edit)
    requires Shape(h, h', Last(h, root, path), LastKey(h, root, path), edit) && Safe(h, root, path, edit, x)
    ensures Locate(h', x, steps) == Locate(h, x, steps)
    ensures Locate(h, x, steps).Some? ==> Safe(h, root, path, edit, Locate(h, x, steps).value)
  {
    hide In, IsChild, UniqueParents, Chain, Last, LastKey, Dropped, Shape, Locate, NoAliasInto, Closed, Agree, Ranked, DistinctEntries;
    SafeIsClosed(h, root, rank, path, edit);
    SafeAgrees(h, h', root, path, edit);
    LocateInside(h, h', SafeSet(h, root, path, edit), x, steps);
  }

  /** If no alias that stays leads into the touched part, every path that parts from the edited one leads to
      the same node of the tree as before, with the same meaning, and to nothing where it led to nothing. */
  lemma RestUnchanged(h: Heap, next: nat, root: NodeId, rank: map<NodeId, nat>, path: seq<string>, edit: Edit, steps: seq<Step>)
    requires Tree(h, root, rank) && h[root].Mapping? && path != [] && Unused(h, next) && NoAliasInto(h, root, path, edit)
    requires EditAt(h, next, root, path, edit).Edited? && Part(steps, path)
    ensures var h' := EditAt(h, next, root, path, edit).h;
      Locate(h', root, steps) == Locate(h, root, steps) &&
      (Locate(h, root, steps).Some? ==> SameMeaning(h, h', Locate(h, root, steps).value))
  {
    hide In, IsChild, UniqueParents, Last, LastKey, Dropped, Shape, Locate, NoAliasInto, EditAt, Part, Ranked, DistinctEntries, Closed,
      Agree, Expand;
    var h' := EditAt(h, next, root, path, edit).h;
    EditShape(h, next, root, path, edit);
    assert OnTheWay(h, next, root, rank, path, edit, root, path);
    OffPathFrom(h, next, h', root, rank, path, edit, root, path, steps);
    var found := Locate(h, root, steps);
    if found.Some? {
      SafeIsClosed(h, root, rank, path, edit);
      SafeAgrees(h, h', root, path, edit);
      forall depth: nat ensures Expand(h', found.value, depth) == Expand(h, found.value, depth) {
        MeaningKept(h, h', SafeSet(h, root, path, edit), found.value, depth);
      }
    }
  }

  // ---- the edit itself ----

  ghost predicate Reads(h: Heap, x: NodeId, path: seq<string>, value: string) {
    var found := Locate(h, x, Steps(path));
    found.Some? && found.value in h && h[found.value].Scalar? && h[found.value].value == value
  }

  lemma ReadsBelow(h: Heap, x: NodeId, path: seq<string>, value: string, c: NodeId)
    requires path != [] && ChildAt(h, x, Key(path[0])) == Some(c) && Reads(h, c, path[1..], value)
    ensures Reads(h, x, path, value)
  {
    hide ChildAt, Locate;
    assert Steps(path) == [Key(path[0])] + Steps(path[1..]);
    assert Steps(path)[1..] == Steps(path[1..]);
    LocateFirst(h, x, Steps(path));
  }

  lemma ReadsHere(h: Heap, x: NodeId, path: seq<string>, value: string)
    requires path == [] && x in h && h[x].Scalar? && h[x].value == value
    ensures Reads(h, x, path, value)
  {
  }

  lemma {:induction false} FilledReads(h: Heap, next: nat, id: NodeId, path: seq<string>, edit: Edit)
    requires id in h && h[id].Mapping? && h[id].content == [] && path != [] && Unused(h, next) && edit.SetTo?
    ensures EditAt(h, next, id, path, edit).Edited? && Reads(EditAt(h, next, id, path, edit).h, id, path, edit.value)
    decreases |path|
  {
    hide OnlyNew, Reads;
    EmptyHasNoKey(h, path[0]);
    var r := EditAt(h, next, id, path, edit);
    var e := Entry(next, next + 1);
    assert h[id].content + [e] == [e];
    if |path| == 1 {
      ReadsHere(r.h, next + 1, path[1..], edit.value);
    } else {
      var h2 := Put(h, id, [e])[next := NewScalar(path[0], "")][next + 1 := Mapping([], "")];
      FillsNewSection(h2, next + 2, next + 1, path[1..], edit);
      FilledReads(h2, next + 2, next + 1, path[1..], edit);
    }
    OneEntry(r.h, id, e, path[0], Key(path[0]));
    ReadsBelow(r.h, id, path, edit.value, next + 1);
  }

  /** In the last section, the key leads to the new value or to the section created for it. */
  lemma SetAtLast(h: Heap, next: nat, id: NodeId, root: NodeId, rank: map<NodeId, nat>, p: seq<string>, edit: Edit)
    requires Ranked(h, root, rank) && id in h && h[id].Mapping? && p != [] && Unused(h, next) && !GoesOn(h, id, p)
    requires p[0] == "<<" ==> FindFrom(h, h[id].content, p[0], 0) < 0
    requires edit.SetTo? && EditAt(h, next, id, p, edit).Edited?
    ensures Reads(EditAt(h, next, id, p, edit).h, id, p, edit.value)
  {
    hide OnlyNew, Reads, IsChild, FindFrom;
    var content := h[id].content;
    var i := KeyIndex(h, content, p[0]);
    var h' := EditAt(h, next, id, p, edit).h;
    var c := if i < 0 then next + 1 else next;
    KeysInHeap(h, root, rank, id);
    SetContent(h, next, id, p, edit);
    KeyedStep(h', id, p[0]);
    if i < 0 {
      FindAppended(h, h', content, h'[id].content, p[0]);
    } else {
      FindReplaced(h, h', content, h'[id].content, i, p[0]);
    }
    ReadsBelow(h', id, p, edit.value, c);
  }

  /** What a set leaves in the last section: the key leads to a new node that reads as the value. */
  ghost predicate Placed(h: Heap, h': Heap, next: nat, id: NodeId, p: seq<string>, value: string)
    requires id in h && h[id].Mapping? && p != []
  {
    var content := h[id].content;
    var i := KeyIndex(h, content, p[0]);
    && id in h' && h'[id].Mapping?
    && (forall k :: k in h ==> k in h' && (k == id || h'[k] == h[k]))
    && (i < 0 ==> h'[id].content == content + [Entry(next, next + 1)] && Named(h', next, p[0])
                  && Reads(h', next + 1, p[1..], value))
    && (i >= 0 ==> h'[id].content == content[i := content[i].(value := next)] && Reads(h', next, p[1..], value))
  }

  lemma SetContent(h: Heap, next: nat, id: NodeId, p: seq<string>, edit: Edit)
    requires id in h && h[id].Mapping? && p != [] && Unused(h, next) && !GoesOn(h, id, p)
    requires edit.SetTo? && EditAt(h, next, id, p, edit).Edited?
    ensures Placed(h, EditAt(h, next, id, p, edit).h, next, id, p, edit.value)
  {
    hide KeyIndex, Reads, Placed, EditAt;
    var i := KeyIndex(h, h[id].content, p[0]);
    if |p| == 1 {
      PlacedKey(h, next, id, p, edit);
    } else if i < 0 {
      PlacedSection(h, next, id, p, edit);
    } else {
      PlacedForNull(h, next, id, p, edit);
    }
  }

  lemma PlacedKey(h: Heap, next: nat, id: NodeId, p: seq<string>, edit: Edit)
    requires id in h && h[id].Mapping? && |p| == 1 && Unused(h, next)
    requires edit.SetTo? && EditAt(h, next, id, p, edit).Edited?
    ensures Placed(h, EditAt(h, next, id, p, edit).h, next, id, p, edit.value)
  {
    hide KeyIndex, Reads;
    var i := KeyIndex(h, h[id].content, p[0]);
    ReadsHere(EditAt(h, next, id, p, edit).h, if i < 0 then next + 1 else next, p[1..], edit.value);
  }

  lemma PlacedSection(h: Heap, next: nat, id: NodeId, p: seq<string>, edit: Edit)
    requires id in h && h[id].Mapping? && |p| > 1 && Unused(h, next) && KeyIndex(h, h[id].content, p[0]) < 0
    requires edit.SetTo? && EditAt(h, next, id, p, edit).Edited?
    ensures Placed(h, EditAt(h, next, id, p, edit).h, next, id, p, edit.value)
  {
    hide OnlyNew, KeyIndex, Reads, EditAt;
    var h1 := Put(h, id, h[id].content + [Entry(next, next + 1)])[next := NewScalar(p[0], "")][next + 1 := Mapping([], "")];
    CreatesSection(h, next, id, p, edit);
    FillsNewSection(h1, next + 2, next + 1, p[1..], edit);
    FilledReads(h1, next + 2, next + 1, p[1..], edit);
    var h' := EditAt(h1, next + 2, next + 1, p[1..], edit).h;
    assert h'[id] == h1[id] && h'[next] == h1[next];
    forall k | k in h ensures k in h' && (k == id || h'[k] == h[k]) {
      assert k in h1 && k != next + 1;
    }
  }

  lemma PlacedForNull(h: Heap, next: nat, id: NodeId, p: seq<string>, edit: Edit)
    requires id in h && h[id].Mapping? && |p| > 1 && Unused(h, next) && !GoesOn(h, id, p) && KeyIndex(h, h[id].content, p[0]) >= 0
    requires edit.SetTo? && EditAt(h, next, id, p, edit).Edited?
    ensures Placed(h, EditAt(h, next, id, p, edit).h, next, id, p, edit.value)
  {
    hide OnlyNew, KeyIndex, Reads, EditAt;
    GoesOnBySet(h, next, id, p, edit);
    var content := h[id].content;
    var i := KeyIndex(h, content, p[0]);
    var h1 := Put(h, id, content[i := content[i].(value := next)])[next := Mapping([], AnchorOf(h[content[i].value]))];
    FillsNewSection(h1, next + 1, next, p[1..], edit);
    FilledReads(h1, next + 1, next, p[1..], edit);
  }

  /** The path stops at a merge key that the section already has: the editor appends another one. */
  predicate Shadowed(h: Heap, id: NodeId, p: seq<string>)
    requires id in h && h[id].Mapping? && p != []
  {
    LastKey(h, id, p) == "<<" && FindFrom(h, h[Last(h, id, p)].content, "<<", 0) >= 0
  }

  /** Then lookups go on finding the one that was there. */
  lemma {:induction false} ShadowedStays(h: Heap, next: nat, root: NodeId, rank: map<NodeId, nat>, id: NodeId, p: seq<string>, edit: Edit)
    requires Ranked(h, root, rank) && id in h && h[id].Mapping? && p != [] && Unused(h, next) && Shadowed(h, id, p)
    requires edit.SetTo? && EditAt(h, next, id, p, edit).Edited?
    ensures ChildAt(h, Last(h, id, p), Key("<<")).Some?
    ensures ChildAt(EditAt(h, next, id, p, edit).h, Last(h, id, p), Key("<<")) == ChildAt(h, Last(h, id, p), Key("<<"))
    decreases |p|
  {
    hide OnlyNew, IsChild, FindFrom, NewContent, Reads;
    if GoesOn(h, id, p) {
      ShadowedStays(h, next, root, rank, Next(h, id, p[0]).value.value, p[1..], edit);
    } else {
      var h' := EditAt(h, next, id, p, edit).h;
      KeysInHeap(h, root, rank, id);
      SetContent(h, next, id, p, edit);
      FindAppended(h, h', h[id].content, h'[id].content, "<<");
      KeyedStep(h, id, "<<");
      KeyedStep(h', id, "<<");
    }
  }

  lemma {:induction false} SetTakesEffectFrom(h: Heap, next: nat, root: NodeId, rank: map<NodeId, nat>, id: NodeId, p: seq<string>,
                                              edit: Edit)
    requires Ranked(h, root, rank) && id in h && h[id].Mapping? && p != [] && Unused(h, next) && !Shadowed(h, id, p)
    requires edit.SetTo? && EditAt(h, next, id, p, edit).Edited?
    ensures Reads(EditAt(h, next, id, p, edit).h, id, p, edit.value)
    decreases |p|
  {
    hide OnlyNew, Reads, IsChild, FindFrom, NewContent;
    if GoesOn(h, id, p) {
      var h' := EditAt(h, next, id, p, edit).h;
      var child := Next(h, id, p[0]).value.value;
      SetTakesEffectFrom(h, next, root, rank, child, p[1..], edit);
      EditShape(h, next, id, p, edit);
      LastRank(h, root, rank, id, p);
      SameStep(h, h', root, rank, id, Last(h, id, p), LastKey(h, id, p), edit, p[0]);
      ReadsBelow(h', id, p, edit.value, child);
    } else {
      SetAtLast(h, next, id, root, rank, p, edit);
    }
  }

  lemma SameStep(h: Heap, h': Heap, root: NodeId, rank: map<NodeId, nat>, id: NodeId, last: NodeId, key: string, edit: Edit, name: string)
    requires Ranked(h, root, rank) && id in h && h[id].Mapping? && last in h && h[last].Mapping? && id != last
    requires Shape(h, h', last, key, edit)
    ensures ChildAt(h', id, Key(name)) == ChildAt(h, id, Key(name))
  {
    hide OnlyNew, IsChild, FindFrom, NewContent, Named;
    KeysInHeap(h, root, rank, id);
    forall j | 0 <= j < |h[id].content|
      ensures Named(h', h[id].content[j].key, name) <==> Named(h, h[id].content[j].key, name)
    {
      NamedKept(h, h', last, key, edit, h[id].content[j].key, name);
    }
    FindSame(h, h', h[id].content, name);
  }

  lemma {:induction false} UnsetTakesEffectFrom(h: Heap, next: nat, root: NodeId, rank: map<NodeId, nat>, id: NodeId,
                                                p: seq<string>, edit: Edit)
    requires Ranked(h, root, rank) && UniqueKeys(h) && id in h && h[id].Mapping? && p != [] && Unused(h, next)
    requires edit.Unset? && EditAt(h, next, id, p, edit).Edited?
    ensures Locate(EditAt(h, next, id, p, edit).h, id, Steps(p)) == None
    ensures Locate(h, id, Steps(p)).Some?
    decreases |p|
  {
    hide OnlyNew, IsChild, FindFrom, NewContent, UniqueKeys, Locate;
    var h' := EditAt(h, next, id, p, edit).h;
    assert Steps(p)[1..] == Steps(p[1..]);
    LocateFirst(h, id, Steps(p));
    LocateFirst(h', id, Steps(p));
    if GoesOn(h, id, p) {
      UnsetTakesEffectFrom(h, next, root, rank, Next(h, id, p[0]).value.value, p[1..], edit);
      EditShape(h, next, id, p, edit);
      LastRank(h, root, rank, id, p);
      SameStep(h, h', root, rank, id, Last(h, id, p), LastKey(h, id, p), edit, p[0]);
    } else {
      KeysInHeap(h, root, rank, id);
      KeyedStep(h', id, p[0]);
      OnlyOne(h, h', id, p[0]);
      NoSteps(h, Next(h, id, p[0]).value.value, Steps(p)[1..]);
    }
  }

  lemma NoSteps(h: Heap, x: NodeId, steps: seq<Step>)
    requires steps == []
    ensures Locate(h, x, steps) == Some(x)
  {
  }

  lemma OnlyOne(h: Heap, h': Heap, id: NodeId, name: string)
    requires UniqueKeys(h) && id in h && h[id].Mapping? && KeyIndex(h, h[id].content, name) >= 0
    requires h' == Put(h, id, Remove(h[id].content, KeyIndex(h, h[id].content, name)))
    requires forall j :: 0 <= j < |h[id].content| ==> h[id].content[j].key in h
    ensures FindFrom(h', h'[id].content, name, 0) < 0
  {
    hide FindFrom, UniqueKeys;
    var content, content' := h[id].content, h'[id].content;
    var i := KeyIndex(h, content, name);
    var f := FindFrom(h', content', name, 0);
    if f >= 0 {
      var g := if f < i then f else f + 1;
      assert content'[f] == content[g];
      OnlyEntry(h, id, name, g);
      OnlyEntryIndex(h, id, i, g, name);
    }
  }

  lemma OnlyEntryIndex(h: Heap, id: NodeId, i: nat, g: nat, name: string)
    requires UniqueKeys(h) && id in h && h[id].Mapping? && i < |h[id].content| && g < |h[id].content| && name != "<<"
    requires KeyText(h, h[id].content[i].key) == name && KeyText(h, h[id].content[g].key) == name
    ensures i == g
  {
    assert DistinctKeys(h, h[id].content);
  }

  // ---- what an accepted edit guarantees ----

  /** No alias stands inside the value it refers to. A file with one cannot be decoded. */
  ghost predicate NoSelfContaining(h: Heap) {
    forall a :: a in h && h[a].Alias? ==> !In(h, h[a].target, a)
  }

  /** A parsed file: a tree whose keys are plain scalars, none twice in a mapping. */
  ghost predicate PlainFile(h: Heap, root: NodeId, rank: map<NodeId, nat>) {
    Tree(h, root, rank) && PlainKeys(h) && UniqueKeys(h)
  }

  /** An edit that the anchor check lets through and that succeeds. */
  ghost predicate Accepted(h: Heap, next: nat, root: NodeId, rank: map<NodeId, nat>, path: seq<string>, edit: Edit)
    requires Tree(h, root, rank)
  {
    EditTree(h, next, root, path, edit).Edited? && !RefusesShared(h, root, rank, path)
  }

  lemma RootHoldsAll(h: Heap, root: NodeId, rank: map<NodeId, nat>, path: seq<string>, edit: Edit)
    requires Tree(h, root, rank) && NoSelfContaining(h) && h[root].Mapping? && path != []
    ensures RootNotReferred(h, root, path, edit)
  {
    hide In, Ranked, UniqueParents, DistinctEntries, Dropped;
  }

  /** An accepted edit of a file in which no alias contains itself leaves every remaining alias intact, and
      every path that parts from the edited one leads to the same value as before, in the tree as written. */
  lemma AcceptedEditIsLocal(h: Heap, next: nat, root: NodeId, rank: map<NodeId, nat>, path: seq<string>, edit: Edit)
    requires PlainFile(h, root, rank) && NoSelfContaining(h) && Unused(h, next) && Accepted(h, next, root, rank, path, edit)
    ensures var h' := EditTree(h, next, root, path, edit).h;
      && AliasesIntact(h, h', root)
      && forall steps :: Part(steps, path) ==>
           Locate(h', root, steps) == Locate(h, root, steps) &&
           (Locate(h, root, steps).Some? ==> SameMeaning(h, h', Locate(h, root, steps).value))
  {
    hide Tree, PlainKeys, UniqueKeys, NoSelfContaining, RefusesShared, EditAt, NoAliasInto, RootNotReferred, AliasesIntact, Part, Locate,
      SameMeaning, Shape;
    RootInTree(h, root, rank);
    var h' := EditTree(h, next, root, path, edit).h;
    RootHoldsAll(h, root, rank, path, edit);
    AcceptedExactly(h, next, root, rank, path, edit);
    EditShape(h, next, root, path, edit);
    IntactIf(h, h', root, rank, path, edit);
    forall steps | Part(steps, path)
      ensures Locate(h', root, steps) == Locate(h, root, steps)
      ensures Locate(h, root, steps).Some? ==> SameMeaning(h, h', Locate(h, root, steps).value)
    {
      RestUnchanged(h, next, root, rank, path, edit, steps);
    }
  }

  lemma RootInTree(h: Heap, root: NodeId, rank: map<NodeId, nat>)
    requires Tree(h, root, rank)
    ensures root in h && Ranked(h, root, rank)
  {
  }

  /** Without that hypothesis the promise fails in one case only: an accepted edit keeps the aliases intact
      exactly when no remaining alias refers to the root, or the edit writes back what was there. */
  lemma AcceptedEditExactly(h: Heap, next: nat, root: NodeId, rank: map<NodeId, nat>, path: seq<string>, edit: Edit)
    requires PlainFile(h, root, rank) && Unused(h, next) && Accepted(h, next, root, rank, path, edit)
    ensures AliasesIntact(h, EditTree(h, next, root, path, edit).h, root) <==>
      RootNotReferred(h, root, path, edit) || WritesBack(h, root, path, edit)
  {
    hide Tree, PlainKeys, UniqueKeys, RefusesShared, EditAt, NoAliasInto, RootNotReferred, AliasesIntact, Changes, Expand, WritesBack, Shape,
      SameMeaning;
    RootInTree(h, root, rank);
    var h' := EditTree(h, next, root, path, edit).h;
    EditChanges(h, next, root, rank, path, edit);
    AcceptedExactly(h, next, root, rank, path, edit);
    if WritesBack(h, root, path, edit) {
      EditShape(h, next, root, path, edit);
      SameEverywhere(h, next, root, rank, path, edit);
      WrittenBackIntact(h, next, root, rank, path, edit);
    } else {
      IntactExactly(h, next, root, rank, path, edit);
    }
  }

  lemma WrittenBackIntact(h: Heap, next: nat, root: NodeId, rank: map<NodeId, nat>, path: seq<string>, edit: Edit)
    requires PlainFile(h, root, rank) && Unused(h, next) && Accepted(h, next, root, rank, path, edit)
    requires var h' := EditTree(h, next, root, path, edit).h;
      Shape(h, h', Last(h, root, path), LastKey(h, root, path), edit) && forall x :: x in h ==> SameMeaning(h, h', x)
    ensures AliasesIntact(h, EditTree(h, next, root, path, edit).h, root)
  {
    hide PlainKeys, UniqueKeys, RefusesShared, EditAt, Shape, SameMeaning, Dropped, In, UniqueParents, Ranked, DistinctEntries, Last, LastKey;
    var h' := EditTree(h, next, root, path, edit).h;
    forall a | a in h' && In(h', root, a) && h'[a].Alias?
      ensures a in h && h'[a] == h[a] && In(h', root, h'[a].target) && SameMeaning(h, h', a)
    {
      AliasIsOld(h, h', Last(h, root, path), LastKey(h, root, path), edit, a);
      StaysOut(h, h', root, rank, path, edit, a);
      if h[a].target == root {
        InRefl(h', root);
      } else {
        AcceptedTarget(h, next, root, rank, path, edit, a);
        StaysIn(h, h', root, rank, path, edit, h[a].target);
      }
    }
  }

  /** The key a set names then reads as the value set, unless its path stops at a merge key that the section
      already has, which goes on to be found instead. The key an unset names leads nowhere any more. */
  lemma EditTakesEffect(h: Heap, next: nat, root: NodeId, rank: map<NodeId, nat>, path: seq<string>, edit: Edit)
    requires PlainFile(h, root, rank) && Unused(h, next) && EditTree(h, next, root, path, edit).Edited?
    ensures var h' := EditTree(h, next, root, path, edit).h;
      && (edit.SetTo? && !Shadowed(h, root, path) ==> Reads(h', root, path, edit.value))
      && (edit.SetTo? && Shadowed(h, root, path) ==>
            ChildAt(h, Last(h, root, path), Key("<<")).Some?
            && ChildAt(h', Last(h, root, path), Key("<<")) == ChildAt(h, Last(h, root, path), Key("<<")))
      && (edit.Unset? ==> Locate(h, root, Steps(path)).Some? && Locate(h', root, Steps(path)) == None)
  {
    hide Tree, PlainKeys, UniqueKeys, EditAt, Locate, Reads, ChildAt, Shadowed, Last;
    RootInTree(h, root, rank);
    if edit.Unset? {
      UnsetTakesEffectFrom(h, next, root, rank, root, path, edit);
    } else if Shadowed(h, root, path) {
      ShadowedStays(h, next, root, rank, root, path, edit);
    } else {
      SetTakesEffectFrom(h, next, root, rank, root, path, edit);
    }
  }

  // ---- where the promise fails ----

  ghost function Depths(h: Heap, root: NodeId): map<NodeId, nat> {
    map x | x in h :: if x == root then 1 else 0
  }

  /** A root mapping with two scalar-keyed entries, the second an alias to `target`. */
  function TwoEntries(rootAnchor: string, keyAnchor: string, target: NodeId, name: string): Heap {
    map[0 := Mapping([Entry(1, 2), Entry(3, 4)], rootAnchor),
        1 := Scalar("a", false, keyAnchor),
        2 := Scalar("1", false, ""),
        3 := Scalar("b", false, ""),
        4 := Alias(target, name)]
  }

  lemma TwoEntriesChildren(h: Heap, p: NodeId, c: NodeId)
    requires h.Keys == {0, 1, 2, 3, 4} && h[0].Mapping? && h[0].content == [Entry(1, 2), Entry(3, 4)]
    requires h[1].Scalar? && h[2].Scalar? && h[3].Scalar? && h[4].Alias?
    ensures IsChild(h, p, c) <==> p == 0 && c in {1, 2, 3, 4}
  {
    assert forall e :: e in h[0].content ==> e == Entry(1, 2) || e == Entry(3, 4);
    assert h[0].content[0] in h[0].content && h[0].content[1] in h[0].content;
  }

  lemma TwoEntriesTree(rootAnchor: string, keyAnchor: string, target: NodeId, name: string)
    requires name != "" && ((target == 0 && rootAnchor == name) || (target == 1 && keyAnchor == name))
    ensures var h := TwoEntries(rootAnchor, keyAnchor, target, name); Tree(h, 0, Depths(h, 0)) && UniqueKeys(h) && Unused(h, 5)
  {
    hide IsChild, In;
    var h := TwoEntries(rootAnchor, keyAnchor, target, name);
    forall p, c ensures IsChild(h, p, c) <==> p == 0 && c in {1, 2, 3, 4} {
      TwoEntriesChildren(h, p, c);
    }
    InRefl(h, 0);
    forall x | x in {1, 2, 3, 4} ensures In(h, 0, x) {
      InStep(h, 0, 0, x);
    }
    assert UniqueParents(h);
    hide UniqueParents, DistinctEntries, UniqueKeys;
    TwoDistinct(h);
  }

  lemma TwoDistinct(h: Heap)
    requires h.Keys == {0, 1, 2, 3, 4} && h[0].Mapping? && h[0].content == [Entry(1, 2), Entry(3, 4)]
    requires h[1].Scalar? && h[2].Scalar? && h[3].Scalar? && h[4].Alias? && h[1].value != h[3].value
    ensures DistinctEntries(h[0].content) && UniqueKeys(h)
  {
  }

  /** `{a: 1, b: *k}` with the anchor on the key a: the check never looks at a key's anchor, so unsetting a
      is accepted and the alias is left without its anchor. */
  lemma AnchoredKeyIsLost() returns (h: Heap, rank: map<NodeId, nat>)
    ensures Tree(h, 0, rank) && UniqueKeys(h) && Unused(h, 5) && Accepted(h, 5, 0, rank, ["a"], Unset)
    ensures !AliasesIntact(h, EditTree(h, 5, 0, ["a"], Unset).h, 0)
  {
    hide Tree, UniqueKeys, AliasesIntact, Accepted, EditAt, Changes, Dropped, Gone, Last, LastKey, Chain;
    h := TwoEntries("", "k", 1, "k");
    TwoEntriesTree("", "k", 1, "k");
    rank := Depths(h, 0);
    UnsetFirst(h, rank);
    StaysAlias(h);
    KeyGoes(h);
    EditChanges(h, 5, 0, rank, ["a"], Unset);
    IntactExactly(h, 5, 0, rank, ["a"], Unset);
  }

  /** `&all {a: 1, b: *all}`: the check never looks at the root's anchor. */
  lemma RootAnchorIsMissed() returns (h: Heap, rank: map<NodeId, nat>)
    ensures PlainFile(h, 0, rank) && Unused(h, 5) && Accepted(h, 5, 0, rank, ["a"], Unset)
    ensures !AliasesIntact(h, EditTree(h, 5, 0, ["a"], Unset).h, 0)
  {
    hide Tree, UniqueKeys, AliasesIntact, Accepted, EditAt, Dropped, Gone, Last, LastKey, Chain;
    h := TwoEntries("all", "", 0, "all");
    TwoEntriesTree("all", "", 0, "all");
    rank := Depths(h, 0);
    UnsetFirst(h, rank);
    StaysAlias(h);
    AcceptedEditExactly(h, 5, 0, rank, ["a"], Unset);
  }

  lemma UnsetFirst(h: Heap, rank: map<NodeId, nat>)
    requires 0 in h && h[0].Mapping? && h[0].content == [Entry(1, 2), Entry(3, 4)] && Tree(h, 0, rank)
    requires 1 in h && h[1].Scalar? && h[1].value == "a" && 2 in h && h[2] == Scalar("1", false, "")
    ensures Gone(h, 0, ["a"]) == Some(Entry(1, 2)) && Accepted(h, 5, 0, rank, ["a"], Unset) && Chain(h, 0, ["a"]) == [0]
    ensures EditAt(h, 5, 0, ["a"], Unset).Edited?
  {
    assert KeyIndex(h, h[0].content, "a") == 0;
  }

  lemma StaysAlias(h: Heap)
    requires 0 in h && h[0].Mapping? && h[0].content == [Entry(1, 2), Entry(3, 4)] && 2 in h && h[2].Scalar? && 4 in h && h[4].Alias?
    requires Gone(h, 0, ["a"]) == Some(Entry(1, 2))
    ensures !Dropped(h, 0, ["a"], Unset, 4)
  {
    if In(h, 2, 4) { ScalarIsLeaf(h, 2, 4); }
  }

  lemma KeyGoes(h: Heap)
    requires 0 in h && h[0].Mapping? && Gone(h, 0, ["a"]) == Some(Entry(1, 2))
    ensures Dropped(h, 0, ["a"], Unset, 1)
  {
  }
}
