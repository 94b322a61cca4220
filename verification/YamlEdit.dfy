/** What an edit of the tree changes. An edit touches the sections on the way to its key and drops one
    subtree; whatever no alias leads into either of those keeps its meaning. */
module YamlEdit {
  import opened YamlTree

  // ---- the part of the tree an edit touches ----

  /** The value the key names in the mapping `id`, if any. */
  function Next(h: Heap, id: NodeId, key: string): Option<Entry>
    requires id in h && h[id].Mapping?
  {
    var i := KeyIndex(h, h[id].content, key);
    if i < 0 then None else Some(h[id].content[i])
  }

  predicate GoesOn(h: Heap, id: NodeId, path: seq<string>)
    requires id in h && h[id].Mapping? && path != []
  {
    |path| > 1 && Next(h, id, path[0]).Some? &&
    var child := Next(h, id, path[0]).value.value; child in h && h[child].Mapping?
  }

  /** The sections that exist on the way to the key. */
  function Chain(h: Heap, id: NodeId, path: seq<string>): (r: seq<NodeId>)
    requires id in h && h[id].Mapping? && path != []
    ensures r != [] && r[0] == id
    ensures forall x :: x in r ==> x in h && h[x].Mapping?
    decreases |path|
  {
    if GoesOn(h, id, path) then [id] + Chain(h, Next(h, id, path[0]).value.value, path[1..]) else [id]
  }

  /** The last of them, where the edit happens. */
  function Last(h: Heap, id: NodeId, path: seq<string>): (r: NodeId)
    requires id in h && h[id].Mapping? && path != []
    ensures r in h && h[r].Mapping? && r in Chain(h, id, path)
    decreases |path|
  {
    if GoesOn(h, id, path) then Last(h, Next(h, id, path[0]).value.value, path[1..]) else id
  }

  /** The key sought in the last section. */
  function LastKey(h: Heap, id: NodeId, path: seq<string>): string
    requires id in h && h[id].Mapping? && path != []
    decreases |path|
  {
    if GoesOn(h, id, path) then LastKey(h, Next(h, id, path[0]).value.value, path[1..]) else path[0]
  }

  /** The entry whose value the edit replaces or removes, if the key is there. */
  function Gone(h: Heap, id: NodeId, path: seq<string>): Option<Entry>
    requires id in h && h[id].Mapping? && path != []
  {
    Next(h, Last(h, id, path), LastKey(h, id, path))
  }

  /** The nodes that leave the file: the old value with all below it, and under unset its key. */
  ghost predicate Dropped(h: Heap, id: NodeId, path: seq<string>, edit: Edit, x: NodeId)
    requires id in h && h[id].Mapping? && path != []
  {
    var gone := Gone(h, id, path);
    gone.Some? && (In(h, gone.value.value, x) || (edit.Unset? && x == gone.value.key))
  }

  // ---- the shape of an edit ----

  /** Nodes the edit added are no aliases and hold only added nodes. */
  ghost predicate OnlyNew(h: Heap, h': Heap, x: NodeId)
    requires x in h'
  {
    !h'[x].Alias? && forall c :: IsChild(h', x, c) ==> c !in h
  }

  ghost predicate NewContent(h: Heap, content: seq<Entry>, content': seq<Entry>, i: int, edit: Edit)
    requires i < |content|
  {
    if i < 0 then exists e: Entry :: content' == content + [e] && e.key !in h && e.value !in h
    else if edit.Unset? then content' == Remove(content, i)
    else exists v: NodeId :: content' == content[i := content[i].(value := v)] && v !in h
  }

  ghost predicate Shape(h: Heap, h': Heap, last: NodeId, key: string, edit: Edit)
    requires last in h && h[last].Mapping?
  {
    && h.Keys <= h'.Keys
    && (forall x :: x in h' && x !in h ==> OnlyNew(h, h', x))
    && (forall x :: x in h && x != last ==> h'[x] == h[x])
    && h'[last].Mapping? && h'[last].anchor == h[last].anchor
    && NewContent(h, h[last].content, h'[last].content, KeyIndex(h, h[last].content, key), edit)
  }

  lemma EmptyHasNoKey(h: Heap, key: string)
    ensures KeyIndex(h, [], key) == -1
  {
  }

  /** A set past a missing key goes on in a new section. */
  lemma CreatesSection(h: Heap, next: nat, id: NodeId, p: seq<string>, edit: Edit)
    requires id in h && h[id].Mapping? && |p| > 1 && KeyIndex(h, h[id].content, p[0]) < 0 && edit.SetTo?
    ensures var h1 := Put(h, id, h[id].content + [Entry(next, next + 1)])[next := NewScalar(p[0], "")][next + 1 := Mapping([], "")];
      EditAt(h, next, id, p, edit) == EditAt(h1, next + 2, next + 1, p[1..], edit)
  {
    hide KeyIndex;
  }

  /** Only a set goes on past the last section, and only past a missing key or a null. */
  lemma GoesOnBySet(h: Heap, next: nat, id: NodeId, p: seq<string>, edit: Edit)
    requires id in h && h[id].Mapping? && |p| > 1 && !GoesOn(h, id, p) && EditAt(h, next, id, p, edit).Edited?
    ensures edit.SetTo?
    ensures var content := h[id].content; var i := KeyIndex(h, content, p[0]);
      i < 0 || (content[i].value in h && h[content[i].value].Scalar? &&
                var h1 := Put(h, id, content[i := content[i].(value := next)])[next := Mapping([], AnchorOf(h[content[i].value]))];
                EditAt(h, next, id, p, edit) == EditAt(h1, next + 1, next, p[1..], edit))
  {
    hide KeyIndex;
  }

  lemma FillsNewKey(h: Heap, next: nat, id: NodeId, path: seq<string>, edit: Edit)
    requires id in h && h[id].Mapping? && h[id].content == [] && |path| == 1 && Unused(h, next) && edit.SetTo?
    requires KeyIndex(h, [], path[0]) < 0
    ensures var r := EditAt(h, next, id, path, edit);
      && r.Edited? && h.Keys <= r.h.Keys && (forall x :: x in h && x != id ==> r.h[x] == h[x])
      && (forall x :: x in r.h && (x == id || x !in h) ==> OnlyNew(h, r.h, x))
  {
    hide KeyIndex, OnlyNew;
    var e := Entry(next, next + 1);
    assert h[id].content + [e] == [e];
    var h' := EditAt(h, next, id, path, edit).h;
    PairIsNew(h, h', id, e);
    forall x | x in h' && x !in h ensures OnlyNew(h, h', x) { ScalarIsNew(h, h', x); }
  }

  lemma PairIsNew(h: Heap, h': Heap, x: NodeId, e: Entry)
    requires x in h' && h'[x].Mapping? && h'[x].content == [e] && e.key !in h && e.value !in h
    ensures OnlyNew(h, h', x)
  {
  }

  /** Setting a path below a section just created adds nodes and changes nothing else. */
  lemma {:induction false} FillsNewSection(h: Heap, next: nat, id: NodeId, path: seq<string>, edit: Edit)
    requires id in h && h[id].Mapping? && h[id].content == [] && path != [] && Unused(h, next) && edit.SetTo?
    ensures var r := EditAt(h, next, id, path, edit);
      && r.Edited? && h.Keys <= r.h.Keys && (forall x :: x in h && x != id ==> r.h[x] == h[x])
      && (forall x :: x in r.h && (x == id || x !in h) ==> OnlyNew(h, r.h, x))
    decreases |path|
  {
    hide EditAt, OnlyNew, KeyIndex;
    EmptyHasNoKey(h, path[0]);
    if |path| == 1 {
      FillsNewKey(h, next, id, path, edit);
    } else {
      var e := Entry(next, next + 1);
      assert h[id].content + [e] == [e];
      var h2 := Put(h, id, [e])[next := NewScalar(path[0], "")][next + 1 := Mapping([], "")];
      CreatesSection(h, next, id, path, edit);
      FillsNewSection(h2, next + 2, next + 1, path[1..], edit);
      var h' := EditAt(h, next, id, path, edit).h;
      PairIsNew(h, h', id, e);
      ScalarIsNew(h, h', next);
      forall x | x in h' && x !in h && x != next ensures OnlyNew(h, h', x) { NewerIsNew(h, h2, h', x); }
    }
  }

  lemma {:induction false} EditShape(h: Heap, next: nat, id: NodeId, path: seq<string>, edit: Edit)
    requires id in h && h[id].Mapping? && path != [] && Unused(h, next)
    requires EditAt(h, next, id, path, edit).Edited?
    ensures Shape(h, EditAt(h, next, id, path, edit).h, Last(h, id, path), LastKey(h, id, path), edit)
    decreases |path|
  {
    hide Shape, NewContent, OnlyNew;
    if GoesOn(h, id, path) {
      EditShape(h, next, Next(h, id, path[0]).value.value, path[1..], edit);
    } else if |path| == 1 {
      ShapeAtKey(h, next, id, path, edit);
    } else {
      ShapeWithSections(h, next, id, path, edit);
    }
  }

  lemma ShapeAtKey(h: Heap, next: nat, id: NodeId, path: seq<string>, edit: Edit)
    requires id in h && h[id].Mapping? && |path| == 1 && Unused(h, next)
    requires EditAt(h, next, id, path, edit).Edited?
    ensures Shape(h, EditAt(h, next, id, path, edit).h, id, path[0], edit)
  {
    var content := h[id].content;
    var i := KeyIndex(h, content, path[0]);
    var h' := EditAt(h, next, id, path, edit).h;
    if i < 0 {
      assert h'[id].content == content + [Entry(next, next + 1)];
    } else if edit.SetTo? {
      assert h'[id].content == content[i := content[i].(value := next)];
    }
    assert NewContent(h, content, h'[id].content, i, edit);
  }

  lemma ShapeWithSections(h: Heap, next: nat, id: NodeId, path: seq<string>, edit: Edit)
    requires id in h && h[id].Mapping? && |path| > 1 && Unused(h, next) && !GoesOn(h, id, path)
    requires EditAt(h, next, id, path, edit).Edited?
    ensures Shape(h, EditAt(h, next, id, path, edit).h, id, path[0], edit)
  {
    hide OnlyNew, Shape, NewContent, EditAt, KeyIndex;
    GoesOnBySet(h, next, id, path, edit);
    var content := h[id].content;
    var i := KeyIndex(h, content, path[0]);
    if i < 0 {
      var h1 := Put(h, id, content + [Entry(next, next + 1)])[next := NewScalar(path[0], "")][next + 1 := Mapping([], "")];
      assert NewContent(h, content, h1[id].content, i, edit) by { AppendsNew(h, content, Entry(next, next + 1), i, edit); }
      CreatesSection(h, next, id, path, edit);
      FillsNewSection(h1, next + 2, next + 1, path[1..], edit);
      FilledShape(h, h1, EditAt(h, next, id, path, edit).h, id, next + 1, path[0], edit);
    } else {
      var h1 := Put(h, id, content[i := content[i].(value := next)])[next := Mapping([], AnchorOf(h[content[i].value]))];
      assert NewContent(h, content, h1[id].content, i, edit) by { ReplacesByNew(h, content, next, i, edit); }
      FillsNewSection(h1, next + 1, next, path[1..], edit);
      FilledShape(h, h1, EditAt(h, next, id, path, edit).h, id, next, path[0], edit);
    }
  }

  lemma AppendsNew(h: Heap, content: seq<Entry>, e: Entry, i: int, edit: Edit)
    requires i < 0 && e.key !in h && e.value !in h
    ensures NewContent(h, content, content + [e], i, edit)
  {
  }

  lemma ReplacesByNew(h: Heap, content: seq<Entry>, v: NodeId, i: int, edit: Edit)
    requires 0 <= i < |content| && v !in h && edit.SetTo?
    ensures NewContent(h, content, content[i := content[i].(value := v)], i, edit)
  {
  }

  /** h1 hangs a new empty section `added` below `id`, and h' fills that section. */
  lemma FilledShape(h: Heap, h1: Heap, h': Heap, id: NodeId, added: NodeId, key: string, edit: Edit)
    requires id in h && h[id].Mapping? && added !in h && added in h1
    requires h.Keys <= h1.Keys <= h'.Keys && h1[id].Mapping? && h1[id].anchor == h[id].anchor
    requires forall x :: x in h && x != id ==> h1[x] == h[x]
    requires forall x :: x in h1 && x !in h && x != added ==> h1[x].Scalar?
    requires forall x :: x in h1 && x != added ==> h'[x] == h1[x]
    requires forall x :: x in h' && (x == added || x !in h1) ==> OnlyNew(h1, h', x)
    requires NewContent(h, h[id].content, h1[id].content, KeyIndex(h, h[id].content, key), edit)
    ensures Shape(h, h', id, key, edit)
  {
    hide OnlyNew, NewContent, KeyIndex;
    forall x | x in h' && x !in h ensures OnlyNew(h, h', x) {
      if x == added || x !in h1 { NewerIsNew(h, h1, h', x); } else { ScalarIsNew(h, h', x); }
    }
  }

  lemma ScalarIsNew(h: Heap, h': Heap, x: NodeId)
    requires x in h' && h'[x].Scalar?
    ensures OnlyNew(h, h', x)
  {
  }

  lemma NewerIsNew(h: Heap, h1: Heap, h': Heap, x: NodeId)
    requires x in h' && h.Keys <= h1.Keys && OnlyNew(h1, h', x)
    ensures OnlyNew(h, h', x)
  {
  }

  // ---- the touched part in the tree ----

  /** Every section on the way but the first hangs below another one of them. */
  lemma {:induction false} ChainHangs(h: Heap, id: NodeId, path: seq<string>, x: NodeId)
    requires id in h && h[id].Mapping? && path != [] && x in Chain(h, id, path) && x != id
    ensures exists p :: p in Chain(h, id, path) && IsChild(h, p, x)
    decreases |path|
  {
    hide IsChild;
    var child := Next(h, id, path[0]).value.value;
    var rest := Chain(h, child, path[1..]);
    assert Chain(h, id, path) == [id] + rest;
    if x == child {
      NextIsChild(h, id, path[0]);
      assert id in Chain(h, id, path);
    } else {
      ChainHangs(h, child, path[1..], x);
      var p :| p in rest && IsChild(h, p, x);
      assert p in Chain(h, id, path);
    }
  }

  lemma NextIsChild(h: Heap, id: NodeId, key: string)
    requires id in h && h[id].Mapping? && Next(h, id, key).Some?
    ensures var e := Next(h, id, key).value; IsChild(h, id, e.value) && IsChild(h, id, e.key)
  {
    var e := Next(h, id, key).value;
    assert e in h[id].content;
  }

  lemma GoneHangs(h: Heap, id: NodeId, path: seq<string>)
    requires id in h && h[id].Mapping? && path != [] && Gone(h, id, path).Some?
    ensures var e := Gone(h, id, path).value;
      IsChild(h, Last(h, id, path), e.value) && IsChild(h, Last(h, id, path), e.key)
  {
    NextIsChild(h, Last(h, id, path), LastKey(h, id, path));
  }

  /** The dropped part is closed downwards. */
  lemma DroppedBelow(h: Heap, root: NodeId, path: seq<string>, edit: Edit, p: NodeId, c: NodeId)
    requires root in h && h[root].Mapping? && path != []
    requires Dropped(h, root, path, edit, p) && IsChild(h, p, c)
    ensures Dropped(h, root, path, edit, c)
  {
    hide In, IsChild, Last, LastKey, Chain;
    var e := Gone(h, root, path).value;
    if In(h, e.value, p) {
      InStep(h, e.value, p, c);
    } else {
      KeyIsLeaf(h, root, path, c);
    }
  }

  lemma KeyIsLeaf(h: Heap, root: NodeId, path: seq<string>, c: NodeId)
    requires root in h && h[root].Mapping? && path != [] && Gone(h, root, path).Some?
    ensures !IsChild(h, Gone(h, root, path).value.key, c)
  {
    hide Last, LastKey, Chain;
  }

  /** The dropped part is closed upwards except at the last section. */
  lemma DroppedAbove(h: Heap, root: NodeId, rank: map<NodeId, nat>, path: seq<string>, edit: Edit, p: NodeId, c: NodeId)
    requires Tree(h, root, rank) && h[root].Mapping? && path != []
    requires Dropped(h, root, path, edit, c) && IsChild(h, p, c)
    ensures Dropped(h, root, path, edit, p) || p == Last(h, root, path)
    ensures p == Last(h, root, path) && !Dropped(h, root, path, edit, p) ==>
      (c == Gone(h, root, path).value.value || (edit.Unset? && c == Gone(h, root, path).value.key))
  {
    hide In, IsChild, Last, LastKey, Chain, Gone, Ranked, DistinctEntries;
    var e := Gone(h, root, path).value;
    GoneHangs(h, root, path);
    if c != e.value && !(edit.Unset? && c == e.key) {
      var p' := InParent(h, e.value, c);
      assert p' == p;
    }
  }

  ghost predicate Safe(h: Heap, root: NodeId, path: seq<string>, edit: Edit, x: NodeId)
    requires root in h && h[root].Mapping? && path != []
  {
    x in h && x !in Chain(h, root, path) && !Dropped(h, root, path, edit, x)
  }

  /** No alias that stays leads into the touched part. */
  ghost predicate NoAliasInto(h: Heap, root: NodeId, path: seq<string>, edit: Edit)
    requires root in h && h[root].Mapping? && path != []
  {
    forall a :: a in h && h[a].Alias? && !Dropped(h, root, path, edit, a) ==>
      h[a].target !in Chain(h, root, path) && !Dropped(h, root, path, edit, h[a].target)
  }

  lemma SafeChild(h: Heap, root: NodeId, rank: map<NodeId, nat>, path: seq<string>, edit: Edit, x: NodeId, c: NodeId)
    requires Tree(h, root, rank) && h[root].Mapping? && path != []
    requires Safe(h, root, path, edit, x) && IsChild(h, x, c)
    ensures Safe(h, root, path, edit, c)
  {
    hide In, IsChild, Last, LastKey, Chain, Dropped, DistinctEntries;
    if c in Chain(h, root, path) {
      ChainParent(h, root, rank, path, x, c);
    }
    if Dropped(h, root, path, edit, c) {
      DroppedAbove(h, root, rank, path, edit, x, c);
    }
  }

  lemma ChainParent(h: Heap, root: NodeId, rank: map<NodeId, nat>, path: seq<string>, p: NodeId, c: NodeId)
    requires Tree(h, root, rank) && h[root].Mapping? && path != []
    requires c in Chain(h, root, path) && IsChild(h, p, c)
    ensures p in Chain(h, root, path)
  {
    hide In, IsChild, Last, LastKey, Chain, DistinctEntries;
    ChainHangs(h, root, path, c);
    var q :| q in Chain(h, root, path) && IsChild(h, q, c);
    assert q == p;
  }

  // ---- meaning ----

  /** A value with aliases replaced by what they stand for, cut off below a depth. */
  datatype Value = Cut | Leaf(text: string, isNull: bool) | Map(entries: seq<(Value, Value)>) | List(items: seq<Value>)

  /** The node an alias refers to; any other node is itself. */
  function Deref(h: Heap, x: NodeId): NodeId {
    if x in h && h[x].Alias? then h[x].target else x
  }

  function Expand(h: Heap, x: NodeId, depth: nat): Value
    decreases depth
  {
    var y := Deref(h, x);
    if depth == 0 || y !in h then Cut
    else match h[y]
      case Scalar(value, isNull, _) => Leaf(value, isNull)
      case Mapping(content, _) =>
        Map(seq(|content|, i requires 0 <= i < |content| => (Expand(h, content[i].key, depth - 1), Expand(h, content[i].value, depth - 1))))
      case Sequence(items, _) => List(seq(|items|, i requires 0 <= i < |items| => Expand(h, items[i], depth - 1)))
      case Alias(_, _) => Cut
  }

  /** A node means the same in both trees: its expansions agree to every depth. */
  ghost predicate SameMeaning(h: Heap, h': Heap, x: NodeId) {
    forall depth: nat :: Expand(h', x, depth) == Expand(h, x, depth)
  }

  /** A set of nodes that no child and no alias leads out of. */
  ghost predicate Closed(h: Heap, s: set<NodeId>) {
    && (forall x :: x in s ==> x in h && (h[x].Alias? ==> h[x].target in s))
    && (forall x, c :: x in s && IsChild(h, x, c) ==> c in s)
  }

  ghost predicate Agree(h: Heap, h': Heap, s: set<NodeId>) {
    forall x :: x in s ==> x in h && x in h' && h'[x] == h[x]
  }

  lemma {:induction false} MeaningKept(h: Heap, h': Heap, s: set<NodeId>, x: NodeId, depth: nat)
    requires Closed(h, s) && Agree(h, h', s) && x in s
    ensures Expand(h', x, depth) == Expand(h, x, depth)
    decreases depth, h[x].Alias?
  {
    hide IsChild, Expand;
    if depth == 0 || h[x].Scalar? {
      ExpandLeaf(h, h', x, depth);
    } else {
      forall c | IsChild(h, x, c) ensures Expand(h', c, depth - 1) == Expand(h, c, depth - 1) {
        MeaningKept(h, h', s, c, depth - 1);
      }
      match h[x]
      case Mapping(_, _) => ExpandMapping(h, h', x, depth);
      case Sequence(_, _) => ExpandSequence(h, h', x, depth);
      case Alias(target, _) =>
        if !h[target].Alias? { MeaningKept(h, h', s, target, depth); }
        ExpandAlias(h, h', x, depth);
    }
  }

  lemma ExpandLeaf(h: Heap, h': Heap, x: NodeId, depth: nat)
    requires x in h && x in h' && h'[x] == h[x] && (depth == 0 || h[x].Scalar?)
    ensures Expand(h', x, depth) == Expand(h, x, depth)
  {
  }

  lemma ExpandAlias(h: Heap, h': Heap, x: NodeId, depth: nat)
    requires x in h && x in h' && h'[x] == h[x] && h[x].Alias? && h[x].target in h && h[x].target in h'
    requires h'[h[x].target].Alias? <==> h[h[x].target].Alias?
    requires h[h[x].target].Alias? || Expand(h', h[x].target, depth) == Expand(h, h[x].target, depth)
    ensures Expand(h', x, depth) == Expand(h, x, depth)
  {
  }

  lemma ExpandMapping(h: Heap, h': Heap, x: NodeId, depth: nat)
    requires x in h && x in h' && h'[x] == h[x] && h[x].Mapping? && depth > 0
    requires forall c :: IsChild(h, x, c) ==> Expand(h', c, depth - 1) == Expand(h, c, depth - 1)
    ensures Expand(h', x, depth) == Expand(h, x, depth)
  {
    hide IsChild;
    var content := h[x].content;
    forall i | 0 <= i < |content|
      ensures Expand(h', content[i].key, depth - 1) == Expand(h, content[i].key, depth - 1)
      ensures Expand(h', content[i].value, depth - 1) == Expand(h, content[i].value, depth - 1)
    {
      EntryIsChild(h, x, i);
    }
    assert Expand(h', x, depth).entries == Expand(h, x, depth).entries;
  }

  lemma ExpandSequence(h: Heap, h': Heap, x: NodeId, depth: nat)
    requires x in h && x in h' && h'[x] == h[x] && h[x].Sequence? && depth > 0
    requires forall c :: IsChild(h, x, c) ==> Expand(h', c, depth - 1) == Expand(h, c, depth - 1)
    ensures Expand(h', x, depth) == Expand(h, x, depth)
  {
    hide IsChild;
    var items := h[x].items;
    forall i | 0 <= i < |items| ensures Expand(h', items[i], depth - 1) == Expand(h, items[i], depth - 1) {
      ItemIsChild(h, x, i);
    }
    assert Expand(h', x, depth).items == Expand(h, x, depth).items;
  }

  lemma EntryIsChild(h: Heap, x: NodeId, i: nat)
    requires x in h && h[x].Mapping? && i < |h[x].content|
    ensures IsChild(h, x, h[x].content[i].key) && IsChild(h, x, h[x].content[i].value)
  {
    assert h[x].content[i] in h[x].content;
  }

  lemma ItemIsChild(h: Heap, x: NodeId, i: nat)
    requires x in h && h[x].Sequence? && i < |h[x].items|
    ensures IsChild(h, x, h[x].items[i])
  {
  }

  ghost function SafeSet(h: Heap, root: NodeId, path: seq<string>, edit: Edit): set<NodeId>
    requires root in h && h[root].Mapping? && path != []
  {
    set x | x in h && Safe(h, root, path, edit, x)
  }

  lemma SafeIsClosed(h: Heap, root: NodeId, rank: map<NodeId, nat>, path: seq<string>, edit: Edit)
    requires Tree(h, root, rank) && h[root].Mapping? && path != [] && NoAliasInto(h, root, path, edit)
    ensures Closed(h, SafeSet(h, root, path, edit))
  {
    hide In, IsChild, Last, LastKey, Chain, Dropped, DistinctEntries, UniqueParents, Ranked;
    var s := SafeSet(h, root, path, edit);
    forall x, c | x in s && IsChild(h, x, c) ensures c in s {
      SafeChild(h, root, rank, path, edit, x, c);
    }
  }

  // ---- what stays in the file ----

  lemma KeptChild(h: Heap, h': Heap, root: NodeId, path: seq<string>, edit: Edit, p: NodeId, c: NodeId)
    requires root in h && h[root].Mapping? && path != []
    requires Shape(h, h', Last(h, root, path), LastKey(h, root, path), edit)
    requires IsChild(h, p, c) && !Dropped(h, root, path, edit, c)
    ensures IsChild(h', p, c)
  {
    hide Last, LastKey, Chain, OnlyNew;
    if p == Last(h, root, path) {
      var content, content' := h[p].content, h'[p].content;
      var i := KeyIndex(h, content, LastKey(h, root, path));
      var e :| e in content && (e.key == c || e.value == c);
      var j :| 0 <= j < |content| && content[j] == e;
      if i >= 0 { InRefl(h, content[i].value); }
      if i < 0 || j != i {
        StaysInContent(h, content, content', i, edit, j);
      } else {
        assert edit.SetTo? && e.key == c;
        var v :| content' == content[i := content[i].(value := v)] && v !in h;
        assert content'[i] in content' && content'[i].key == c;
      }
    }
  }

  lemma StaysInContent(h: Heap, content: seq<Entry>, content': seq<Entry>, i: int, edit: Edit, j: nat)
    requires i < |content| && NewContent(h, content, content', i, edit) && j < |content| && j != i
    ensures content[j] in content'
  {
    if i < 0 {
      assert content'[j] == content[j];
    } else if edit.Unset? {
      assert content'[if j < i then j else j - 1] == content[j];
    } else {
      assert content'[j] == content[j];
    }
  }

  /** A child of the edited tree that was in the old one was a child there, of the same parent, and is not
      the dropped value (nor, under unset, its key). */
  lemma OldChild(h: Heap, h': Heap, root: NodeId, rank: map<NodeId, nat>, path: seq<string>, edit: Edit, p: NodeId, c: NodeId)
    requires Tree(h, root, rank) && h[root].Mapping? && path != []
    requires Shape(h, h', Last(h, root, path), LastKey(h, root, path), edit)
    requires IsChild(h', p, c) && c in h
    ensures IsChild(h, p, c)
    ensures p == Last(h, root, path) && Gone(h, root, path).Some? ==>
      c != Gone(h, root, path).value.value && (edit.Unset? ==> c != Gone(h, root, path).value.key)
  {
    hide Last, LastKey, Chain, In, UniqueParents, Ranked;
    if p == Last(h, root, path) {
      var content := h[p].content;
      OldEntry(h, content, h'[p].content, KeyIndex(h, content, LastKey(h, root, path)), edit, c);
    }
  }

  lemma OldEntry(h: Heap, content: seq<Entry>, content': seq<Entry>, i: int, edit: Edit, c: NodeId)
    requires i < |content| && NewContent(h, content, content', i, edit) && DistinctEntries(content) && c in h
    requires exists e :: e in content' && (e.key == c || e.value == c)
    ensures exists e :: e in content && (e.key == c || e.value == c)
    ensures i >= 0 ==> c != content[i].value && (edit.Unset? ==> c != content[i].key)
  {
    var e :| e in content' && (e.key == c || e.value == c);
    var j :| 0 <= j < |content'| && content'[j] == e;
    if i < 0 {
      assert e == content[j];
    } else if edit.Unset? {
      var k := if j < i then j else j + 1;
      assert e == content[k];
    } else {
      assert content[j] in content;
      assert j != i ==> e == content[j];
    }
  }

  lemma RootStays(h: Heap, root: NodeId, rank: map<NodeId, nat>, path: seq<string>, edit: Edit)
    requires Tree(h, root, rank) && h[root].Mapping? && path != []
    ensures !Dropped(h, root, path, edit, root)
  {
    hide IsChild, Last, LastKey, Chain, DistinctEntries, In, UniqueParents;
    if Dropped(h, root, path, edit, root) {
      GoneHangs(h, root, path);
      var p := InParent(h, Gone(h, root, path).value.value, root);
      assert false;
    }
  }

  /** Nothing dropped can be reached in the edited tree. */
  lemma {:induction false} DroppedIsOut(h: Heap, h': Heap, root: NodeId, rank: map<NodeId, nat>, path: seq<string>,
                                        edit: Edit, nodes: seq<NodeId>)
    requires Tree(h, root, rank) && h[root].Mapping? && path != []
    requires Shape(h, h', Last(h, root, path), LastKey(h, root, path), edit)
    requires Descent(h', nodes) && nodes[0] == root && nodes[|nodes| - 1] in h
    ensures !Dropped(h, root, path, edit, nodes[|nodes| - 1])
    decreases |nodes|
  {
    hide IsChild, Last, LastKey, Chain, DistinctEntries, In, UniqueParents, Dropped, Tree, Shape;
    var n := |nodes|;
    if n == 1 {
      RootStays(h, root, rank, path, edit);
    } else {
      var p, c := nodes[n - 2], nodes[n - 1];
      assert IsChild(h', nodes[n - 2], nodes[n - 2 + 1]);
      OldChild(h, h', root, rank, path, edit, p, c);
      var front := nodes[..n - 1];
      assert Descent(h', front) && front[|front| - 1] == p;
      ParentIn(h, p, c);
      DroppedIsOut(h, h', root, rank, path, edit, front);
      if Dropped(h, root, path, edit, c) {
        DroppedAbove(h, root, rank, path, edit, p, c);
        GoneOfDropped(h, root, path, edit, c);
      }
    }
  }

  lemma ParentIn(h: Heap, p: NodeId, c: NodeId)
    requires IsChild(h, p, c)
    ensures p in h
  {
  }

  lemma GoneOfDropped(h: Heap, root: NodeId, path: seq<string>, edit: Edit, c: NodeId)
    requires root in h && h[root].Mapping? && path != [] && Dropped(h, root, path, edit, c)
    ensures Gone(h, root, path).Some?
  {
  }

  /** Everything else stays in the file. */
  lemma {:induction false} RestStays(h: Heap, h': Heap, root: NodeId, path: seq<string>, edit: Edit, nodes: seq<NodeId>)
    requires root in h && h[root].Mapping? && path != []
    requires Shape(h, h', Last(h, root, path), LastKey(h, root, path), edit)
    requires Descent(h, nodes) && nodes[0] == root && !Dropped(h, root, path, edit, nodes[|nodes| - 1])
    ensures In(h', root, nodes[|nodes| - 1])
    decreases |nodes|
  {
    hide IsChild, Last, LastKey, Chain, In, Dropped, Shape;
    var n := |nodes|;
    if n == 1 {
      InRefl(h', root);
    } else {
      var p, c := nodes[n - 2], nodes[n - 1];
      assert IsChild(h, nodes[n - 2], nodes[n - 2 + 1]);
      var front := nodes[..n - 1];
      assert Descent(h, front) && front[|front| - 1] == p;
      if Dropped(h, root, path, edit, p) { DroppedBelow(h, root, path, edit, p, c); }
      RestStays(h, h', root, path, edit, front);
      KeptChild(h, h', root, path, edit, p, c);
      InStep(h', root, p, c);
    }
  }
}
