/** The check that refuses an edit of a shared anchor, and what it guarantees: every alias left in the
    file still refers to a node of the file and stands for what it stood for. */
module YamlAlias {
  import opened YamlTree
  import opened YamlEdit
  import opened ConfigPath

  /** Every alias in the edited file was there before, refers to the same node, which is still in the file,
      and stands for the same value. */
  ghost predicate AliasesIntact(h: Heap, h': Heap, root: NodeId) {
    forall a :: a in h' && In(h', root, a) && h'[a].Alias? ==>
      a in h && h'[a] == h[a] && In(h', root, h'[a].target) && SameMeaning(h, h', a)
  }

  /** The edit changes what the section it happens in stands for. */
  ghost predicate Changes(h: Heap, h': Heap, last: NodeId) {
    exists depth: nat :: Expand(h', last, depth) != Expand(h, last, depth)
  }

  // ---- when aliases stay intact ----

  lemma SafeAgrees(h: Heap, h': Heap, root: NodeId, path: seq<string>, edit: Edit)
    requires root in h && h[root].Mapping? && path != []
    requires Shape(h, h', Last(h, root, path), LastKey(h, root, path), edit)
    ensures Agree(h, h', SafeSet(h, root, path, edit))
  {
    hide Last, LastKey, Chain, Dropped, NewContent, OnlyNew;
  }

  lemma StaysIn(h: Heap, h': Heap, root: NodeId, rank: map<NodeId, nat>, path: seq<string>, edit: Edit, x: NodeId)
    requires Tree(h, root, rank) && h[root].Mapping? && path != [] && x in h && !Dropped(h, root, path, edit, x)
    requires Shape(h, h', Last(h, root, path), LastKey(h, root, path), edit)
    ensures In(h', root, x)
  {
    hide Last, LastKey, Chain, Dropped, Shape, UniqueParents, Ranked, DistinctEntries;
    assert In(h, root, x);
    var nodes :| Descent(h, nodes) && nodes[0] == root && nodes[|nodes| - 1] == x;
    RestStays(h, h', root, path, edit, nodes);
  }

  lemma StaysOut(h: Heap, h': Heap, root: NodeId, rank: map<NodeId, nat>, path: seq<string>, edit: Edit, x: NodeId)
    requires Tree(h, root, rank) && h[root].Mapping? && path != [] && x in h && In(h', root, x)
    requires Shape(h, h', Last(h, root, path), LastKey(h, root, path), edit)
    ensures !Dropped(h, root, path, edit, x)
  {
    hide Last, LastKey, Chain, Dropped, Shape, Tree;
    var nodes :| Descent(h', nodes) && nodes[0] == root && nodes[|nodes| - 1] == x;
    DroppedIsOut(h, h', root, rank, path, edit, nodes);
  }

  lemma AliasIsOld(h: Heap, h': Heap, last: NodeId, key: string, edit: Edit, a: NodeId)
    requires last in h && h[last].Mapping? && Shape(h, h', last, key, edit) && a in h' && h'[a].Alias?
    ensures a in h && h'[a] == h[a]
  {
    hide NewContent;
  }

  lemma IntactIf(h: Heap, h': Heap, root: NodeId, rank: map<NodeId, nat>, path: seq<string>, edit: Edit)
    requires Tree(h, root, rank) && h[root].Mapping? && path != [] && NoAliasInto(h, root, path, edit)
    requires Shape(h, h', Last(h, root, path), LastKey(h, root, path), edit)
    ensures AliasesIntact(h, h', root)
  {
    hide Last, LastKey, Chain, Dropped, Shape, UniqueParents, Ranked, DistinctEntries, In, Closed, Agree, Expand;
    var s := SafeSet(h, root, path, edit);
    SafeIsClosed(h, root, rank, path, edit);
    SafeAgrees(h, h', root, path, edit);
    forall a | a in h' && In(h', root, a) && h'[a].Alias?
      ensures a in h && h'[a] == h[a] && In(h', root, h'[a].target) && SameMeaning(h, h', a)
    {
      AliasIsOld(h, h', Last(h, root, path), LastKey(h, root, path), edit, a);
      StaysOut(h, h', root, rank, path, edit, a);
      assert a in s;
      StaysIn(h, h', root, rank, path, edit, h[a].target);
      forall depth: nat ensures Expand(h', a, depth) == Expand(h, a, depth) {
        MeaningKept(h, h', s, a, depth);
      }
    }
  }

  lemma {:induction false} LastRank(h: Heap, root: NodeId, rank: map<NodeId, nat>, id: NodeId, path: seq<string>)
    requires Ranked(h, root, rank) && id in h && h[id].Mapping? && path != []
    ensures forall x :: x in Chain(h, id, path) ==> rank[x] <= rank[id]
    ensures rank[Last(h, id, path)] <= rank[id]
    ensures GoesOn(h, id, path) ==> rank[Last(h, id, path)] < rank[id]
    decreases |path|
  {
    hide IsChild, KeyIndex;
    if GoesOn(h, id, path) {
      NextIsChild(h, id, path[0]);
      LastRank(h, root, rank, Next(h, id, path[0]).value.value, path[1..]);
    }
  }

  /** A change of the last section shows in every section on the way to it. */
  lemma {:induction false} ChangeShows(h: Heap, h': Heap, root: NodeId, rank: map<NodeId, nat>, id: NodeId, path: seq<string>,
                                       x: NodeId)
    requires Ranked(h, root, rank) && id in h && h[id].Mapping? && path != []
    requires Changes(h, h', Last(h, id, path)) && x in Chain(h, id, path)
    requires forall y :: y in h && y != Last(h, id, path) ==> y in h' && h'[y] == h[y]
    ensures Changes(h, h', x)
    decreases |path|
  {
    hide KeyIndex, IsChild, Changes;
    if GoesOn(h, id, path) {
      var child := Next(h, id, path[0]).value.value;
      LastRank(h, root, rank, id, path);
      if x == id {
        ChangeShows(h, h', root, rank, child, path[1..], child);
        ChangeShowsAbove(h, h', id, path[0]);
      } else {
        ChangeShows(h, h', root, rank, child, path[1..], x);
      }
    }
  }

  lemma ChangeShowsAbove(h: Heap, h': Heap, id: NodeId, key: string)
    requires id in h && h[id].Mapping? && id in h' && h'[id] == h[id] && Next(h, id, key).Some?
    requires Changes(h, h', Next(h, id, key).value.value)
    ensures Changes(h, h', id)
  {
    var i := KeyIndex(h, h[id].content, key);
    var child := h[id].content[i].value;
    var depth: nat :| Expand(h', child, depth) != Expand(h, child, depth);
    assert Expand(h', id, depth + 1).entries[i].1 == Expand(h', child, depth);
    assert Expand(h, id, depth + 1).entries[i].1 == Expand(h, child, depth);
  }

  lemma AliasSeesTarget(h: Heap, h': Heap, a: NodeId)
    requires a in h && h[a].Alias? && a in h' && h'[a] == h[a] && SameMeaning(h, h', a)
    requires h[a].target in h && !h[h[a].target].Alias? && h[a].target in h' && !h'[h[a].target].Alias?
    ensures !Changes(h, h', h[a].target)
  {
    forall depth: nat ensures Expand(h', h[a].target, depth) == Expand(h, h[a].target, depth) {
      assert Expand(h', a, depth) == Expand(h, a, depth);
    }
  }

  lemma IntactOnlyIf(h: Heap, h': Heap, root: NodeId, rank: map<NodeId, nat>, path: seq<string>, edit: Edit, a: NodeId)
    requires Tree(h, root, rank) && h[root].Mapping? && path != [] && AliasesIntact(h, h', root)
    requires Shape(h, h', Last(h, root, path), LastKey(h, root, path), edit) && Changes(h, h', Last(h, root, path))
    requires a in h && h[a].Alias? && !Dropped(h, root, path, edit, a)
    ensures h[a].target !in Chain(h, root, path) && !Dropped(h, root, path, edit, h[a].target)
  {
    hide Last, LastKey, Chain, Dropped, UniqueParents, Ranked, DistinctEntries, In, Expand, NewContent, OnlyNew, Changes, SameMeaning;
    StaysIn(h, h', root, rank, path, edit, a);
    assert h'[a] == h[a];
    assert !h'[h[a].target].Alias?;
    AliasSeesTarget(h, h', a);
    StaysOut(h, h', root, rank, path, edit, h[a].target);
    if h[a].target in Chain(h, root, path) {
      ChangeShows(h, h', root, rank, root, path, h[a].target);
    }
  }

  /** An edit that changes its section keeps every alias intact exactly when no alias that stays leads to a
      section on the way to the key or into what the edit drops. */
  lemma IntactExactly(h: Heap, next: nat, root: NodeId, rank: map<NodeId, nat>, path: seq<string>, edit: Edit)
    requires Tree(h, root, rank) && h[root].Mapping? && path != [] && Unused(h, next)
    requires EditAt(h, next, root, path, edit).Edited?
    requires Changes(h, EditAt(h, next, root, path, edit).h, Last(h, root, path))
    ensures AliasesIntact(h, EditAt(h, next, root, path, edit).h, root) <==> NoAliasInto(h, root, path, edit)
  {
    hide Last, LastKey, Chain, Dropped, Tree, In, Changes, Shape, EditAt, AliasesIntact;
    var h' := EditAt(h, next, root, path, edit).h;
    EditShape(h, next, root, path, edit);
    if NoAliasInto(h, root, path, edit) {
      IntactIf(h, h', root, rank, path, edit);
    }
    if AliasesIntact(h, h', root) {
      forall a | a in h && h[a].Alias? && !Dropped(h, root, path, edit, a)
        ensures h[a].target !in Chain(h, root, path) && !Dropped(h, root, path, edit, h[a].target)
      {
        IntactOnlyIf(h, h', root, rank, path, edit, a);
      }
    }
  }

  /** An edit leaves what its section stands for as it was exactly when it writes back, at the end of its
      path, a value that already reads so. */
  lemma EditChanges(h: Heap, next: nat, root: NodeId, rank: map<NodeId, nat>, path: seq<string>, edit: Edit)
    requires Tree(h, root, rank) && h[root].Mapping? && path != [] && Unused(h, next)
    requires EditAt(h, next, root, path, edit).Edited?
    ensures Changes(h, EditAt(h, next, root, path, edit).h, Last(h, root, path)) <==> !WritesBack(h, root, path, edit)
  {
    hide Expand, OnlyNew, EditAt, Shape, Changes, Last, LastKey, WritesBack, In, Ranked, UniqueParents, DistinctEntries;
    EditShape(h, next, root, path, edit);
    if WritesBack(h, root, path, edit) {
      SameEverywhere(h, next, root, rank, path, edit);
    } else {
      NotWrittenBack(h, next, root, path, edit);
    }
  }

  predicate WritesBack(h: Heap, id: NodeId, path: seq<string>, edit: Edit)
    requires id in h && h[id].Mapping? && path != []
  {
    edit.SetTo? && Gone(h, id, path).Some? && Reaches(h, id, path)
    && Expand(h, Gone(h, id, path).value.value, 1) == Leaf(edit.value, ReadsAsNull(edit.value))
  }

  lemma NotWrittenBack(h: Heap, next: nat, id: NodeId, path: seq<string>, edit: Edit)
    requires id in h && h[id].Mapping? && path != [] && Unused(h, next) && EditAt(h, next, id, path, edit).Edited?
    requires !WritesBack(h, id, path, edit)
    ensures Changes(h, EditAt(h, next, id, path, edit).h, Last(h, id, path))
  {
    hide Expand, OnlyNew, EditAt;
    var h' := EditAt(h, next, id, path, edit).h;
    EditShape(h, next, id, path, edit);
    var last := Last(h, id, path);
    var content, content' := h[last].content, h'[last].content;
    if edit.Unset? || Gone(h, id, path).None? {
      assert |content'| != |content|;
      EntryCounts(h, last);
      EntryCounts(h', last);
      assert Expand(h', last, 1) != Expand(h, last, 1);
    } else {
      ReplacedReads(h, next, id, path, edit);
      var i := KeyIndex(h, content, LastKey(h, id, path));
      EntryReads(h, last, i, 2);
      EntryReads(h', last, i, 2);
      ReadsScalar(h, content[i].value);
      ReadsScalar(h', content'[i].value);
      ReadsMapping(h', content'[i].value);
      assert Expand(h', last, 2) != Expand(h, last, 2);
    }
  }

  lemma ReadsScalar(h: Heap, x: NodeId)
    ensures x in h && h[x].Scalar? ==> forall depth: nat :: depth > 0 ==> Expand(h, x, depth) == Leaf(h[x].value, h[x].isNull)
    ensures forall depth: nat :: depth > 0 && Expand(h, x, 1).Leaf? ==> Expand(h, x, depth) == Expand(h, x, 1)
  {
  }

  lemma ReadsMapping(h: Heap, x: NodeId)
    ensures x in h && h[x].Mapping? ==> Expand(h, x, 1).Map?
  {
  }

  lemma SameEverywhere(h: Heap, next: nat, root: NodeId, rank: map<NodeId, nat>, path: seq<string>, edit: Edit)
    requires Tree(h, root, rank) && h[root].Mapping? && path != [] && Unused(h, next)
    requires EditAt(h, next, root, path, edit).Edited? && WritesBack(h, root, path, edit)
    ensures forall x :: x in h ==> SameMeaning(h, EditAt(h, next, root, path, edit).h, x)
    ensures !Changes(h, EditAt(h, next, root, path, edit).h, Last(h, root, path))
  {
    hide EditAt, WritesBack, Expand, In, Ranked, UniqueParents, DistinctEntries;
    var h' := EditAt(h, next, root, path, edit).h;
    forall x | x in h ensures SameMeaning(h, h', x) {
      forall depth: nat ensures Expand(h', x, depth) == Expand(h, x, depth) {
        SameToDepth(h, next, root, rank, path, edit, x, depth);
      }
    }
  }

  /** A node that reads as the value set is put in the place of one that does, and everything else is where
      it was, so nothing reads differently. */
  lemma {:induction false} SameToDepth(h: Heap, next: nat, root: NodeId, rank: map<NodeId, nat>, path: seq<string>, edit: Edit,
                                       x: NodeId, depth: nat)
    requires Tree(h, root, rank) && h[root].Mapping? && path != [] && Unused(h, next)
    requires EditAt(h, next, root, path, edit).Edited? && WritesBack(h, root, path, edit) && x in h
    ensures Expand(EditAt(h, next, root, path, edit).h, x, depth) == Expand(h, x, depth)
    decreases depth, h[x].Alias?
  {
    hide Expand, IsChild, EditAt, In, WritesBack, Last, LastKey, DistinctEntries, UniqueParents, OnlyNew, NewContent, KeyIndex;
    var h' := EditAt(h, next, root, path, edit).h;
    EditShape(h, next, root, path, edit);
    var last := Last(h, root, path);
    if depth > 0 {
      forall c | IsChild(h, x, c) ensures c in h && Expand(h', c, depth - 1) == Expand(h, c, depth - 1) {
        SameToDepth(h, next, root, rank, path, edit, c, depth - 1);
      }
    }
    if depth == 0 {
      ExpandNothing(h, x);
      ExpandNothing(h', x);
    } else if x == last {
      WrittenBackReads(h, next, root, path, edit, depth);
    } else if h[x].Scalar? {
      ExpandLeaf(h, h', x, depth);
    } else {
      match h[x]
      case Mapping(_, _) => ExpandMapping(h, h', x, depth);
      case Sequence(_, _) => ExpandSequence(h, h', x, depth);
      case Alias(target, _) =>
        SameToDepth(h, next, root, rank, path, edit, target, depth);
        AliasIsOldIn(h, h', last, LastKey(h, root, path), edit, target);
        ExpandAlias(h, h', x, depth);
    }
  }

  lemma ExpandNothing(h: Heap, x: NodeId)
    ensures Expand(h, x, 0) == Cut
  {
  }

  lemma AliasIsOldIn(h: Heap, h': Heap, last: NodeId, key: string, edit: Edit, t: NodeId)
    requires last in h && h[last].Mapping? && Shape(h, h', last, key, edit) && t in h && !h[t].Alias?
    ensures t in h' && !h'[t].Alias?
  {
    hide NewContent, OnlyNew;
  }

  lemma WrittenBackReads(h: Heap, next: nat, id: NodeId, path: seq<string>, edit: Edit, depth: nat)
    requires id in h && h[id].Mapping? && path != [] && Unused(h, next) && depth > 0
    requires EditAt(h, next, id, path, edit).Edited? && WritesBack(h, id, path, edit)
    requires var h' := EditAt(h, next, id, path, edit).h;
      forall c :: IsChild(h, Last(h, id, path), c) ==> Expand(h', c, depth - 1) == Expand(h, c, depth - 1)
    ensures Expand(EditAt(h, next, id, path, edit).h, Last(h, id, path), depth) == Expand(h, Last(h, id, path), depth)
  {
    hide EditAt, IsChild, KeyIndex, OnlyNew;
    var h' := EditAt(h, next, id, path, edit).h;
    var last := Last(h, id, path);
    EditShape(h, next, id, path, edit);
    ReplacedReads(h, next, id, path, edit);
    var content, content' := h[last].content, h'[last].content;
    var i := KeyIndex(h, content, LastKey(h, id, path));
    ReadsScalar(h, content[i].value);
    ReadsScalar(h', content'[i].value);
    hide Last, LastKey, Shape;
    forall j | 0 <= j < |content|
      ensures Expand(h', content'[j].key, depth - 1) == Expand(h, content[j].key, depth - 1)
      ensures Expand(h', content'[j].value, depth - 1) == Expand(h, content[j].value, depth - 1)
    {
      EntryIsChild(h, last, j);
      if depth == 1 {
        ExpandNothing(h, content[j].value);
        ExpandNothing(h', content'[j].value);
      }
    }
    EntriesAgree(h, h', last, depth);
  }

  lemma EntriesAgree(h: Heap, h': Heap, x: NodeId, depth: nat)
    requires x in h && h[x].Mapping? && x in h' && h'[x].Mapping? && |h'[x].content| == |h[x].content| && depth > 0
    requires forall j :: 0 <= j < |h[x].content| ==>
      Expand(h', h'[x].content[j].key, depth - 1) == Expand(h, h[x].content[j].key, depth - 1)
    requires forall j :: 0 <= j < |h[x].content| ==>
      Expand(h', h'[x].content[j].value, depth - 1) == Expand(h, h[x].content[j].value, depth - 1)
    ensures Expand(h', x, depth) == Expand(h, x, depth)
  {
    assert Expand(h', x, depth).entries == Expand(h, x, depth).entries;
  }

  lemma EntryCounts(h: Heap, x: NodeId)
    requires x in h && h[x].Mapping?
    ensures Expand(h, x, 1).Map? && |Expand(h, x, 1).entries| == |h[x].content|
  {
  }

  lemma EntryReads(h: Heap, x: NodeId, i: nat, depth: nat)
    requires x in h && h[x].Mapping? && i < |h[x].content| && depth > 0
    ensures Expand(h, x, depth).Map? && |Expand(h, x, depth).entries| == |h[x].content|
    ensures Expand(h, x, depth).entries[i].1 == Expand(h, h[x].content[i].value, depth - 1)
  {
  }

  /** What a set puts in the place of the old value: the value set at the end of the path, and a section
      for a null on the way. The other entries stay. */
  lemma {:induction false} ReplacedReads(h: Heap, next: nat, id: NodeId, path: seq<string>, edit: Edit)
    requires id in h && h[id].Mapping? && path != [] && Unused(h, next)
    requires EditAt(h, next, id, path, edit).Edited? && edit.SetTo? && Gone(h, id, path).Some?
    ensures var h' := EditAt(h, next, id, path, edit).h; var last := Last(h, id, path);
      var i := KeyIndex(h, h[last].content, LastKey(h, id, path));
      last in h' && h'[last].Mapping? && |h'[last].content| == |h[last].content| &&
      (forall j :: 0 <= j < |h[last].content| ==>
         h'[last].content[j].key == h[last].content[j].key && (j != i ==> h'[last].content[j] == h[last].content[j])) &&
      var v := h'[last].content[i].value;
      v in h' && h[last].content[i].value in h &&
      (Reaches(h, id, path) ==> h'[v].Scalar? && h'[v].value == edit.value && h'[v].isNull == ReadsAsNull(edit.value)) &&
      (!Reaches(h, id, path) ==> h'[v].Mapping? && h[h[last].content[i].value].Scalar?)
    decreases |path|
  {
    hide OnlyNew, KeyIndex, IsChild;
    if GoesOn(h, id, path) {
      ReplacedReads(h, next, Next(h, id, path[0]).value.value, path[1..], edit);
    } else if |path| > 1 {
      var i := KeyIndex(h, h[id].content, path[0]);
      var h1 := Put(h, id, h[id].content[i := h[id].content[i].(value := next)])
        [next := Mapping([], AnchorOf(h[h[id].content[i].value]))];
      FillsNewSection(h1, next + 1, next, path[1..], edit);
      FilledIsMapping(h1, next + 1, next, path[1..], edit);
    }
  }

  /** The node a set puts in the place of a value or of a null section carries its anchor. */
  lemma {:induction false} ReplacedKeepsAnchor(h: Heap, next: nat, id: NodeId, path: seq<string>, edit: Edit)
    requires id in h && h[id].Mapping? && path != [] && Unused(h, next)
    requires EditAt(h, next, id, path, edit).Edited? && edit.SetTo? && Gone(h, id, path).Some?
    ensures var h' := EditAt(h, next, id, path, edit).h; var last := Last(h, id, path);
      var i := KeyIndex(h, h[last].content, LastKey(h, id, path));
      && last in h' && h'[last].Mapping? && |h'[last].content| == |h[last].content|
      && Gone(h, id, path).value.value in h && h'[last].content[i].value in h'
      && AnchorOf(h'[h'[last].content[i].value]) == AnchorOf(h[Gone(h, id, path).value.value])
    decreases |path|
  {
    hide OnlyNew, IsChild;
    if GoesOn(h, id, path) {
      ReplacedKeepsAnchor(h, next, Next(h, id, path[0]).value.value, path[1..], edit);
    } else if |path| > 1 {
      var i := KeyIndex(h, h[id].content, path[0]);
      var h1 := Put(h, id, h[id].content[i := h[id].content[i].(value := next)])
        [next := Mapping([], AnchorOf(h[h[id].content[i].value]))];
      FillsNewSection(h1, next + 1, next, path[1..], edit);
      FilledIsMapping(h1, next + 1, next, path[1..], edit);
    }
  }

  lemma {:induction false} FilledIsMapping(h: Heap, next: nat, id: NodeId, path: seq<string>, edit: Edit)
    requires id in h && h[id].Mapping? && h[id].content == [] && path != [] && Unused(h, next) && edit.SetTo?
    ensures var r := EditAt(h, next, id, path, edit); r.Edited? && id in r.h && r.h[id].Mapping? && r.h[id].anchor == h[id].anchor
  {
    hide OnlyNew;
    EmptyHasNoKey(h, path[0]);
    if |path| > 1 {
      var h2 := Put(h, id, h[id].content + [Entry(next, next + 1)])[next := NewScalar(path[0], "")][next + 1 := Mapping([], "")];
      FillsNewSection(h2, next + 2, next + 1, path[1..], edit);
    }
  }

  // ---- the check before an edit ----

  /** An alias found in the tree: the node it refers to and its place, the keys on the way and the list
      indices after the last key. */
  datatype Ref = Ref(target: NodeId, alias: NodeId, keys: seq<string>, idx: seq<nat>)

  function KeyText(h: Heap, k: NodeId): string {
    if k !in h then "" else
    match h[k]
    case Scalar(value, _, _) => value
    case Alias(_, name) => name
    case _ => ""
  }

  lemma RankedBelow(h: Heap, root: NodeId, rank: map<NodeId, nat>, id: NodeId)
    requires Ranked(h, root, rank) && id in h
    ensures rank.Keys == h.Keys
    ensures h[id].Mapping? ==> forall i :: 0 <= i < |h[id].content| ==>
      h[id].content[i].value in h && rank[h[id].content[i].value] < rank[id]
    ensures h[id].Sequence? ==> forall i :: 0 <= i < |h[id].items| ==> h[id].items[i] in h && rank[h[id].items[i]] < rank[id]
  {
    hide IsChild;
    if h[id].Mapping? {
      forall i | 0 <= i < |h[id].content|
        ensures h[id].content[i].value in h && rank[h[id].content[i].value] < rank[id]
      {
        EntryIsChild(h, id, i);
      }
    }
    if h[id].Sequence? {
      forall i | 0 <= i < |h[id].items| ensures h[id].items[i] in h && rank[h[id].items[i]] < rank[id] {
        ItemIsChild(h, id, i);
      }
    }
  }

  /** aliasPaths: the aliases at and below `id`. Keys are not walked, and a list index is forgotten once a
      key follows it. */
  function AliasRefs(h: Heap, root: NodeId, rank: map<NodeId, nat>, id: NodeId, keys: seq<string>, idx: seq<nat>): set<Ref>
    requires Ranked(h, root, rank) && id in h
    decreases rank[id]
  {
    RankedBelow(h, root, rank, id);
    match h[id]
    case Alias(target, _) => {Ref(target, id, keys, idx)}
    case Scalar(_, _, _) => {}
    case Mapping(content, _) =>
      set i, r | 0 <= i < |content| && r in AliasRefs(h, root, rank, content[i].value, keys + [KeyText(h, content[i].key)], []) :: r
    case Sequence(items, _) =>
      set i, r | 0 <= i < |items| && r in AliasRefs(h, root, rank, items[i], keys, idx + [i]) :: r
  }

  /** The node carries an anchor that an alias refers to. */
  predicate Shared(h: Heap, refs: set<Ref>, x: NodeId) {
    x in h && AnchorOf(h[x]) != "" && exists r :: r in refs && r.target == x
  }

  /** The node carries an anchor that an alias outside the edited path refers to. */
  predicate SharedOutside(h: Heap, refs: set<Ref>, prefix: string, x: NodeId) {
    x in h && AnchorOf(h[x]) != "" && exists r :: r in refs && r.target == x && !AtOrBelow(Render(r.keys, r.idx), prefix)
  }

  /** refuseAnchorsBelow: some node below `id` is shared with the outside. */
  predicate RefuseBelow(h: Heap, root: NodeId, rank: map<NodeId, nat>, refs: set<Ref>, prefix: string, id: NodeId)
    requires Ranked(h, root, rank) && id in h
    decreases rank[id]
  {
    RankedBelow(h, root, rank, id);
    match h[id]
    case Mapping(content, _) =>
      exists i :: 0 <= i < |content| &&
        (SharedOutside(h, refs, prefix, content[i].value) || RefuseBelow(h, root, rank, refs, prefix, content[i].value))
    case Sequence(items, _) =>
      exists i :: 0 <= i < |items| &&
        (SharedOutside(h, refs, prefix, items[i]) || RefuseBelow(h, root, rank, refs, prefix, items[i]))
    case _ => false
  }

  /** refuseSharedAnchors from the section `id`, reached along `done`. */
  predicate RefuseAt(h: Heap, root: NodeId, rank: map<NodeId, nat>, refs: set<Ref>, id: NodeId, done: seq<string>, path: seq<string>)
    requires Ranked(h, root, rank) && id in h && h[id].Mapping? && path != []
    decreases |path|
  {
    var e := Next(h, id, path[0]);
    e.Some? && e.value.value in h &&
    (|| Shared(h, refs, e.value.value)
     || (if |path| == 1 then RefuseBelow(h, root, rank, refs, FormatPath(done + path), e.value.value)
         else h[e.value.value].Mapping? && RefuseAt(h, root, rank, refs, e.value.value, done + [path[0]], path[1..])))
  }

  predicate RefusesShared(h: Heap, root: NodeId, rank: map<NodeId, nat>, path: seq<string>)
    requires Ranked(h, root, rank) && root in h && h[root].Mapping? && path != []
  {
    RefuseAt(h, root, rank, AliasRefs(h, root, rank, root, [], []), root, [], path)
  }

  // ---- what the check sees ----

  /** Every key is a plain scalar that no alias refers to. */
  ghost predicate PlainKeys(h: Heap) {
    forall p, i :: p in h && h[p].Mapping? && 0 <= i < |h[p].content| ==>
      h[p].content[i].key in h && h[h[p].content[i].key].Scalar? && NotReferred(h, h[p].content[i].key)
  }

  ghost predicate NotReferred(h: Heap, x: NodeId) {
    forall a :: a in h && h[a].Alias? ==> h[a].target != x
  }

  /** No mapping holds a key twice, merge keys aside. */
  ghost predicate UniqueKeys(h: Heap) {
    forall p :: p in h && h[p].Mapping? ==> DistinctKeys(h, h[p].content)
  }

  ghost predicate DistinctKeys(h: Heap, content: seq<Entry>) {
    forall i, j :: 0 <= i < j < |content| && KeyText(h, content[i].key) == KeyText(h, content[j].key)
      ==> KeyText(h, content[i].key) == "<<"
  }

  lemma InFirst(h: Heap, r: NodeId, x: NodeId) returns (c: NodeId)
    requires In(h, r, x) && x != r
    ensures IsChild(h, r, c) && In(h, c, x)
  {
    hide IsChild;
    var nodes :| Descent(h, nodes) && nodes[0] == r && nodes[|nodes| - 1] == x;
    c := nodes[1];
    var tail := nodes[1..];
    assert IsChild(h, nodes[0], nodes[0 + 1]);
    forall i | 0 <= i < |tail| - 1 ensures IsChild(h, tail[i], tail[i + 1]) {
      assert IsChild(h, nodes[i + 1], nodes[i + 1 + 1]);
    }
  }

  lemma ScalarIsLeaf(h: Heap, r: NodeId, x: NodeId)
    requires r in h && h[r].Scalar? && In(h, r, x)
    ensures x == r
  {
    hide In;
    if x != r {
      var c := InFirst(h, r, x);
      assert false;
    }
  }

  /** Below a node, everything that is no key is an entry's value, an item, or below one. */
  lemma InStepsDown(h: Heap, r: NodeId, x: NodeId)
    requires PlainKeys(h) && r in h && In(h, r, x) && x != r && x in h && (h[x].Scalar? ==> !NotReferred(h, x))
    ensures h[r].Mapping? || h[r].Sequence?
    ensures h[r].Mapping? ==> exists i :: 0 <= i < |h[r].content| && In(h, h[r].content[i].value, x)
    ensures h[r].Sequence? ==> exists i :: 0 <= i < |h[r].items| && In(h, h[r].items[i], x)
  {
    hide In, NotReferred;
    var c := InFirst(h, r, x);
    if h[r].Mapping? {
      var e :| e in h[r].content && (e.key == c || e.value == c);
      var i :| 0 <= i < |h[r].content| && h[r].content[i] == e;
      if e.value != c {
        ScalarIsLeaf(h, h[r].content[i].key, x);
      }
    }
  }

  lemma {:induction false} RefOf(h: Heap, root: NodeId, rank: map<NodeId, nat>, id: NodeId, keys: seq<string>, idx: seq<nat>,
                                 a: NodeId)
    requires Ranked(h, root, rank) && PlainKeys(h) && id in h && In(h, id, a) && a in h && h[a].Alias?
    ensures exists r :: r in AliasRefs(h, root, rank, id, keys, idx) && r.alias == a && r.target == h[a].target
    decreases rank[id]
  {
    hide In, PlainKeys, Ranked;
    RankedBelow(h, root, rank, id);
    if a == id {
      assert Ref(h[a].target, a, keys, idx) in AliasRefs(h, root, rank, id, keys, idx);
    } else {
      InStepsDown(h, id, a);
      if h[id].Mapping? {
        var i :| 0 <= i < |h[id].content| && In(h, h[id].content[i].value, a);
        RefOf(h, root, rank, h[id].content[i].value, keys + [KeyText(h, h[id].content[i].key)], [], a);
      } else {
        var i :| 0 <= i < |h[id].items| && In(h, h[id].items[i], a);
        RefOf(h, root, rank, h[id].items[i], keys, idx + [i], a);
      }
    }
  }

  lemma {:induction false} RefIsBelow(h: Heap, root: NodeId, rank: map<NodeId, nat>, id: NodeId, keys: seq<string>,
                                      idx: seq<nat>, r: Ref)
    requires Ranked(h, root, rank) && id in h && r in AliasRefs(h, root, rank, id, keys, idx)
    ensures In(h, id, r.alias) && keys <= r.keys
    decreases rank[id]
  {
    hide In, Ranked, IsChild;
    RankedBelow(h, root, rank, id);
    match h[id]
    case Alias(_, _) => InRefl(h, id);
    case Scalar(_, _, _) =>
    case Mapping(content, _) =>
      var i :| 0 <= i < |content| && r in AliasRefs(h, root, rank, content[i].value, keys + [KeyText(h, content[i].key)], []);
      RefIsBelow(h, root, rank, content[i].value, keys + [KeyText(h, content[i].key)], [], r);
      EntryIsChild(h, id, i);
      InAbove(h, id, content[i].value, r.alias);
    case Sequence(items, _) =>
      var i :| 0 <= i < |items| && r in AliasRefs(h, root, rank, items[i], keys, idx + [i]);
      RefIsBelow(h, root, rank, items[i], keys, idx + [i], r);
      ItemIsChild(h, id, i);
      InAbove(h, id, items[i], r.alias);
  }

  lemma InAbove(h: Heap, r: NodeId, c: NodeId, x: NodeId)
    requires IsChild(h, r, c) && In(h, c, x)
    ensures In(h, r, x)
  {
    hide IsChild;
    var nodes :| Descent(h, nodes) && nodes[0] == c && nodes[|nodes| - 1] == x;
    var longer := [r] + nodes;
    assert forall i :: 0 < i < |longer| ==> longer[i] == nodes[i - 1];
    assert Descent(h, longer);
  }

  /** The edited path is found to its end. */
  predicate Reaches(h: Heap, id: NodeId, path: seq<string>)
    requires id in h && h[id].Mapping? && path != []
    decreases |path|
  {
    |path| == 1 || (GoesOn(h, id, path) && Reaches(h, Next(h, id, path[0]).value.value, path[1..]))
  }

  /** An alias whose keys start with the edited path lies in the value at that path. */
  lemma {:induction false} RefAtPath(h: Heap, root: NodeId, rank: map<NodeId, nat>, id: NodeId, done: seq<string>,
                                     path: seq<string>, r: Ref)
    requires Ranked(h, root, rank) && UniqueKeys(h) && id in h && h[id].Mapping? && path != []
    requires r in AliasRefs(h, root, rank, id, done, []) && done + path <= r.keys
    requires Reaches(h, id, path) && Gone(h, id, path).Some?
    ensures In(h, Gone(h, id, path).value.value, r.alias)
    decreases |path|
  {
    hide In, Ranked, IsChild, UniqueKeys, FindFrom;
    RankedBelow(h, root, rank, id);
    var content := h[id].content;
    var j :| 0 <= j < |content| && r in AliasRefs(h, root, rank, content[j].value, done + [KeyText(h, content[j].key)], []);
    RefIsBelow(h, root, rank, content[j].value, done + [KeyText(h, content[j].key)], [], r);
    assert r.keys[|done|] == (done + path)[|done|] == path[0];
    assert r.keys[|done|] == (done + [KeyText(h, content[j].key)])[|done|];
    OnlyEntry(h, id, path[0], j);
    var child := content[j].value;
    if |path| > 1 {
      assert done + path == (done + [path[0]]) + path[1..];
      RefAtPath(h, root, rank, child, done + [path[0]], path[1..], r);
    }
  }

  lemma OnlyEntry(h: Heap, id: NodeId, key: string, j: nat)
    requires UniqueKeys(h) && id in h && h[id].Mapping? && Next(h, id, key).Some?
    requires j < |h[id].content| && KeyText(h, h[id].content[j].key) == key
    ensures Next(h, id, key) == Some(h[id].content[j])
  {
    hide FindFrom;
    var i := KeyIndex(h, h[id].content, key);
    assert DistinctKeys(h, h[id].content);
    assert KeyText(h, h[id].content[i].key) == key;
  }

  lemma {:induction false} BelowIsClear(h: Heap, root: NodeId, rank: map<NodeId, nat>, refs: set<Ref>, prefix: string,
                                        id: NodeId, r: Ref)
    requires Ranked(h, root, rank) && PlainKeys(h) && id in h && !RefuseBelow(h, root, rank, refs, prefix, id)
    requires r in refs && r.target in h && In(h, id, r.target) && r.target != id
    requires AnchorOf(h[r.target]) != "" && !NotReferred(h, r.target)
    ensures AtOrBelow(Render(r.keys, r.idx), prefix)
    decreases rank[id]
  {
    hide In, Ranked, IsChild, PlainKeys, NotReferred, AtOrBelow;
    RankedBelow(h, root, rank, id);
    InStepsDown(h, id, r.target);
    if h[id].Mapping? {
      var i :| 0 <= i < |h[id].content| && In(h, h[id].content[i].value, r.target);
      var c := h[id].content[i].value;
      assert !SharedOutside(h, refs, prefix, c) && !RefuseBelow(h, root, rank, refs, prefix, c);
      if c != r.target { BelowIsClear(h, root, rank, refs, prefix, c, r); }
    } else {
      var i :| 0 <= i < |h[id].items| && In(h, h[id].items[i], r.target);
      var c := h[id].items[i];
      assert !SharedOutside(h, refs, prefix, c) && !RefuseBelow(h, root, rank, refs, prefix, c);
      if c != r.target { BelowIsClear(h, root, rank, refs, prefix, c, r); }
    }
  }

  /** A section on the way, past the first, is not shared when the check passes. */
  lemma {:induction false} ChainIsClear(h: Heap, root: NodeId, rank: map<NodeId, nat>, refs: set<Ref>, id: NodeId,
                                        done: seq<string>, path: seq<string>, x: NodeId)
    requires Ranked(h, root, rank) && id in h && h[id].Mapping? && path != []
    requires !RefuseAt(h, root, rank, refs, id, done, path) && x in Chain(h, id, path) && x != id
    ensures !Shared(h, refs, x)
    decreases |path|
  {
    hide Ranked, IsChild, Shared, KeyIndex;
    var child := Next(h, id, path[0]).value.value;
    if x != child {
      ChainIsClear(h, root, rank, refs, child, done + [path[0]], path[1..], x);
    }
  }

  /** Nor is the value the edit drops, and what lies below it is shared only from within. */
  lemma {:induction false} GoneIsClear(h: Heap, root: NodeId, rank: map<NodeId, nat>, refs: set<Ref>, id: NodeId,
                                       done: seq<string>, path: seq<string>)
    requires Ranked(h, root, rank) && id in h && h[id].Mapping? && path != []
    requires !RefuseAt(h, root, rank, refs, id, done, path) && Gone(h, id, path).Some? && Gone(h, id, path).value.value in h
    ensures !Shared(h, refs, Gone(h, id, path).value.value)
    ensures Reaches(h, id, path) ==> !RefuseBelow(h, root, rank, refs, FormatPath(done + path), Gone(h, id, path).value.value)
    decreases |path|
  {
    hide Ranked, IsChild, Shared, KeyIndex, RefuseBelow, FormatPath;
    if GoesOn(h, id, path) {
      assert done + path == (done + [path[0]]) + path[1..];
      GoneIsClear(h, root, rank, refs, Next(h, id, path[0]).value.value, done + [path[0]], path[1..]);
    }
  }

  /** An edit that stops before the end of the path replaces a null. */
  lemma {:induction false} StopsAtNull(h: Heap, next: nat, id: NodeId, path: seq<string>, edit: Edit)
    requires id in h && h[id].Mapping? && path != [] && EditAt(h, next, id, path, edit).Edited?
    requires Gone(h, id, path).Some? && !Reaches(h, id, path)
    ensures Gone(h, id, path).value.value in h && h[Gone(h, id, path).value.value].Scalar?
    decreases |path|
  {
    hide KeyIndex;
    if GoesOn(h, id, path) {
      StopsAtNull(h, next, Next(h, id, path[0]).value.value, path[1..], edit);
    }
  }

  /** The node is a scalar, or an alias that stands for no mapping and no list. */
  predicate StandsForValue(h: Heap, x: NodeId)
    requires x in h
  {
    match h[x]
    case Scalar(_, _, _) => true
    case Alias(target, _) => target in h ==> !h[target].Mapping? && !h[target].Sequence?
    case _ => false
  }

  /** When an edit succeeds. A path that stops early stops at a missing key, or at something in the place of
      a section: only a set goes on, and only from a missing key or a null. A path that reaches its end
      needs the key for unset, and a value that is no section for set. The refusal says which it was. */
  lemma {:induction false} AcceptsExactly(h: Heap, next: nat, id: NodeId, path: seq<string>, edit: Edit)
    requires id in h && h[id].Mapping? && path != [] && Unused(h, next)
    requires Gone(h, id, path).Some? ==> Gone(h, id, path).value.value in h
    ensures EditAt(h, next, id, path, edit).Edited? <==>
      if Gone(h, id, path).None? then edit.SetTo?
      else if Reaches(h, id, path) then edit.Unset? || StandsForValue(h, Gone(h, id, path).value.value)
      else edit.SetTo? && h[Gone(h, id, path).value.value].Scalar? && h[Gone(h, id, path).value.value].isNull
    ensures EditAt(h, next, id, path, edit).Refused? ==> (EditAt(h, next, id, path, edit).why ==
      if Gone(h, id, path).None? then NotSet
      else if Reaches(h, id, path) then NotAValue
      else if h[Gone(h, id, path).value.value].Scalar? && h[Gone(h, id, path).value.value].isNull then NotSet
      else NotASection)
    decreases |path|
  {
    hide OnlyNew, IsChild, KeyIndex;
    if GoesOn(h, id, path) {
      AcceptsExactly(h, next, Next(h, id, path[0]).value.value, path[1..], edit);
    } else if |path| > 1 && edit.SetTo? {
      var i := KeyIndex(h, h[id].content, path[0]);
      if i < 0 {
        var h1 := Put(h, id, h[id].content + [Entry(next, next + 1)])[next := NewScalar(path[0], "")][next + 1 := Mapping([], "")];
        FillsNewSection(h1, next + 2, next + 1, path[1..], edit);
      } else {
        var h1 := Put(h, id, h[id].content[i := h[id].content[i].(value := next)])
          [next := Mapping([], AnchorOf(h[h[id].content[i].value]))];
        FillsNewSection(h1, next + 1, next, path[1..], edit);
      }
    }
  }

  lemma GoneKeyIsKey(h: Heap, root: NodeId, path: seq<string>)
    requires PlainKeys(h) && root in h && h[root].Mapping? && path != [] && Gone(h, root, path).Some?
    ensures NotReferred(h, Gone(h, root, path).value.key)
  {
    hide NotReferred, Last, LastKey, Chain;
  }

  ghost predicate RootNotReferred(h: Heap, root: NodeId, path: seq<string>, edit: Edit)
    requires root in h && h[root].Mapping? && path != []
  {
    forall a :: a in h && h[a].Alias? && !Dropped(h, root, path, edit, a) ==> h[a].target != root
  }

  lemma AcceptedTarget(h: Heap, next: nat, root: NodeId, rank: map<NodeId, nat>, path: seq<string>, edit: Edit, a: NodeId)
    requires Tree(h, root, rank) && PlainKeys(h) && UniqueKeys(h) && h[root].Mapping? && path != []
    requires EditAt(h, next, root, path, edit).Edited? && !RefusesShared(h, root, rank, path)
    requires a in h && h[a].Alias? && !Dropped(h, root, path, edit, a) && h[a].target != root
    ensures h[a].target !in Chain(h, root, path) && !Dropped(h, root, path, edit, h[a].target)
  {
    hide In, Last, LastKey, Chain, EditAt, RefuseAt, AliasRefs, PlainKeys, UniqueKeys, Reaches, NotReferred, Render, FormatPath, IsChild,
      UniqueParents, DistinctEntries, Gone, AtOrBelow, Ranked, RefuseBelow;
    var refs := AliasRefs(h, root, rank, root, [], []);
    var t := h[a].target;
    RefOf(h, root, rank, root, [], [], a);
    var r :| r in refs && r.alias == a && r.target == t;
    assert Shared(h, refs, t);
    assert !NotReferred(h, t) by { ReferredTo(h, a); }
    if t in Chain(h, root, path) {
      ChainIsClear(h, root, rank, refs, root, [], path, t);
    }
    if Dropped(h, root, path, edit, t) {
      var e := Gone(h, root, path).value;
      GoneKeyIsKey(h, root, path);
      GoneInHeap(h, root, rank, path);
      GoneIsClear(h, root, rank, refs, root, [], path);
      assert [] + path == path;
      if Reaches(h, root, path) {
        BelowIsClear(h, root, rank, refs, FormatPath(path), e.value, r);
        PrefixTestIsFaithful(path, r.keys, r.idx);
        RefAtPath(h, root, rank, root, [], path, r);
      } else {
        StopsAtNull(h, next, root, path, edit);
        ScalarIsLeaf(h, e.value, t);
      }
    }
  }

  lemma ReferredTo(h: Heap, a: NodeId)
    requires a in h && h[a].Alias?
    ensures !NotReferred(h, h[a].target)
  {
  }

  lemma GoneInHeap(h: Heap, root: NodeId, rank: map<NodeId, nat>, path: seq<string>)
    requires Ranked(h, root, rank) && root in h && h[root].Mapping? && path != [] && Gone(h, root, path).Some?
    ensures Gone(h, root, path).value.value in h
  {
    hide IsChild, Last, LastKey, Chain, Gone;
    GoneHangs(h, root, path);
  }

  /** With keys that are plain and unique, an edit the check lets through leads no alias astray unless an
      alias refers to the root, whose anchor the check never looks at: then and only then does one lead to a
      section the edit changes. */
  lemma AcceptedExactly(h: Heap, next: nat, root: NodeId, rank: map<NodeId, nat>, path: seq<string>, edit: Edit)
    requires Tree(h, root, rank) && PlainKeys(h) && UniqueKeys(h) && h[root].Mapping? && path != []
    requires EditAt(h, next, root, path, edit).Edited? && !RefusesShared(h, root, rank, path)
    ensures NoAliasInto(h, root, path, edit) <==> RootNotReferred(h, root, path, edit)
  {
    hide Dropped, EditAt, RefusesShared, PlainKeys, UniqueKeys, UniqueParents, Ranked, DistinctEntries, In;
    if RootNotReferred(h, root, path, edit) {
      forall a | a in h && h[a].Alias? && !Dropped(h, root, path, edit, a)
        ensures h[a].target !in Chain(h, root, path) && !Dropped(h, root, path, edit, h[a].target)
      {
        AcceptedTarget(h, next, root, rank, path, edit, a);
      }
    }
    assert root in Chain(h, root, path);
  }
}
