/** When the check before an edit refuses: exactly when an alias refers to something the edit would change for it. */
module YamlRefuse {
  import opened YamlTree
  import opened YamlEdit
  import opened ConfigPath
  import opened YamlAlias
  import opened YamlSafety

  // ---- branches of the tree ----

  lemma InThrough(h: Heap, r: NodeId, x: NodeId, y: NodeId)
    requires In(h, r, x) && In(h, x, y)
    ensures In(h, r, y)
  {
    hide IsChild;
    var up :| Descent(h, up) && up[0] == r && up[|up| - 1] == x;
    var down :| Descent(h, down) && down[0] == x && down[|down| - 1] == y;
    var all := up + down[1..];
    forall i | 0 <= i < |all| - 1 ensures IsChild(h, all[i], all[i + 1]) {
      if i < |up| - 1 {
        assert IsChild(h, up[i], up[i + 1]);
      } else {
        var k := i - (|up| - 1);
        assert all[i] == down[k] && all[i + 1] == down[k + 1];
        assert IsChild(h, down[k], down[k + 1]);
      }
    }
    assert Descent(h, all) && all[|all| - 1] == y;
  }

  lemma ChildBelow(h: Heap, root: NodeId, rank: map<NodeId, nat>, p: NodeId, c: NodeId)
    requires Ranked(h, root, rank) && IsChild(h, p, c)
    ensures rank.Keys == h.Keys && c in h && p in h && rank[c] < rank[p]
  {
  }

  function Apart(rank: map<NodeId, nat>, p: NodeId, x: NodeId): nat {
    if p in rank && x in rank && rank[p] > rank[x] then rank[p] - rank[x] else 0
  }

  /** No node lies below two children of one node. */
  lemma {:induction false} SameBranch(h: Heap, root: NodeId, rank: map<NodeId, nat>, p: NodeId, c: NodeId, d: NodeId, x: NodeId)
    requires Ranked(h, root, rank) && UniqueParents(h) && IsChild(h, p, c) && IsChild(h, p, d) && In(h, c, x) && In(h, d, x)
    ensures c == d
    decreases Apart(rank, p, x)
  {
    hide IsChild, In, Ranked;
    ChildBelow(h, root, rank, p, c);
    ChildBelow(h, root, rank, p, d);
    RankDown(h, root, rank, c, x);
    if c != d {
      if x == c {
        NotBelowSibling(h, root, rank, p, d, c);
      } else if x == d {
        NotBelowSibling(h, root, rank, p, c, d);
      } else {
        var q := InParent(h, c, x);
        var q' := InParent(h, d, x);
        assert q == q';
        ChildBelow(h, root, rank, q, x);
        RankDown(h, root, rank, c, q);
        SameBranch(h, root, rank, p, c, d, q);
      }
    }
  }

  lemma NotBelowSibling(h: Heap, root: NodeId, rank: map<NodeId, nat>, p: NodeId, d: NodeId, c: NodeId)
    requires Ranked(h, root, rank) && UniqueParents(h) && IsChild(h, p, c) && IsChild(h, p, d) && c != d
    ensures !In(h, d, c)
  {
    hide IsChild, In, Ranked;
    ChildBelow(h, root, rank, p, d);
    if In(h, d, c) {
      var q := InParent(h, d, c);
      assert q == p;
      RankDown(h, root, rank, d, p);
    }
  }

  /** The last section, and the value the path stops at, lie below the section the path starts from. */
  lemma {:induction false} LastBelow(h: Heap, id: NodeId, path: seq<string>)
    requires id in h && h[id].Mapping? && path != []
    ensures In(h, id, Last(h, id, path))
    decreases |path|
  {
    hide In, IsChild, KeyIndex;
    if GoesOn(h, id, path) {
      var child := Next(h, id, path[0]).value.value;
      LastBelow(h, child, path[1..]);
      NextIsChild(h, id, path[0]);
      InAbove(h, id, child, Last(h, child, path[1..]));
    } else {
      InRefl(h, id);
    }
  }

  lemma GoneBelow(h: Heap, id: NodeId, path: seq<string>)
    requires id in h && h[id].Mapping? && path != [] && Gone(h, id, path).Some?
    ensures In(h, id, Gone(h, id, path).value.value)
  {
    hide In, IsChild, Last, LastKey, Gone;
    LastBelow(h, id, path);
    GoneHangs(h, id, path);
    InStep(h, id, Last(h, id, path), Gone(h, id, path).value.value);
  }

  // ---- the aliases the walk finds ----

  lemma {:induction false} RefIsAlias(h: Heap, root: NodeId, rank: map<NodeId, nat>, id: NodeId, keys: seq<string>, idx: seq<nat>, r: Ref)
    requires Ranked(h, root, rank) && id in h && r in AliasRefs(h, root, rank, id, keys, idx)
    ensures r.alias in h && h[r.alias].Alias? && h[r.alias].target == r.target
    decreases rank[id]
  {
    hide Ranked, IsChild;
    RankedBelow(h, root, rank, id);
    match h[id]
    case Alias(_, _) =>
    case Scalar(_, _, _) =>
    case Mapping(content, _) =>
      var i :| 0 <= i < |content| && r in AliasRefs(h, root, rank, content[i].value, keys + [KeyText(h, content[i].key)], []);
      RefIsAlias(h, root, rank, content[i].value, keys + [KeyText(h, content[i].key)], [], r);
    case Sequence(items, _) =>
      var i :| 0 <= i < |items| && r in AliasRefs(h, root, rank, items[i], keys, idx + [i]);
      RefIsAlias(h, root, rank, items[i], keys, idx + [i], r);
  }

  /** In one mapping, the branch an alias lies below is the one whose entry the walk found it in. */
  lemma BranchOfKey(h: Heap, root: NodeId, rank: map<NodeId, nat>, id: NodeId, key: string, j: nat, x: NodeId)
    requires Ranked(h, root, rank) && UniqueParents(h) && id in h && h[id].Mapping? && DistinctEntries(h[id].content)
    requires Next(h, id, key).Some? && j < |h[id].content| && In(h, h[id].content[j].value, x) && In(h, Next(h, id, key).value.value, x)
    ensures KeyText(h, h[id].content[j].key) == key && h[id].content[j].value == Next(h, id, key).value.value
  {
    hide In, IsChild, Ranked, UniqueParents;
    EntryIsChild(h, id, j);
    NextIsChild(h, id, key);
    SameBranch(h, root, rank, id, h[id].content[j].value, Next(h, id, key).value.value, x);
    var i := KeyIndex(h, h[id].content, key);
    assert j == i;
  }

  /** An alias inside the value at the end of a path has keys that start with the path. */
  lemma {:induction false} InsideHasKeys(h: Heap, root: NodeId, rank: map<NodeId, nat>, id: NodeId, done: seq<string>, path: seq<string>, r: Ref)
    requires Ranked(h, root, rank) && UniqueParents(h) && (forall p :: p in h && h[p].Mapping? ==> DistinctEntries(h[p].content))
    requires id in h && h[id].Mapping? && path != [] && r in AliasRefs(h, root, rank, id, done, [])
    requires Reaches(h, id, path) && Gone(h, id, path).Some? && In(h, Gone(h, id, path).value.value, r.alias)
    ensures done + path <= r.keys
    decreases |path|
  {
    hide In, Ranked, IsChild, UniqueParents, KeyIndex, DistinctEntries, KeyText, AliasRefs;
    var content := h[id].content;
    var child := Next(h, id, path[0]).value.value;
    var j := EntryOfRef(h, root, rank, id, done, r);
    assert In(h, child, r.alias) by {
      if |path| > 1 {
        GoneBelow(h, child, path[1..]);
        InThrough(h, child, Gone(h, id, path).value.value, r.alias);
      }
    }
    BranchOfKey(h, root, rank, id, path[0], j, r.alias);
    if |path| > 1 {
      InsideHasKeys(h, root, rank, child, done + [path[0]], path[1..], r);
      assert done + path == (done + [path[0]]) + path[1..];
    } else {
      assert done + path == done + [path[0]];
    }
  }

  lemma EntryOfRef(h: Heap, root: NodeId, rank: map<NodeId, nat>, id: NodeId, done: seq<string>, r: Ref) returns (j: nat)
    requires Ranked(h, root, rank) && id in h && h[id].Mapping? && r in AliasRefs(h, root, rank, id, done, [])
    ensures j < |h[id].content| && h[id].content[j].value in h
    ensures r in AliasRefs(h, root, rank, h[id].content[j].value, done + [KeyText(h, h[id].content[j].key)], [])
    ensures In(h, h[id].content[j].value, r.alias) && done + [KeyText(h, h[id].content[j].key)] <= r.keys
  {
    hide In, Ranked, IsChild;
    RankedBelow(h, root, rank, id);
    var content := h[id].content;
    var i :| 0 <= i < |content| && r in AliasRefs(h, root, rank, content[i].value, done + [KeyText(h, content[i].key)], []);
    RefIsBelow(h, root, rank, content[i].value, done + [KeyText(h, content[i].key)], [], r);
    j := i;
  }

  // ---- what a refusal points at ----

  /** The walk below a value refuses because of an alias outside the path that refers to a node there. */
  lemma {:induction false} BelowPointsAt(h: Heap, root: NodeId, rank: map<NodeId, nat>, refs: set<Ref>, prefix: string, id: NodeId) returns (r: Ref)
    requires Ranked(h, root, rank) && id in h && RefuseBelow(h, root, rank, refs, prefix, id)
    ensures r in refs && In(h, id, r.target) && !AtOrBelow(Render(r.keys, r.idx), prefix)
    decreases rank[id]
  {
    hide In, Ranked, IsChild, AtOrBelow, Render;
    RankedBelow(h, root, rank, id);
    var c: NodeId;
    if h[id].Mapping? {
      var i :| 0 <= i < |h[id].content| &&
        (SharedOutside(h, refs, prefix, h[id].content[i].value) || RefuseBelow(h, root, rank, refs, prefix, h[id].content[i].value));
      c := h[id].content[i].value;
      EntryIsChild(h, id, i);
    } else {
      var i :| 0 <= i < |h[id].items| && (SharedOutside(h, refs, prefix, h[id].items[i]) || RefuseBelow(h, root, rank, refs, prefix, h[id].items[i]));
      c := h[id].items[i];
      ItemIsChild(h, id, i);
    }
    if SharedOutside(h, refs, prefix, c) {
      r :| r in refs && r.target == c && !AtOrBelow(Render(r.keys, r.idx), prefix);
      InRefl(h, c);
    } else {
      r := BelowPointsAt(h, root, rank, refs, prefix, c);
    }
    InAbove(h, id, c, r.target);
  }

  /** A refusal is because of a shared section on the way, of the value the path stops at, or of what lies below it. */
  lemma {:induction false} RefusalPointsAt(h: Heap, root: NodeId, rank: map<NodeId, nat>, refs: set<Ref>, id: NodeId, done: seq<string>,
                                           path: seq<string>)
    requires Ranked(h, root, rank) && id in h && h[id].Mapping? && path != [] && RefuseAt(h, root, rank, refs, id, done, path)
    ensures
      || (exists x :: x in Chain(h, id, path) && rank[x] < rank[id] && Shared(h, refs, x))
      || (Gone(h, id, path).Some? && Shared(h, refs, Gone(h, id, path).value.value))
      || (Gone(h, id, path).Some? && Gone(h, id, path).value.value in h && Reaches(h, id, path) &&
          RefuseBelow(h, root, rank, refs, FormatPath(done + path), Gone(h, id, path).value.value))
    decreases |path|
  {
    hide Ranked, IsChild, KeyIndex, Shared, RefuseBelow, FormatPath;
    var child := Next(h, id, path[0]).value.value;
    NextIsChild(h, id, path[0]);
    ChildBelow(h, root, rank, id, child);
    if GoesOn(h, id, path) {
      assert Chain(h, id, path) == [id] + Chain(h, child, path[1..]);
      if Shared(h, refs, child) {
        assert child in Chain(h, child, path[1..]);
        assert child in Chain(h, id, path);
      } else {
        RefusalPointsAt(h, root, rank, refs, child, done + [path[0]], path[1..]);
        assert done + path == (done + [path[0]]) + path[1..];
        assert forall x :: x in Chain(h, child, path[1..]) ==> x in Chain(h, id, path);
      }
    }
  }

  // ---- the theorem ----

  /** The alias refers to what an edit at `path` would change for it: a section on the way past the root, the value the
      path stops at, or, where the path is found to its end, something below that value while the alias stands outside. */
  ghost predicate Guards(h: Heap, root: NodeId, path: seq<string>, a: NodeId)
    requires root in h && h[root].Mapping? && path != []
  {
    a in h && h[a].Alias? &&
    var t, gone := h[a].target, Gone(h, root, path);
    || (t in Chain(h, root, path) && t != root)
    || (gone.Some? && t == gone.value.value)
    || (gone.Some? && Reaches(h, root, path) && In(h, gone.value.value, t) && !In(h, gone.value.value, a))
  }

  lemma SharedByAlias(h: Heap, root: NodeId, rank: map<NodeId, nat>, x: NodeId) returns (a: NodeId)
    requires Ranked(h, root, rank) && root in h && Shared(h, AliasRefs(h, root, rank, root, [], []), x)
    ensures a in h && h[a].Alias? && h[a].target == x
  {
    hide Ranked, AliasRefs;
    var r :| r in AliasRefs(h, root, rank, root, [], []) && r.target == x;
    RefIsAlias(h, root, rank, root, [], [], r);
    a := r.alias;
  }

  lemma RefusedIsGuarded(h: Heap, root: NodeId, rank: map<NodeId, nat>, path: seq<string>) returns (a: NodeId)
    requires PlainFile(h, root, rank) && h[root].Mapping? && path != [] && RefusesShared(h, root, rank, path)
    ensures Guards(h, root, path, a)
  {
    hide In, Ranked, IsChild, UniqueParents, Chain, Gone, Reaches, Shared, RefuseBelow, FormatPath, AliasRefs, PlainKeys, UniqueKeys, DistinctEntries,
      RefuseAt, AtOrBelow, Render;
    var refs := AliasRefs(h, root, rank, root, [], []);
    RefusalPointsAt(h, root, rank, refs, root, [], path);
    RankedBelow(h, root, rank, root);
    assert [] + path == path;
    var gone := Gone(h, root, path);
    if x :| x in Chain(h, root, path) && rank[x] < rank[root] && Shared(h, refs, x) {
      a := SharedByAlias(h, root, rank, x);
    } else if gone.Some? && Shared(h, refs, gone.value.value) {
      a := SharedByAlias(h, root, rank, gone.value.value);
    } else {
      var r := BelowPointsAt(h, root, rank, refs, FormatPath(path), gone.value.value);
      RefIsAlias(h, root, rank, root, [], [], r);
      PrefixTestIsFaithful(path, r.keys, r.idx);
      if In(h, gone.value.value, r.alias) { InsideHasKeys(h, root, rank, root, [], path, r); }
      a := r.alias;
    }
  }

  lemma GuardedIsRefused(h: Heap, root: NodeId, rank: map<NodeId, nat>, path: seq<string>, a: NodeId)
    requires PlainFile(h, root, rank) && h[root].Mapping? && path != [] && Guards(h, root, path, a)
    ensures RefusesShared(h, root, rank, path)
  {
    hide In, IsChild, UniqueParents, Chain, Gone, Reaches, RefuseBelow, FormatPath, AliasRefs, PlainKeys, UniqueKeys, DistinctEntries, RefuseAt,
      AtOrBelow, Render, NotReferred;
    if !RefusesShared(h, root, rank, path) {
      var refs, t := AliasRefs(h, root, rank, root, [], []), h[a].target;
      RefOf(h, root, rank, root, [], [], a);
      var r :| r in refs && r.alias == a && r.target == t;
      assert Shared(h, refs, t);
      assert [] + path == path;
      if t in Chain(h, root, path) && t != root {
        ChainIsClear(h, root, rank, refs, root, [], path, t);
      } else {
        GoneInHeap(h, root, rank, path);
        GoneIsClear(h, root, rank, refs, root, [], path);
        ReferredTo(h, a);
        BelowIsClear(h, root, rank, refs, FormatPath(path), Gone(h, root, path).value.value, r);
        PrefixTestIsFaithful(path, r.keys, r.idx);
        RefAtPath(h, root, rank, root, [], path, r);
      }
      assert false;
    }
  }

  /** When the check refuses an edit. In a file with plain keys, none twice in a mapping, it refuses exactly when some
      alias refers to something the edit would change for it, wherever in the file the alias stands. An anchor that no
      alias refers to never makes it refuse. */
  lemma RefusesExactly(h: Heap, root: NodeId, rank: map<NodeId, nat>, path: seq<string>)
    requires PlainFile(h, root, rank) && h[root].Mapping? && path != []
    ensures RefusesShared(h, root, rank, path) <==> exists a :: Guards(h, root, path, a)
  {
    hide Tree, RefusesShared, Guards, PlainKeys, UniqueKeys;
    RootInTree(h, root, rank);
    if RefusesShared(h, root, rank, path) {
      var a := RefusedIsGuarded(h, root, rank, path);
    }
    if a :| Guards(h, root, path, a) {
      GuardedIsRefused(h, root, rank, path, a);
    }
  }
}
