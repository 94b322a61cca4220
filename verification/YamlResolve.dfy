/** Merge resolution as the configuration's loader does it: the pairs of a mapping are listed with those its merge key
    brings in, each key once, a set of the keys seen so far running along. A lookup in that list is the reader's. */
module YamlResolve {
  import opened YamlTree
  import opened YamlEdit
  import opened YamlAlias
  import opened YamlSafety
  import opened YamlMerge

  /** A resolved pair: the text of its key and the value's node. */
  datatype Pair = Pair(key: string, value: NodeId)

  datatype Resolved = Resolved(pairs: seq<Pair>, seen: set<string>)

  /** Every key is a scalar, and no mapping has two merge keys: what decoding a file demands. */
  ghost predicate Decodable(h: Heap) {
    && (forall p, i :: p in h && h[p].Mapping? && 0 <= i < |h[p].content| ==> h[p].content[i].key in h && h[h[p].content[i].key].Scalar?)
    && (forall p, i, j :: p in h && h[p].Mapping? && 0 <= i < j < |h[p].content| ==>
          !(Named(h, h[p].content[i].key, "<<") && Named(h, h[p].content[j].key, "<<")))
  }

  // ---- the code ----

  /** The mapping's own pairs from the i-th entry on, but for its merge key and for keys seen before it. */
  function OwnPairs(h: Heap, content: seq<Entry>, seen: set<string>, i: nat): seq<Pair>
    requires i <= |content|
    decreases |content| - i
  {
    if i == |content| then []
    else
      var rest, key := OwnPairs(h, content, seen, i + 1), KeyText(h, content[i].key);
      if key == "<<" || key in seen then rest else [Pair(key, content[i].value)] + rest
  }

  function Names(pairs: seq<Pair>): set<string> {
    set p | p in pairs :: p.key
  }

  /** mergeSources: what a merge key's value names, in order. */
  function Sources(h: Heap, deep: map<NodeId, nat>, x: NodeId): (r: seq<NodeId>)
    requires Deep(h, deep) && x in h
    ensures forall s :: s in r ==> s in h && !h[s].Alias? && !h[s].Sequence? && deep[s] <= deep[x]
    decreases deep[x], 1, 0
  {
    DeepBelow(h, deep, x);
    match h[x]
    case Alias(target, _) => Sources(h, deep, target)
    case Sequence(_, _) => SourcesFrom(h, deep, x, 0)
    case _ => [x]
  }

  function SourcesFrom(h: Heap, deep: map<NodeId, nat>, x: NodeId, j: nat): (r: seq<NodeId>)
    requires Deep(h, deep) && x in h && h[x].Sequence? && j <= |h[x].items|
    ensures forall s :: s in r ==> s in h && !h[s].Alias? && !h[s].Sequence? && deep[s] <= deep[x]
    decreases deep[x], 0, |h[x].items| - j
  {
    DeepBelow(h, deep, x);
    if j == |h[x].items| then [] else Sources(h, deep, h[x].items[j]) + SourcesFrom(h, deep, x, j + 1)
  }

  /** mergedPairs. */
  function MergedPairs(h: Heap, deep: map<NodeId, nat>, x: NodeId, seen: set<string>): Resolved
    requires Deep(h, deep) && x in h
    decreases deep[x], 1, 0
  {
    DeepBelow(h, deep, x);
    if !h[x].Mapping? then Resolved([], seen)
    else
      var content := h[x].content;
      var own := OwnPairs(h, content, seen, 0);
      var m := FindFrom(h, content, "<<", 0);
      if m < 0 then Resolved(own, seen + Names(own))
      else
        var more := SourcePairs(h, deep, Sources(h, deep, content[m].value), seen + Names(own), deep[x]);
        Resolved(own + more.pairs, more.seen)
  }

  function SourcePairs(h: Heap, deep: map<NodeId, nat>, sources: seq<NodeId>, seen: set<string>, bound: nat): Resolved
    requires Deep(h, deep) && forall s :: s in sources ==> s in h && s in deep && deep[s] < bound
    decreases bound, 0, |sources|
  {
    if sources == [] then Resolved([], seen)
    else
      assert sources[0] in sources;
      var first := MergedPairs(h, deep, sources[0], seen);
      var more := SourcePairs(h, deep, sources[1..], first.seen, bound);
      Resolved(first.pairs + more.pairs, more.seen)
  }

  // ---- lookups ----

  function Lookup(pairs: seq<Pair>, name: string): (r: Option<NodeId>)
    ensures r.Some? <==> exists p :: p in pairs && p.key == name
  {
    if pairs == [] then None else if pairs[0].key == name then Some(pairs[0].value) else Lookup(pairs[1..], name)
  }

  lemma {:induction false} LookupJoin(a: seq<Pair>, b: seq<Pair>, name: string)
    ensures Lookup(a + b, name) == if Lookup(a, name).Some? then Lookup(a, name) else Lookup(b, name)
  {
    if a == [] {
      assert a + b == b;
    } else {
      assert (a + b)[1..] == a[1..] + b;
      LookupJoin(a[1..], b, name);
    }
  }

  lemma NamesAre(pairs: seq<Pair>, name: string)
    ensures name in Names(pairs) <==> Lookup(pairs, name).Some?
  {
  }

  /** The reader's lookup among the sources: the first that has the name. */
  function FirstIn(h: Heap, deep: map<NodeId, nat>, sources: seq<NodeId>, name: string): Option<NodeId>
    requires Deep(h, deep) && forall s :: s in sources ==> s in h
  {
    if sources == [] then None
    else
      assert sources[0] in sources;
      var r := Merged(h, deep, sources[0], name, true);
      if r.Some? then r else FirstIn(h, deep, sources[1..], name)
  }

  lemma {:induction false} FirstJoin(h: Heap, deep: map<NodeId, nat>, a: seq<NodeId>, b: seq<NodeId>, name: string)
    requires Deep(h, deep) && (forall s :: s in a ==> s in h) && forall s :: s in b ==> s in h
    ensures FirstIn(h, deep, a + b, name) ==
      if FirstIn(h, deep, a, name).Some? then FirstIn(h, deep, a, name) else FirstIn(h, deep, b, name)
  {
    hide Deep, Merged;
    if a == [] {
      assert a + b == b;
    } else {
      assert (a + b)[1..] == a[1..] + b && (a + b)[0] == a[0];
      FirstJoin(h, deep, a[1..], b, name);
    }
  }

  /** The flattened sources give what the merge value gives. */
  lemma {:induction false} SourcesRead(h: Heap, deep: map<NodeId, nat>, x: NodeId, name: string)
    requires Deep(h, deep) && x in h
    ensures FirstIn(h, deep, Sources(h, deep, x), name) == Merged(h, deep, x, name, true)
    decreases deep[x], 1, 0
  {
    hide Deep, FindFrom;
    DeepBelow(h, deep, x);
    match h[x]
    case Alias(target, _) => SourcesRead(h, deep, target, name);
    case Sequence(_, _) => SourcesFromRead(h, deep, x, 0, name);
    case _ => assert [x][1..] == [];
  }

  lemma {:induction false} SourcesFromRead(h: Heap, deep: map<NodeId, nat>, x: NodeId, j: nat, name: string)
    requires Deep(h, deep) && x in h && h[x].Sequence? && j <= |h[x].items|
    ensures FirstIn(h, deep, SourcesFrom(h, deep, x, j), name) == FirstMerged(h, deep, x, j, name)
    decreases deep[x], 0, |h[x].items| - j
  {
    hide Deep, Merged;
    DeepBelow(h, deep, x);
    if j < |h[x].items| {
      SourcesRead(h, deep, h[x].items[j], name);
      SourcesFromRead(h, deep, x, j + 1, name);
      FirstJoin(h, deep, Sources(h, deep, h[x].items[j]), SourcesFrom(h, deep, x, j + 1), name);
    }
  }

  // ---- the list agrees with the reader ----

  lemma {:induction false} OwnRead(h: Heap, content: seq<Entry>, seen: set<string>, i: nat, name: string)
    requires i <= |content| && name != "<<" && forall j :: 0 <= j < |content| ==> content[j].key in h && h[content[j].key].Scalar?
    ensures var f := FindFrom(h, content, name, i);
      Lookup(OwnPairs(h, content, seen, i), name) == if name in seen || f < 0 then None else Some(content[f].value)
    decreases |content| - i
  {
    hide Lookup, Named, KeyText;
    if i == |content| {
      NoPairs(name);
    } else {
      OwnRead(h, content, seen, i + 1, name);
      NamedIsText(h, content[i].key, name);
      LookupFirst(Pair(KeyText(h, content[i].key), content[i].value), OwnPairs(h, content, seen, i + 1), name);
    }
  }

  lemma NamedIsText(h: Heap, k: NodeId, name: string)
    requires k in h && h[k].Scalar?
    ensures Named(h, k, name) <==> KeyText(h, k) == name
  {
  }

  lemma LookupFirst(p: Pair, rest: seq<Pair>, name: string)
    ensures Lookup([p] + rest, name) == if p.key == name then Some(p.value) else Lookup(rest, name)
  {
    assert ([p] + rest)[1..] == rest;
  }

  /** What the resolved pairs say of a name, and what the set of keys seen says after them. */
  ghost predicate Agrees(h: Heap, r: Resolved, seen: set<string>, name: string, read: Option<NodeId>) {
    && Lookup(r.pairs, name) == (if name in seen then None else read)
    && (name in r.seen <==> name in seen || read.Some?)
  }

  lemma {:induction false} PairsRead(h: Heap, deep: map<NodeId, nat>, x: NodeId, seen: set<string>, name: string)
    requires Deep(h, deep) && Decodable(h) && x in h && !h[x].Alias? && !h[x].Sequence? && name != "<<"
    ensures Agrees(h, MergedPairs(h, deep, x, seen), seen, name, Merged(h, deep, x, name, true))
    decreases deep[x], 1, 0
  {
    DeepBelow(h, deep, x);
    if h[x].Mapping? {
      var content := h[x].content;
      var own := OwnPairs(h, content, seen, 0);
      OwnRead(h, content, seen, 0, name);
      NamesAre(own, name);
      MergedInMapping(h, deep, x, name, true);
      hide Deep, Decodable, OwnPairs, FindFrom, Merged, Names, Lookup;
      var m := FindFrom(h, content, "<<", 0);
      if m >= 0 {
        var sources := Sources(h, deep, content[m].value);
        SourcePairsRead(h, deep, sources, seen + Names(own), deep[x], name);
        SourcesRead(h, deep, content[m].value, name);
        LookupJoin(own, SourcePairs(h, deep, sources, seen + Names(own), deep[x]).pairs, name);
      }
    }
  }

  lemma {:induction false} SourcePairsRead(h: Heap, deep: map<NodeId, nat>, sources: seq<NodeId>, seen: set<string>, bound: nat, name: string)
    requires Deep(h, deep) && Decodable(h) && name != "<<"
    requires forall s :: s in sources ==> s in h && s in deep && deep[s] < bound && !h[s].Alias? && !h[s].Sequence?
    ensures Agrees(h, SourcePairs(h, deep, sources, seen, bound), seen, name, FirstIn(h, deep, sources, name))
    decreases bound, 0, |sources|
  {
    hide Deep, Decodable, MergedPairs, Merged, Lookup;
    if sources == [] {
      NoPairs(name);
    } else {
      assert sources[0] in sources;
      var first := MergedPairs(h, deep, sources[0], seen);
      PairsRead(h, deep, sources[0], seen, name);
      SourcePairsRead(h, deep, sources[1..], first.seen, bound, name);
      LookupJoin(first.pairs, SourcePairs(h, deep, sources[1..], first.seen, bound).pairs, name);
    }
  }

  lemma NoPairs(name: string)
    ensures Lookup([], name) == None
  {
  }

  /** The loader's list of pairs is what the reader reads: a name leads to the same node in both, own keys before merged
      ones and earlier merge sources before later ones. */
  lemma ResolvedIsRead(h: Heap, deep: map<NodeId, nat>, x: NodeId, name: string)
    requires Deep(h, deep) && Decodable(h) && x in h && h[x].Mapping? && name != "<<"
    ensures Lookup(MergedPairs(h, deep, x, {}).pairs, name) == ChildOf(h, deep, x, Key(name))
  {
    hide MergedPairs, Lookup, Decodable;
    PairsRead(h, deep, x, {}, name);
    MappingStep(h, deep, x, Key(name));
    MergedInMapping(h, deep, x, name, false);
    MergedInMapping(h, deep, x, name, true);
    hide Merged, ChildOf;
  }

  // ---- each key once ----

  /** No key comes twice, and none that was seen before. */
  predicate Once(pairs: seq<Pair>, seen: set<string>) {
    && (forall i :: 0 <= i < |pairs| ==> pairs[i].key !in seen)
    && (forall i, j :: 0 <= i < j < |pairs| ==> pairs[i].key != pairs[j].key)
  }

  lemma OnceJoin(a: seq<Pair>, b: seq<Pair>, seen: set<string>, seen': set<string>)
    requires Once(a, seen) && Once(b, seen') && seen + Names(a) <= seen'
    ensures Once(a + b, seen)
  {
    forall i | 0 <= i < |a| ensures a[i].key in Names(a) { assert a[i] in a; }
    hide Names;
  }

  /** The own pairs come from different entries of the mapping. */
  lemma {:induction false} OwnOnce(h: Heap, content: seq<Entry>, seen: set<string>, i: nat)
    requires i <= |content| && DistinctKeys(h, content)
    ensures Once(OwnPairs(h, content, seen, i), seen)
    ensures forall p :: p in OwnPairs(h, content, seen, i) ==> p.key != "<<" && exists j :: i <= j < |content| && p.key == KeyText(h, content[j].key)
    decreases |content| - i
  {
    hide KeyText;
    if i < |content| {
      OwnOnce(h, content, seen, i + 1);
      var rest, key := OwnPairs(h, content, seen, i + 1), KeyText(h, content[i].key);
      if key != "<<" && key !in seen {
        forall j | 0 <= j < |rest| ensures rest[j].key != key {
          assert rest[j] in rest;
          var k :| i + 1 <= k < |content| && rest[j].key == KeyText(h, content[k].key);
        }
      }
    }
  }

  lemma {:induction false} PairsOnce(h: Heap, deep: map<NodeId, nat>, x: NodeId, seen: set<string>)
    requires Deep(h, deep) && UniqueKeys(h) && x in h
    ensures var r := MergedPairs(h, deep, x, seen); Once(r.pairs, seen) && r.seen == seen + Names(r.pairs)
    decreases deep[x], 1, 0
  {
    DeepBelow(h, deep, x);
    if h[x].Mapping? {
      var own := OwnPairs(h, h[x].content, seen, 0);
      assert DistinctKeys(h, h[x].content);
      OwnOnce(h, h[x].content, seen, 0);
      hide Deep, UniqueKeys, OwnPairs, FindFrom, Once, Names, DistinctKeys;
      var m := FindFrom(h, h[x].content, "<<", 0);
      if m >= 0 {
        var sources := Sources(h, deep, h[x].content[m].value);
        SourcesOnce(h, deep, sources, seen + Names(own), deep[x]);
        var more := SourcePairs(h, deep, sources, seen + Names(own), deep[x]);
        OnceJoin(own, more.pairs, seen, seen + Names(own));
        NamesJoin(own, more.pairs);
      }
    } else {
      assert Names([]) == {};
    }
  }

  lemma {:induction false} SourcesOnce(h: Heap, deep: map<NodeId, nat>, sources: seq<NodeId>, seen: set<string>, bound: nat)
    requires Deep(h, deep) && UniqueKeys(h) && forall s :: s in sources ==> s in h && s in deep && deep[s] < bound
    ensures var r := SourcePairs(h, deep, sources, seen, bound); Once(r.pairs, seen) && r.seen == seen + Names(r.pairs)
    decreases bound, 0, |sources|
  {
    hide Deep, UniqueKeys, MergedPairs;
    if sources == [] {
      assert Names([]) == {};
    } else {
      assert sources[0] in sources;
      var first := MergedPairs(h, deep, sources[0], seen);
      PairsOnce(h, deep, sources[0], seen);
      SourcesOnce(h, deep, sources[1..], first.seen, bound);
      var more := SourcePairs(h, deep, sources[1..], first.seen, bound);
      hide Once, Names;
      OnceJoin(first.pairs, more.pairs, seen, first.seen);
      NamesJoin(first.pairs, more.pairs);
    }
  }

  lemma NamesJoin(a: seq<Pair>, b: seq<Pair>)
    ensures Names(a + b) == Names(a) + Names(b)
  {
  }

  /** The loader never lists a key twice, whatever a mapping merges in, so its result can be decoded. */
  lemma EachKeyOnce(h: Heap, deep: map<NodeId, nat>, x: NodeId, i: nat, j: nat)
    requires Deep(h, deep) && UniqueKeys(h) && x in h && i < j < |MergedPairs(h, deep, x, {}).pairs|
    ensures MergedPairs(h, deep, x, {}).pairs[i].key != MergedPairs(h, deep, x, {}).pairs[j].key
  {
    hide MergedPairs, Deep, UniqueKeys;
    PairsOnce(h, deep, x, {});
  }
}
