/** A parsed YAML file as a tree of nodes that the configuration editor changes in place, and the edits
    `config set` and `config unset` make on it. */
module YamlTree {

  type NodeId = nat

  datatype Entry = Entry(key: NodeId, value: NodeId)

  /** A node. An alias names the node it refers to, so two places of the file can share one value. */
  datatype Node =
    | Scalar(value: string, isNull: bool, anchor: string)
    | Mapping(content: seq<Entry>, anchor: string)
    | Sequence(items: seq<NodeId>, anchor: string)
    | Alias(target: NodeId, name: string)

  type Heap = map<NodeId, Node>

  datatype Option<T> = None | Some(value: T)

  function AnchorOf(n: Node): string {
    if n.Alias? then "" else n.anchor
  }

  // ---- the tree ----

  predicate IsChild(h: Heap, p: NodeId, c: NodeId) {
    p in h &&
    match h[p]
    case Mapping(content, _) => exists e :: e in content && (e.key == c || e.value == c)
    case Sequence(items, _) => c in items
    case _ => false
  }

  ghost predicate Descent(h: Heap, nodes: seq<NodeId>) {
    nodes != [] && forall i :: 0 <= i < |nodes| - 1 ==> IsChild(h, nodes[i], nodes[i + 1])
  }

  /** x is r or lies below it. */
  ghost predicate In(h: Heap, r: NodeId, x: NodeId) {
    exists nodes :: Descent(h, nodes) && nodes[0] == r && nodes[|nodes| - 1] == x
  }

  predicate DistinctEntries(content: seq<Entry>) {
    forall i, j :: 0 <= i < |content| && 0 <= j < |content| ==>
      content[i].key != content[j].value && (i != j ==> content[i].key != content[j].key && content[i].value != content[j].value)
  }

  ghost predicate UniqueParents(h: Heap) {
    forall p, q, c :: IsChild(h, p, c) && IsChild(h, q, c) ==> p == q
  }

  ghost predicate Ranked(h: Heap, root: NodeId, rank: map<NodeId, nat>) {
    && rank.Keys == h.Keys
    && forall p, c :: IsChild(h, p, c) ==> c in h && c != root && rank[c] < rank[p]
  }

  /** What a parser produces: a finite tree below root in which every node sits in one place, with aliases
      that refer to anchored nodes of the tree. */
  ghost predicate Tree(h: Heap, root: NodeId, rank: map<NodeId, nat>) {
    && root in h
    && Ranked(h, root, rank)
    && UniqueParents(h)
    && (forall p :: p in h && h[p].Mapping? ==> DistinctEntries(h[p].content))
    && (forall x :: x in h ==> In(h, root, x))
    && (forall a :: a in h && h[a].Alias? ==>
          h[a].target in h && !h[h[a].target].Alias? && AnchorOf(h[h[a].target]) == h[a].name != "")
  }

  lemma InRefl(h: Heap, r: NodeId)
    ensures In(h, r, r)
  {
    assert Descent(h, [r]);
  }

  lemma InStep(h: Heap, r: NodeId, p: NodeId, c: NodeId)
    requires In(h, r, p) && IsChild(h, p, c)
    ensures In(h, r, c)
  {
    hide IsChild;
    var nodes :| Descent(h, nodes) && nodes[0] == r && nodes[|nodes| - 1] == p;
    var longer := nodes + [c];
    assert Descent(h, longer);
  }

  lemma InParent(h: Heap, r: NodeId, x: NodeId) returns (p: NodeId)
    requires In(h, r, x) && x != r
    ensures In(h, r, p) && IsChild(h, p, x)
  {
    hide IsChild;
    var nodes :| Descent(h, nodes) && nodes[0] == r && nodes[|nodes| - 1] == x;
    var front := nodes[..|nodes| - 1];
    p := front[|front| - 1];
    assert IsChild(h, nodes[|nodes| - 2], nodes[|nodes| - 2 + 1]);
    assert Descent(h, front);
  }

  // ---- keys ----

  predicate Named(h: Heap, k: NodeId, key: string) {
    k in h && h[k].Scalar? && h[k].value == key
  }

  function FindFrom(h: Heap, content: seq<Entry>, key: string, i: nat): (r: int)
    requires i <= |content|
    ensures -1 <= r < |content|
    ensures r >= 0 ==> i <= r && Named(h, content[r].key, key)
    ensures forall j :: i <= j < (if r >= 0 then r else |content|) ==> !Named(h, content[j].key, key)
    decreases |content| - i
  {
    if i == |content| then -1
    else if Named(h, content[i].key, key) then i
    else FindFrom(h, content, key, i + 1)
  }

  /** The entry a path can name by `key`: the first one with that scalar key. A merge key is never one. */
  function KeyIndex(h: Heap, content: seq<Entry>, key: string): (r: int)
    ensures -1 <= r < |content|
    ensures r >= 0 ==> key != "<<" && Named(h, content[r].key, key)
    ensures key != "<<" ==> forall j :: 0 <= j < (if r >= 0 then r else |content|) ==> !Named(h, content[j].key, key)
  {
    if key == "<<" then -1 else FindFrom(h, content, key, 0)
  }

  // ---- edits ----

  datatype Edit = SetTo(value: string) | Unset

  datatype Refusal = NotSet | NotASection | NotAValue | EmptyPath

  datatype Outcome = Edited(h: Heap, next: nat) | Refused(why: Refusal)

  /** The plain scalars that YAML reads as null. */
  predicate ReadsAsNull(text: string) {
    text == "" || text == "~" || text == "null" || text == "Null" || text == "NULL"
  }

  function NewScalar(text: string, anchor: string): Node {
    Scalar(text, ReadsAsNull(text), anchor)
  }

  predicate IsSection(h: Heap, id: NodeId)
    requires id in h
  {
    var n := if h[id].Alias? && h[id].target in h then h[h[id].target] else h[id];
    n.Mapping? || n.Sequence?
  }

  function Remove(content: seq<Entry>, i: nat): seq<Entry>
    requires i < |content|
  {
    content[..i] + content[i + 1..]
  }

  function Put(h: Heap, id: NodeId, content: seq<Entry>): Heap
    requires id in h && h[id].Mapping?
  {
    h[id := Mapping(content, h[id].anchor)]
  }

  /** Edits the key that `path` names below the mapping `id`; ids from `next` on are free. A set creates
      missing sections and turns null ones into mappings that keep the anchor. (The first refusal is for an
      id that names no node, which a parsed tree never holds.) */
  function EditAt(h: Heap, next: nat, id: NodeId, path: seq<string>, edit: Edit): Outcome
    requires id in h && h[id].Mapping? && path != []
    decreases |path|
  {
    var content := h[id].content;
    var i := KeyIndex(h, content, path[0]);
    if i >= 0 && content[i].value !in h then Refused(NotASection)
    else if |path| == 1 then
      if edit.Unset? then
        if i < 0 then Refused(NotSet) else Edited(Put(h, id, Remove(content, i)), next)
      else if i >= 0 then
        if IsSection(h, content[i].value) then Refused(NotAValue)
        else Edited(Put(h, id, content[i := content[i].(value := next)])
                      [next := NewScalar(edit.value, AnchorOf(h[content[i].value]))], next + 1)
      else Edited(Put(h, id, content + [Entry(next, next + 1)])
                    [next := NewScalar(path[0], "")][next + 1 := NewScalar(edit.value, "")], next + 2)
    else if i < 0 then
      if edit.Unset? then Refused(NotSet)
      else
        var h1 := Put(h, id, content + [Entry(next, next + 1)])[next := NewScalar(path[0], "")][next + 1 := Mapping([], "")];
        EditAt(h1, next + 2, next + 1, path[1..], edit)
    else
      var child := content[i].value;
      match h[child]
      case Alias(_, _) => Refused(NotASection)
      case Scalar(_, isNull, anchor) =>
        if !isNull then Refused(NotASection)
        else if edit.Unset? then Refused(NotSet)
        else
          var h1 := Put(h, id, content[i := content[i].(value := next)])[next := Mapping([], anchor)];
          EditAt(h1, next + 1, next, path[1..], edit)
      case Sequence(_, _) => Refused(NotASection)
      case Mapping(_, _) => EditAt(h, next, child, path[1..], edit)
  }

  /** The whole edit of a file whose root is `root`. */
  function EditTree(h: Heap, next: nat, root: NodeId, path: seq<string>, edit: Edit): Outcome
    requires root in h
  {
    if path == [] || path[0] == "" then Refused(EmptyPath)
    else if !h[root].Mapping? then Refused(NotASection)
    else EditAt(h, next, root, path, edit)
  }

  predicate Unused(h: Heap, next: nat) {
    forall x :: x in h ==> x < next
  }

  /** A file held by the editor. */
  class Document {
    var h: Heap
    var next: nat
    const root: NodeId

    constructor (h: Heap, next: nat, root: NodeId)
      requires root in h && Unused(h, next)
      ensures this.h == h && this.next == next && this.root == root
    {
      this.h, this.next, this.root := h, next, root;
    }

    /** sectionFor with create, then setYAMLPath: walks down, adding or replacing sections in place. A
        refusal leaves the tree as it was. */
    method Set(path: seq<string>, value: string) returns (refusal: Option<Refusal>)
      requires root in h && Unused(h, next)
      modifies this
      ensures refusal.Some? ==>
        EditTree(old(h), old(next), root, path, SetTo(value)) == Refused(refusal.value) && h == old(h) && next == old(next)
      ensures refusal.None? ==> EditTree(old(h), old(next), root, path, SetTo(value)) == Edited(h, next)
    {
      if path == [] || path[0] == "" { return Some(EmptyPath); }
      if !h[root].Mapping? { return Some(NotASection); }
      ghost var h0, next0 := h, next;
      ghost var edit := SetTo(value);
      var node, depth := root, 0;
      while depth < |path| - 1
        invariant 0 <= depth < |path|
        invariant node in h && h[node].Mapping? && Unused(h, next)
        invariant EditAt(h0, next0, root, path, edit) == EditAt(h, next, node, path[depth..], edit)
        invariant (h == h0 && next == next0) || h[node].content == []
      {
        assert path[depth..][1..] == path[depth + 1..] && path[depth..][0] == path[depth];
        var content := h[node].content;
        var i := KeyIndex(h, content, path[depth]);
        if i < 0 {
          h := Put(h, node, content + [Entry(next, next + 1)])[next := NewScalar(path[depth], "")][next + 1 := Mapping([], "")];
          node, next := next + 1, next + 2;
        } else {
          var child := content[i].value;
          if child !in h { return Some(NotASection); }
          if h[child].Scalar? && h[child].isNull {
            h := Put(h, node, content[i := content[i].(value := next)])[next := Mapping([], h[child].anchor)];
            node, next := next, next + 1;
          } else if h[child].Mapping? {
            node := child;
          } else {
            return Some(NotASection);
          }
        }
        depth := depth + 1;
      }
      assert path[depth..] == [path[depth]];
      var key, content := path[depth], h[node].content;
      var i := KeyIndex(h, content, key);
      if i >= 0 {
        var previous := content[i].value;
        if previous !in h { return Some(NotASection); }
        if IsSection(h, previous) { return Some(NotAValue); }
        h := Put(h, node, content[i := content[i].(value := next)])[next := NewScalar(value, AnchorOf(h[previous]))];
        next := next + 1;
      } else {
        h := Put(h, node, content + [Entry(next, next + 1)])[next := NewScalar(key, "")][next + 1 := NewScalar(value, "")];
        next := next + 2;
      }
      return None;
    }

    /** sectionFor without create, then unsetYAMLPath. */
    method Clear(path: seq<string>) returns (refusal: Option<Refusal>)
      requires root in h
      modifies this
      ensures refusal.Some? ==>
        EditTree(old(h), next, root, path, Unset) == Refused(refusal.value) && h == old(h)
      ensures refusal.None? ==> EditTree(old(h), next, root, path, Unset) == Edited(h, next)
      ensures next == old(next)
    {
      if path == [] || path[0] == "" { return Some(EmptyPath); }
      if !h[root].Mapping? { return Some(NotASection); }
      var node, depth := root, 0;
      while depth < |path| - 1
        invariant 0 <= depth < |path|
        invariant node in h && h[node].Mapping? && h == old(h) && next == old(next)
        invariant EditAt(h, next, root, path, Unset) == EditAt(h, next, node, path[depth..], Unset)
      {
        assert path[depth..][1..] == path[depth + 1..] && path[depth..][0] == path[depth];
        var i := KeyIndex(h, h[node].content, path[depth]);
        if i < 0 { return Some(NotSet); }
        var child := h[node].content[i].value;
        if child !in h { return Some(NotASection); }
        if h[child].Scalar? && h[child].isNull { return Some(NotSet); }
        if !h[child].Mapping? { return Some(NotASection); }
        node, depth := child, depth + 1;
      }
      assert path[depth..] == [path[depth]];
      var i := KeyIndex(h, h[node].content, path[depth]);
      if i < 0 { return Some(NotSet); }
      if h[node].content[i].value !in h { return Some(NotASection); }
      h := Put(h, node, Remove(h[node].content, i));
      return None;
    }
  }
}
