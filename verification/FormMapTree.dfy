/**
 * `mapTree`, the one traversal behind every edit: it calls back on a node, then walks into
 * whatever the callback answered. Because it walks into the answer, it need not end; here
 * it is run to a depth, and `None` means the depth was not enough.
 */
module FormMapTree {
  import opened Options
  import opened FormTree
  import opened FormMove

  /** What a node is apart from its children. */
  datatype Label = Label(kind: Kind, id: string, props: map<string, Value>)

  function LabelOf(node: Node): Label { Label(node.kind, node.id, node.props) }

  /** The three callbacks in use. A patch answers `None` when it gives the node back as it is. */
  datatype Change =
    | Drop(id: string)
    | Patch(id: string, patch: Label -> Option<Label>)
    | Put(parentId: string, index: int, node: Node)

  datatype Reply = Same | Gone | Made(node: Node)

  function Callback(c: Change, node: Node): Reply
  {
    match c
    case Drop(id) => if node.id == id then Gone else Same
    case Patch(id, patch) =>
      if node.id != id then Same else
        (match patch(LabelOf(node))
         case None => Same
         case Some(l) => Made(Node(l.kind, l.id, l.props, node.children)))
    case Put(parentId, index, inserted) =>
      if node.id == parentId && IsContainer(node)
      then Made(WithChildren(node, InsertAt(node.children, index, inserted)))
      else Same
  }

  /** The node the walk goes on with. */
  function Next(c: Change, node: Node): Node
  {
    if Callback(c, node).Made? then Callback(c, node).node else node
  }

  function MapTree(list: seq<Node>, c: Change, depth: nat): Option<seq<Node>>
    decreases depth, list
  {
    if list == [] then Some([]) else
      match (MapNode(list[0], c, depth), MapTree(list[1..], c, depth))
      case (Some(head), Some(rest)) => Some(head + rest)
      case _ => None
  }

  /** What one element of the list contributes: nothing when it is dropped. */
  function MapNode(node: Node, c: Change, depth: nat): Option<seq<Node>>
    decreases depth, node
  {
    if Callback(c, node).Gone? then Some([]) else
      var next := Next(c, node);
      if !IsContainer(next) then Some([next])
      else if depth == 0 then None
      else
        match MapTree(next.children, c, depth - 1)
        case None => None
        case Some(children) => Some([WithChildren(next, children)])
  }

  function Max(a: nat, b: nat): nat { if a < b then b else a }

  function Height(list: seq<Node>): nat
  {
    if list == [] then 0 else
      Max(if IsContainer(list[0]) then 1 + Height(list[0].children) else 0, Height(list[1..]))
  }

  /** Some reached node gets an answer other than itself. */
  predicate AnyTouched(c: Change, list: seq<Node>)
  {
    list != [] &&
    (|| !Callback(c, list[0]).Same?
     || (IsContainer(list[0]) && AnyTouched(c, list[0].children))
     || AnyTouched(c, list[1..]))
  }

  // ----------------------------------------------- removal and property edits

  /** `removeNode` ends, and is removal. */
  lemma {:induction false} DropRuns(list: seq<Node>, id: string, depth: nat)
    requires depth >= Height(list)
    ensures MapTree(list, Drop(id), depth) == Some(Without(list, id))
    decreases depth, list
  {
    if list != [] {
      if IsContainer(list[0]) { DropRuns(list[0].children, id, depth - 1); }
      DropRuns(list[1..], id, depth);
    }
  }

  /** The document with the label of every reached node of that id replaced. */
  function Patched(list: seq<Node>, id: string, patch: Label -> Option<Label>): seq<Node>
  {
    if list == [] then [] else
      var next := Next(Patch(id, patch), list[0]);
      [if IsContainer(next) then WithChildren(next, Patched(list[0].children, id, patch)) else next]
      + Patched(list[1..], id, patch)
  }

  function FullHeight(list: seq<Node>): nat
  {
    if list == [] then 0 else Max(1 + FullHeight(list[0].children), FullHeight(list[1..]))
  }

  /** `updateNode` ends whatever the patch makes of the node, and is the patch. */
  lemma {:induction false} PatchRuns(list: seq<Node>, id: string, patch: Label -> Option<Label>, depth: nat)
    requires depth >= FullHeight(list)
    ensures MapTree(list, Patch(id, patch), depth) == Some(Patched(list, id, patch))
    decreases depth, list
  {
    if list != [] {
      if IsContainer(Next(Patch(id, patch), list[0])) { PatchRuns(list[0].children, id, patch, depth - 1); }
      PatchRuns(list[1..], id, patch, depth);
    }
  }

  /** One property set, or taken away when there is no value. */
  function SetProperty(key: string, value: Option<Value>): Label -> Option<Label>
  {
    (l: Label) =>
      if value.None? then (if key in l.props then Some(l.(props := l.props - {key})) else None)
      else if key in l.props && l.props[key] == value.value then None
      else Some(l.(props := l.props[key := value.value]))
  }

  /** The label a node of the patched document has. */
  function PatchedLabel(l: Label, id: string, patch: Label -> Option<Label>): Label
  {
    if l.id == id && patch(l).Some? then patch(l).value else l
  }

  ghost predicate KeepsKindAndId(patch: Label -> Option<Label>)
  {
    forall l :: patch(l).Some? ==> patch(l).value.kind == l.kind && patch(l).value.id == l.id
  }

  /** The same place in the document, with the node's label patched. */
  predicate SamePlacePatched(before: Option<Path>, after: Option<Path>, id: string, patch: Label -> Option<Label>)
  {
    && (before.None? <==> after.None?)
    && (before.Some? ==>
          && after.value.index == before.value.index && ParentId(after.value) == ParentId(before.value)
          && LabelOf(after.value.node) == PatchedLabel(LabelOf(before.value.node), id, patch))
  }

  /** A patch that keeps kind and id leaves every node in its place, and every other label alone. */
  lemma {:induction false} LocatePatched(list: seq<Node>, id: string, patch: Label -> Option<Label>, other: string)
    requires KeepsKindAndId(patch)
    ensures SamePlacePatched(Locate(list, other), Locate(Patched(list, id, patch), other), id, patch)
  {
    if list != [] {
      if IsContainer(list[0]) { LocatePatched(list[0].children, id, patch, other); }
      LocatePatched(list[1..], id, patch, other);
      PatchedInThree(list, id, patch, other);
    }
  }

  lemma PatchedInThree(list: seq<Node>, id: string, patch: Label -> Option<Label>, other: string)
    requires KeepsKindAndId(patch) && list != []
    requires IsContainer(list[0]) ==> SamePlacePatched(
      Locate(list[0].children, other), Locate(Patched(list[0].children, id, patch), other), id, patch)
    requires SamePlacePatched(Locate(list[1..], other), Locate(Patched(list[1..], id, patch), other), id, patch)
    ensures SamePlacePatched(Locate(list, other), Locate(Patched(list, id, patch), other), id, patch)
  {
    var r := Patched(list, id, patch);
    assert r[1..] == Patched(list[1..], id, patch);
    assert LabelOf(r[0]) == PatchedLabel(LabelOf(list[0]), id, patch);
  }

  /** Setting a property changes that property of that node and nothing else anywhere. */
  lemma SetPropertyFrame(list: seq<Node>, id: string, key: string, value: Option<Value>, other: string)
    requires Locate(list, other).Some?
    ensures var r := Patched(list, id, SetProperty(key, value));
            && Locate(r, other).Some?
            && var p, q := Locate(list, other).value, Locate(r, other).value;
            && q.index == p.index && ParentId(q) == ParentId(p)
            && q.node.kind == p.node.kind && q.node.id == p.node.id
            && (forall k | k != key || other != id ::
                  (k in q.node.props <==> k in p.node.props)
                  && (k in p.node.props ==> q.node.props[k] == p.node.props[k]))
            && (other == id ==> (key in q.node.props <==> value.Some?)
                                && (value.Some? ==> q.node.props[key] == value.value))
  {
    LocatePatched(list, id, SetProperty(key, value), other);
    LocateIff(list, other);
    var p := Locate(list, other).value;
    assert LabelOf(Locate(Patched(list, id, SetProperty(key, value)), other).value.node)
        == PatchedLabel(LabelOf(p.node), id, SetProperty(key, value));
  }

  // ------------------------------------------------------------- insertion

  lemma MapTreeNext(list: seq<Node>, c: Change, depth: nat)
    requires list != []
    ensures MapTree(list, c, depth) ==
            match (MapNode(list[0], c, depth), MapTree(list[1..], c, depth))
            case (Some(x), Some(y)) => Some(x + y)
            case _ => None
  {}

  lemma {:induction false} MapTreeAppend(a: seq<Node>, b: seq<Node>, c: Change, depth: nat)
    ensures MapTree(a + b, c, depth) ==
            match (MapTree(a, c, depth), MapTree(b, c, depth))
            case (Some(x), Some(y)) => Some(x + y)
            case _ => None
  {
    if a == [] {
      assert a + b == b;
      var y := MapTree(b, c, depth);
      assert y.Some? ==> [] + y.value == y.value;
    } else {
      assert (a + b)[1..] == a[1..] + b;
      MapTreeAppend(a[1..], b, c, depth);
      MapTreeNext(a, c, depth);
      MapTreeNext(a + b, c, depth);
      hide MapTree, MapNode;
      match (MapNode(a[0], c, depth), MapTree(a[1..], c, depth), MapTree(b, c, depth)) {
        case (Some(h), Some(x), Some(y)) => assert h + (x + y) == (h + x) + y;
        case _ =>
      }
    }
  }

  lemma {:induction false} IntoLength(list: seq<Node>, parentId: string, index: int, node: Node)
    ensures |Into(list, parentId, index, node)| == |list|
  {
    if list != [] { IntoLength(list[1..], parentId, index, node); }
  }

  /** A traversal that touches nothing gives the list back. */
  lemma {:induction false} UntouchedRuns(list: seq<Node>, c: Change, depth: nat)
    requires !AnyTouched(c, list) && depth >= Height(list)
    ensures MapTree(list, c, depth) == Some(list)
    decreases depth, list
  {
    if list != [] {
      if IsContainer(list[0]) { UntouchedRuns(list[0].children, c, depth - 1); }
      UntouchedRuns(list[1..], c, depth);
      assert MapNode(list[0], c, depth) == Some([list[0]]);
      assert [list[0]] + list[1..] == list;
    }
  }

  lemma {:induction false} PutTouches(list: seq<Node>, parentId: string, index: int, node: Node)
    ensures AnyTouched(Put(parentId, index, node), list) <==> parentId in ContainerIds(list)
  {
    if list != [] {
      if IsContainer(list[0]) { PutTouches(list[0].children, parentId, index, node); }
      PutTouches(list[1..], parentId, index, node);
    }
  }

  /** `insertNode` ends when the inserted subtree holds no container of the target's id, and is insertion. */
  lemma {:induction false} PutRuns(list: seq<Node>, parentId: string, index: int, node: Node, depth: nat)
    requires parentId !in ContainerIds([node])
    requires depth >= Height(list) + Height([node])
    ensures MapTree(list, Put(parentId, index, node), depth) == Some(Into(list, parentId, index, node))
    decreases depth, list
  {
    if list != [] {
      var c := Put(parentId, index, node);
      var head := list[0];
      if IsContainer(head) {
        PutRuns(head.children, parentId, index, node, depth - 1);
        if head.id == parentId { PutInside(head.children, parentId, index, node, depth - 1); }
      }
      PutRuns(list[1..], parentId, index, node, depth);
    }
  }

  lemma PutInside(children: seq<Node>, parentId: string, index: int, node: Node, depth: nat)
    requires parentId !in ContainerIds([node]) && depth >= Height([node])
    requires MapTree(children, Put(parentId, index, node), depth) == Some(Into(children, parentId, index, node))
    ensures MapTree(InsertAt(children, index, node), Put(parentId, index, node), depth)
         == Some(InsertAt(Into(children, parentId, index, node), index, node))
  {
    var c := Put(parentId, index, node);
    var at := Clamp(index, |children|);
    var a, b := children[..at], children[at..];
    assert children == a + b;
    PutTouches([node], parentId, index, node);
    UntouchedRuns([node], c, depth);
    MapTreeAppend(a, b, c, depth);
    MapTreeAppend(a + [node], b, c, depth);
    MapTreeAppend(a, [node], c, depth);
    MapTreeLength(a, c, depth);
    var x, y := MapTree(a, c, depth).value, MapTree(b, c, depth).value;
    IntoLength(children, parentId, index, node);
    assert Into(children, parentId, index, node) == x + y;
    assert InsertAt(x + y, index, node) == x + [node] + y;
  }

  lemma {:induction false} MapTreeLength(list: seq<Node>, c: Change, depth: nat)
    requires c.Put? && MapTree(list, c, depth).Some?
    ensures |MapTree(list, c, depth).value| == |list|
  {
    if list != [] { MapTreeLength(list[1..], c, depth); }
  }

  /** Otherwise the walk keeps meeting the container it has just filled, at every depth. */
  lemma {:induction false} PutNeverEnds(list: seq<Node>, parentId: string, index: int, node: Node, depth: nat)
    requires parentId in ContainerIds(list) && parentId in ContainerIds([node])
    ensures MapTree(list, Put(parentId, index, node), depth).None?
    decreases depth, list
  {
    var head := list[0];
    if IsContainer(head) && head.id == parentId {
      if depth > 0 {
        var next := InsertAt(head.children, index, node);
        ContainersInserted(head.children, index, node);
        PutNeverEnds(next, parentId, index, node, depth - 1);
      }
    } else if IsContainer(head) && parentId in ContainerIds(head.children) {
      if depth > 0 { PutNeverEnds(head.children, parentId, index, node, depth - 1); }
    } else {
      PutNeverEnds(list[1..], parentId, index, node, depth);
    }
  }

  lemma {:induction false} ContainersAppend(a: seq<Node>, b: seq<Node>)
    ensures ContainerIds(a + b) == ContainerIds(a) + ContainerIds(b)
  {
    if a == [] {
      assert a + b == b;
    } else {
      assert (a + b)[1..] == a[1..] + b;
      ContainersAppend(a[1..], b);
    }
  }

  lemma ContainersInserted(list: seq<Node>, index: int, node: Node)
    ensures ContainerIds([node]) <= ContainerIds(InsertAt(list, index, node))
  {
    var at := Clamp(index, |list|);
    ContainersAppend(list[..at] + [node], list[at..]);
    ContainersAppend(list[..at], [node]);
  }

  /**
   * `insertNode` ends exactly when the target id names no container of the document, or no
   * container of the inserted subtree.
   */
  lemma InsertEndsExactly(list: seq<Node>, parentId: string, index: int, node: Node)
    ensures (exists depth: nat :: MapTree(list, Put(parentId, index, node), depth).Some?)
       <==> parentId !in ContainerIds(list) || parentId !in ContainerIds([node])
  {
    var c := Put(parentId, index, node);
    if parentId !in ContainerIds(list) {
      PutTouches(list, parentId, index, node);
      UntouchedRuns(list, c, Height(list));
    } else if parentId !in ContainerIds([node]) {
      PutRuns(list, parentId, index, node, Height(list) + Height([node]));
    } else {
      forall depth: nat ensures MapTree(list, c, depth).None? {
        PutNeverEnds(list, parentId, index, node, depth);
      }
    }
  }

  /** An accepted move never meets the endless case: both its traversals end, and are the move. */
  lemma MoveRuns(list: seq<Node>, id: string, slot: Slot) returns (depth: nat)
    requires Distinct(list) && DropRefusal(list, id, slot.parentId).None?
    ensures Find(list, id).Some? && MoveNode(list, id, slot).Done?
    ensures var path := Find(list, id).value;
            && MapTree(list, Drop(id), depth) == Some(Without(list, id))
            && (slot.parentId.Some? ==>
                  MapTree(Without(list, id), Put(slot.parentId.value, Corrected(path, slot).index, path.node), depth)
                  == Some(MoveNode(list, id, slot).list))
  {
    AcceptedMove(list, id, slot);
    LocateIff(list, id);
    var path := Locate(list, id).value;
    depth := Height(list) + Height(Without(list, id)) + Height([path.node]);
    DropRuns(list, id, depth);
    if slot.parentId.Some? {
      ContainersAreIds([path.node]);
      assert IdSet([path.node]) == NodeIds(path.node);
      PutRuns(Without(list, id), slot.parentId.value, Corrected(path, slot).index, path.node, depth);
    }
  }

  /** More depth never changes a finished traversal. */
  lemma {:induction false} DeeperSame(list: seq<Node>, c: Change, depth: nat, deeper: nat)
    requires MapTree(list, c, depth).Some? && depth <= deeper
    ensures MapTree(list, c, deeper) == MapTree(list, c, depth)
    decreases depth, list
  {
    if list != [] {
      var next := Next(c, list[0]);
      if !Callback(c, list[0]).Gone? && IsContainer(next) { DeeperSame(next.children, c, depth - 1, deeper - 1); }
      DeeperSame(list[1..], c, depth, deeper);
    }
  }
}
