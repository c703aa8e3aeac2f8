/**
 * `mapTree` on the objects the builder holds. Nodes and child lists never change after
 * they are made, so an edit shares with the old document every object it has no reason to
 * replace; "the same object" is reference equality here.
 */
module FormObjects {
  import opened Options
  import opened FormTree
  import opened FormMapTree

  class NodeObj {
    const kind: Kind
    const id: string
    const props: map<string, Value>
    const children: ListObj
    /** The value of the whole subtree. */
    ghost const tree: Node

    constructor (kind: Kind, id: string, props: map<string, Value>, children: ListObj)
      ensures this.kind == kind && this.id == id && this.props == props && this.children == children
      ensures tree == Node(kind, id, props, children.trees)
    {
      this.kind, this.id, this.props, this.children := kind, id, props, children;
      tree := Node(kind, id, props, children.trees);
    }
  }

  class ListObj {
    const items: seq<NodeObj>
    ghost const trees: seq<Node>

    constructor (items: seq<NodeObj>)
      ensures this.items == items
      ensures trees == Trees(items)
    {
      this.items := items;
      trees := Trees(items);
    }
  }

  ghost function Trees(items: seq<NodeObj>): seq<Node>
  {
    seq(|items|, i requires 0 <= i < |items| => items[i].tree)
  }

  /** The ghost value of an object is the value its fields spell out, all the way down. */
  ghost predicate SoundList(list: ListObj)
    decreases list.trees
  {
    && list.trees == Trees(list.items)
    && forall i | 0 <= i < |list.items| :: list.items[i].tree == list.trees[i] && SoundNode(list.items[i])
  }

  ghost predicate SoundNode(node: NodeObj)
    decreases node.tree
  {
    node.tree == Node(node.kind, node.id, node.props, node.children.trees) && SoundList(node.children)
  }

  // ------------------------------------------------------------- sharing

  /** Every old element that survives the edit is accounted for among the new ones. */
  ghost predicate Keeps(c: Change, put: NodeObj?, before: ListObj, news: seq<NodeObj>)
    requires SoundList(before)
    decreases before.trees
  {
    forall i | 0 <= i < |before.items| ::
      before.items[i].tree == before.trees[i] && KeepsItem(c, put, before.items[i], news)
  }

  /**
   * A subtree the edit does not touch is the same object in the new list. A node that is
   * rebuilt keeps its children in the same sense; a container that is given a node holds
   * that very object.
   */
  ghost predicate KeepsItem(c: Change, put: NodeObj?, item: NodeObj, news: seq<NodeObj>)
    requires SoundNode(item)
    decreases item.tree
  {
    || Callback(c, item.tree).Gone?
    || (if !AnyTouched(c, [item.tree]) then item in news
        else exists rebuilt: NodeObj | rebuilt in news ::
          (&& LabelOf(rebuilt.tree) == LabelOf(Next(c, item.tree))
           && (if IsContainer(Next(c, item.tree)) then Keeps(c, put, item.children, rebuilt.children.items)
               else rebuilt.children == item.children)
           && (c.Put? && Callback(c, item.tree).Made? ==> put in rebuilt.children.items)))
  }

  lemma KeepsItemMore(c: Change, put: NodeObj?, item: NodeObj, news: seq<NodeObj>, more: seq<NodeObj>)
    requires SoundNode(item) && KeepsItem(c, put, item, news)
    ensures KeepsItem(c, put, item, news + more)
  {}

  lemma {:induction false} TouchedAppend(c: Change, a: seq<Node>, b: seq<Node>)
    ensures AnyTouched(c, a + b) <==> AnyTouched(c, a) || AnyTouched(c, b)
  {
    if a == [] {
      assert a + b == b;
    } else {
      assert (a + b)[1..] == a[1..] + b;
      TouchedAppend(c, a[1..], b);
    }
  }

  lemma TouchedOne(c: Change, node: Node)
    ensures AnyTouched(c, [node]) <==>
            !Callback(c, node).Same? || (IsContainer(node) && AnyTouched(c, node.children))
  {
    assert [node][1..] == [];
  }

  /** One turn of the loop, on values: what element `i` adds. */
  lemma Turn(list: seq<Node>, c: Change, depth: nat, i: nat)
    requires i < |list| && MapTree(list, c, depth).Some?
    ensures MapNode(list[i], c, depth).Some? && MapTree(list[..i], c, depth).Some?
    ensures MapTree(list[..i + 1], c, depth)
         == Some(MapTree(list[..i], c, depth).value + MapNode(list[i], c, depth).value)
    ensures AnyTouched(c, list[..i + 1]) <==> AnyTouched(c, list[..i]) || AnyTouched(c, [list[i]])
  {
    assert list[..i + 1] == list[..i] + [list[i]];
    assert list == list[..i + 1] + list[i + 1..];
    MapTreeAppend(list[..i + 1], list[i + 1..], c, depth);
    MapTreeAppend(list[..i], [list[i]], c, depth);
    TouchedAppend(c, list[..i], [list[i]]);
    MapOne(list[i], c, depth);
  }

  lemma MapOne(node: Node, c: Change, depth: nat)
    ensures MapTree([node], c, depth) == MapNode(node, c, depth)
  {
    assert [node][1..] == [];
    match MapNode(node, c, depth) {
      case None =>
      case Some(x) => assert x + [] == x;
    }
  }

  // ------------------------------------------------------------- the edits

  /** The callback on objects: null drops the node, the node itself leaves it as it is. */
  method Call(c: Change, put: NodeObj?, node: NodeObj) returns (r: NodeObj?)
    requires SoundNode(node)
    requires c.Put? ==> put != null && SoundNode(put) && put.tree == c.node
    ensures r == null <==> Callback(c, node.tree).Gone?
    ensures r == node <==> Callback(c, node.tree).Same?
    ensures r != null ==> SoundNode(r) && r.tree == Next(c, node.tree)
    ensures r != null && c.Put? && r != node ==>
              put in r.children.items && forall item <- node.children.items :: item in r.children.items
    ensures r != null && !(c.Put? && r != node) ==> r.children == node.children
    ensures r != null && r != node ==> fresh(r)
  {
    match c
    case Drop(id) =>
      r := if node.id == id then null else node;
    case Patch(id, patch) =>
      r := node;
      if node.id == id {
        var l := patch(Label(node.kind, node.id, node.props));
        if l.Some? { r := new NodeObj(l.value.kind, l.value.id, l.value.props, node.children); }
      }
    case Put(parentId, index, inserted) =>
      r := node;
      if node.id == parentId && (node.kind.Group? || node.kind.Repeat?) {
        var items := node.children.items;
        var at := Clamp(index, |items|);
        var children := new ListObj(items[..at] + [put] + items[at..]);
        r := new NodeObj(node.kind, node.id, node.props, children);
        assert children.trees == InsertAt(node.children.trees, index, inserted);
      }
  }

  /** The loop after `i` elements: what it has put out, and whether anything changed. */
  ghost predicate Walked(list: ListObj, c: Change, put: NodeObj?, depth: nat, i: nat, out: seq<NodeObj>, changed: bool)
    requires SoundList(list) && i <= |list.items|
  {
    && Some(Trees(out)) == MapTree(list.trees[..i], c, depth)
    && (forall node <- out :: SoundNode(node))
    && (changed <==> AnyTouched(c, list.trees[..i]))
    && (!changed ==> out == list.items[..i])
    && KeepsFirst(c, put, list, i, out)
  }

  lemma WalkedPast(list: ListObj, c: Change, put: NodeObj?, depth: nat, i: nat, out: seq<NodeObj>, changed: bool)
    requires SoundList(list) && i < |list.items| && Walked(list, c, put, depth, i, out, changed)
    requires MapTree(list.trees, c, depth).Some? && MapNode(list.items[i].tree, c, depth) == Some([])
    requires Callback(c, list.items[i].tree).Gone? && AnyTouched(c, [list.items[i].tree])
    ensures Walked(list, c, put, depth, i + 1, out, true)
  {
    Turn(list.trees, c, depth, i);
    assert Trees(out) + [] == Trees(out);
    KeepsDropped(c, put, list, i, out);
  }

  lemma WalkedOn(list: ListObj, c: Change, put: NodeObj?, depth: nat, i: nat, out: seq<NodeObj>, changed: bool,
                 next: NodeObj)
    requires SoundList(list) && i < |list.items| && Walked(list, c, put, depth, i, out, changed)
    requires MapTree(list.trees, c, depth).Some? && MapNode(list.items[i].tree, c, depth) == Some([next.tree])
    requires SoundNode(next) && (next == list.items[i] <==> !AnyTouched(c, [list.items[i].tree]))
    requires KeepsItem(c, put, list.items[i], [next])
    ensures Walked(list, c, put, depth, i + 1, out + [next], changed || next != list.items[i])
  {
    hide MapTree;
    hide MapNode;
    hide AnyTouched;
    hide KeepsItem;
    Turn(list.trees, c, depth, i);
    assert Trees(out + [next]) == Trees(out) + [next.tree];
    KeepsNext(c, put, list, i, out, next);
  }

  lemma WalkedAll(list: ListObj, c: Change, put: NodeObj?, depth: nat, out: seq<NodeObj>, changed: bool)
    requires SoundList(list) && Walked(list, c, put, depth, |list.items|, out, changed)
    ensures Some(Trees(out)) == MapTree(list.trees, c, depth) && (forall node <- out :: SoundNode(node))
    ensures changed <==> AnyTouched(c, list.trees)
    ensures !changed ==> out == list.items
    ensures Keeps(c, put, list, out)
  {
    hide MapTree;
    hide AnyTouched;
    assert list.trees[..|list.items|] == list.trees;
    KeepsAll(c, put, list, out);
  }

  lemma NothingWalked(list: ListObj, c: Change, put: NodeObj?, depth: nat)
    requires SoundList(list)
    ensures Walked(list, c, put, depth, 0, [], false)
  {
    assert Trees([]) == [] && list.trees[..0] == [];
  }

  /** The list after the edit: the list itself when no reached node changed. */
  method MapList(list: ListObj, c: Change, put: NodeObj?, ghost depth: nat) returns (r: ListObj)
    requires SoundList(list) && MapTree(list.trees, c, depth).Some?
    requires c.Put? ==> put != null && SoundNode(put) && put.tree == c.node
    ensures SoundList(r) && Some(r.trees) == MapTree(list.trees, c, depth)
    ensures r == list <==> !AnyTouched(c, list.trees)
    ensures r != list ==> fresh(r)
    ensures Keeps(c, put, list, r.items)
    decreases depth, 1
  {
    var changed := false;
    var out: seq<NodeObj> := [];
    NothingWalked(list, c, put, depth);
    hide Walked;
    hide MapTree;
    hide MapNode;
    hide AnyTouched;
    hide KeepsItem;
    for i := 0 to |list.items|
      invariant Walked(list, c, put, depth, i, out, changed)
    {
      var node := list.items[i];
      Turn(list.trees, c, depth, i);
      var next := MapItem(node, c, put, depth);
      if next == null {
        WalkedPast(list, c, put, depth, i, out, changed);
        changed := true;
        continue;
      }
      WalkedOn(list, c, put, depth, i, out, changed, next);
      if next != node { changed := true; }
      out := out + [next];
    }
    WalkedAll(list, c, put, depth, out, changed);
    if changed { r := new ListObj(out); } else { r := list; }
  }

  /** One element: the callback, then the walk into whatever it answered. */
  method MapItem(node: NodeObj, c: Change, put: NodeObj?, ghost depth: nat) returns (next: NodeObj?)
    requires SoundNode(node) && MapNode(node.tree, c, depth).Some?
    requires c.Put? ==> put != null && SoundNode(put) && put.tree == c.node
    ensures next == null <==> Callback(c, node.tree).Gone?
    ensures next != null ==> SoundNode(next) && MapNode(node.tree, c, depth) == Some([next.tree])
    ensures next == null ==> MapNode(node.tree, c, depth) == Some([])
    ensures next == node <==> !AnyTouched(c, [node.tree])
    ensures next != null && next != node ==> fresh(next)
    ensures next != null ==> KeepsItem(c, put, node, [next])
    decreases depth, 0
  {
    TouchedOne(c, node.tree);
    next := Call(c, put, node);
    if next == null { return; }
    ghost var called := next;
    if next.kind.Group? || next.kind.Repeat? {
      var children := MapList(next.children, c, put, depth - 1);
      if children != next.children { next := new NodeObj(next.kind, next.id, next.props, children); }
      if called != node && c.Put? {
        PutStays(c, put, called, next.children, depth);
        KeepsFewer(c, put, node.children, called.children, next.children.items);
      }
    }
    assert next in [next];
  }

  /** `Keeps`, for the first elements of a list. */
  ghost predicate KeepsFirst(c: Change, put: NodeObj?, before: ListObj, count: nat, news: seq<NodeObj>)
    requires SoundList(before) && count <= |before.items|
  {
    forall j | 0 <= j < count :: KeepsItem(c, put, before.items[j], news)
  }

  lemma KeepsNext(c: Change, put: NodeObj?, before: ListObj, i: nat, news: seq<NodeObj>, last: NodeObj)
    requires SoundList(before) && i < |before.items| && KeepsFirst(c, put, before, i, news)
    requires KeepsItem(c, put, before.items[i], [last])
    ensures KeepsFirst(c, put, before, i + 1, news + [last])
  {
    forall j | 0 <= j < i + 1 ensures KeepsItem(c, put, before.items[j], news + [last]) {
      if j < i { KeepsItemMore(c, put, before.items[j], news, [last]); }
    }
  }

  lemma KeepsDropped(c: Change, put: NodeObj?, before: ListObj, i: nat, news: seq<NodeObj>)
    requires SoundList(before) && i < |before.items| && KeepsFirst(c, put, before, i, news)
    requires Callback(c, before.items[i].tree).Gone?
    ensures KeepsFirst(c, put, before, i + 1, news)
  {}

  lemma KeepsAll(c: Change, put: NodeObj?, before: ListObj, news: seq<NodeObj>)
    requires SoundList(before) && KeepsFirst(c, put, before, |before.items|, news)
    ensures Keeps(c, put, before, news)
  {}

  lemma KeepsFewer(c: Change, put: NodeObj?, before: ListObj, more: ListObj, news: seq<NodeObj>)
    requires SoundList(before) && SoundList(more) && Keeps(c, put, more, news)
    requires forall item <- before.items :: item in more.items
    ensures Keeps(c, put, before, news)
  {
    forall i | 0 <= i < |before.items| ensures KeepsItem(c, put, before.items[i], news) {
      assert before.items[i] in more.items;
      var j :| 0 <= j < |more.items| && more.items[j] == before.items[i];
      assert KeepsItem(c, put, more.items[j], news);
    }
  }

  /** The object just put into a container is not touched by the walk that follows. */
  lemma PutStays(c: Change, put: NodeObj?, called: NodeObj, children: ListObj, depth: nat)
    requires c.Put? && put != null && SoundNode(put) && put.tree == c.node && SoundNode(called)
    requires put in called.children.items
    requires c.parentId == called.id && IsContainer(called.tree)
    requires depth > 0 && MapTree(called.tree.children, c, depth - 1).Some?
    requires Keeps(c, put, called.children, children.items)
    ensures put in children.items
  {
    var i :| 0 <= i < |called.children.items| && called.children.items[i] == put;
    assert KeepsItem(c, put, called.children.items[i], children.items);
    PutUntouched(c, put, called, i, depth);
  }

  /** A walk that ends has met no container of the target's name in what was put in. */
  lemma PutUntouched(c: Change, put: NodeObj, called: NodeObj, i: nat, depth: nat)
    requires c.Put? && SoundNode(put) && put.tree == c.node && SoundNode(called)
    requires i < |called.children.items| && called.children.items[i] == put
    requires depth > 0 && MapTree(called.tree.children, c, depth - 1).Some?
    ensures !AnyTouched(c, [put.tree])
  {
    PutTouches([put.tree], c.parentId, c.index, c.node);
    if c.parentId in ContainerIds([put.tree]) {
      var trees := called.children.trees;
      assert trees == trees[..i] + [put.tree] + trees[i + 1..];
      ContainersAppend(trees[..i] + [put.tree], trees[i + 1..]);
      ContainersAppend(trees[..i], [put.tree]);
      PutNeverEnds(trees, c.parentId, c.index, c.node, depth - 1);
    }
  }
}
