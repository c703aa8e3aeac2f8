/**
 * The form document of the visual builder, on values: a tree of nodes, read by
 * `walk` and `find`, and edited by removal, insertion and property edits.
 *
 * Only groups and repeats are containers. The children of any other node are
 * carried along and never looked at, so "the ids of a document" are the ids
 * `walk` reaches.
 */
module FormTree {
  import opened Options

  datatype Value = Text(text: string) | Opaque(token: nat)

  datatype Kind = Question | Group | Repeat | Foreign(name: string)

  datatype Node = Node(kind: Kind, id: string, props: map<string, Value>, children: seq<Node>)

  predicate IsContainer(node: Node) { node.kind.Group? || node.kind.Repeat? }

  predicate IsFieldList(node: Node)
  {
    node.kind.Group? && "appearance" in node.props && node.props["appearance"] == Text("field-list")
  }

  // ---------------------------------------------------------------- reading

  /** One visit of `walk`: a node and where it stands. */
  datatype Path = Path(node: Node, parent: Option<Node>, index: nat, ancestors: seq<Node>)

  /** The visits of `walk`, in document order. */
  function Walk(list: seq<Node>, parent: Option<Node>, start: nat, ancestors: seq<Node>): seq<Path>
    decreases list
  {
    if list == [] then [] else
      [Path(list[0], parent, start, ancestors)]
      + (if IsContainer(list[0]) then Walk(list[0].children, Some(list[0]), 0, ancestors + [list[0]]) else [])
      + Walk(list[1..], parent, start + 1, ancestors)
  }

  /** The first visit whose node has the id. */
  function FirstVisit(paths: seq<Path>, id: string): Option<Path>
  {
    if paths == [] then None
    else if paths[0].node.id == id then Some(paths[0])
    else FirstVisit(paths[1..], id)
  }

  function Find(list: seq<Node>, id: string): Option<Path>
  {
    FirstVisit(Walk(list, None, 0, []), id)
  }

  /** The ids `walk` reaches, in document order. */
  function Ids(list: seq<Node>): seq<string>
  {
    if list == [] then [] else
      [list[0].id] + (if IsContainer(list[0]) then Ids(list[0].children) else []) + Ids(list[1..])
  }

  function IdSet(list: seq<Node>): set<string>
  {
    if list == [] then {} else NodeIds(list[0]) + IdSet(list[1..])
  }

  /** The ids of a node's own subtree. */
  function NodeIds(node: Node): set<string>
  {
    {node.id} + (if IsContainer(node) then IdSet(node.children) else {})
  }

  /** No two reached nodes carry the same id. */
  predicate Distinct(list: seq<Node>)
  {
    list == [] ||
    (var head := list[0];
     && (IsContainer(head) ==> head.id !in IdSet(head.children) && Distinct(head.children))
     && NodeIds(head) !! IdSet(list[1..])
     && Distinct(list[1..]))
  }

  function ContainerIds(list: seq<Node>): set<string>
  {
    if list == [] then {} else
      (if IsContainer(list[0]) then {list[0].id} + ContainerIds(list[0].children) else {})
      + ContainerIds(list[1..])
  }

  /** Where the first node with an id stands, computed top down. */
  function Locate(list: seq<Node>, id: string): Option<Path>
  {
    if list == [] then None else
      var head := list[0];
      if head.id == id then Some(Path(head, None, 0, [])) else
        var inside := if IsContainer(head) then Locate(head.children, id) else None;
        if inside.Some? then
          Some(inside.value.(parent := if inside.value.parent.None? then Some(head) else inside.value.parent,
                             ancestors := [head] + inside.value.ancestors))
        else
          match Locate(list[1..], id)
          case None => None
          case Some(p) => Some(if p.parent.None? then p.(index := p.index + 1) else p)
  }

  // ---------------------------------------------------------------- editing

  function WithChildren(node: Node, children: seq<Node>): Node { node.(children := children) }

  /** The document without any reached node of that id. */
  function Without(list: seq<Node>, id: string): seq<Node>
  {
    if list == [] then [] else
      var head := list[0];
      (if head.id == id then []
       else [if IsContainer(head) then WithChildren(head, Without(head.children, id)) else head])
      + Without(list[1..], id)
  }

  datatype Slot = Slot(parentId: Option<string>, index: int)

  /** The place nearest to an index, of those a list of this length has. */
  function Clamp(index: int, length: nat): (at: nat)
    ensures at <= length && forall other: nat | other <= length :: Apart(index, at) <= Apart(index, other)
  {
    if index < 0 then 0 else if index > length then length else index
  }

  function Apart(a: int, b: int): nat { if a <= b then b - a else a - b }

  function InsertAt(list: seq<Node>, index: int, node: Node): seq<Node>
  {
    var at := Clamp(index, |list|);
    list[..at] + [node] + list[at..]
  }

  /** The document with `node` put at `index` of every container of that id. */
  function Into(list: seq<Node>, parentId: string, index: int, node: Node): seq<Node>
  {
    if list == [] then [] else
      var head := list[0];
      [if IsContainer(head) then
         var inside := Into(head.children, parentId, index, node);
         WithChildren(head, if head.id == parentId then InsertAt(inside, index, node) else inside)
       else head]
      + Into(list[1..], parentId, index, node)
  }

  function Insert(list: seq<Node>, slot: Slot, node: Node): seq<Node>
  {
    match slot.parentId
    case None => InsertAt(list, slot.index, node)
    case Some(p) => Into(list, p, slot.index, node)
  }

  // ------------------------------------------------------- ids and locating

  lemma {:induction false} IdSetAppend(a: seq<Node>, b: seq<Node>)
    ensures IdSet(a + b) == IdSet(a) + IdSet(b)
  {
    if a == [] {
      assert a + b == b;
    } else {
      assert (a + b)[1..] == a[1..] + b;
      IdSetAppend(a[1..], b);
    }
  }

  lemma {:induction false} DistinctAppend(a: seq<Node>, b: seq<Node>)
    ensures Distinct(a + b) <==> Distinct(a) && Distinct(b) && IdSet(a) !! IdSet(b)
  {
    if a == [] {
      assert a + b == b;
    } else {
      assert (a + b)[1..] == a[1..] + b;
      DistinctAppend(a[1..], b);
      IdSetAppend(a[1..], b);
    }
  }

  lemma {:induction false} LocateIff(list: seq<Node>, id: string)
    ensures Locate(list, id).Some? <==> id in IdSet(list)
    ensures Locate(list, id).Some? ==> Locate(list, id).value.node.id == id
  {
    if list != [] {
      if IsContainer(list[0]) { LocateIff(list[0].children, id); }
      LocateIff(list[1..], id);
    }
  }

  // ------------------------------------------------- removing and inserting

  lemma {:induction false} WithoutAbsent(list: seq<Node>, id: string)
    requires id !in IdSet(list)
    ensures Without(list, id) == list
  {
    if list != [] {
      if IsContainer(list[0]) { WithoutAbsent(list[0].children, id); }
      WithoutAbsent(list[1..], id);
    }
  }

  lemma {:induction false} WithoutAppend(a: seq<Node>, b: seq<Node>, id: string)
    ensures Without(a + b, id) == Without(a, id) + Without(b, id)
  {
    if a == [] {
      assert a + b == b;
    } else {
      assert (a + b)[1..] == a[1..] + b;
      WithoutAppend(a[1..], b, id);
    }
  }

  lemma {:induction false} IntoAbsent(list: seq<Node>, parentId: string, index: int, node: Node)
    requires parentId !in ContainerIds(list)
    ensures Into(list, parentId, index, node) == list
  {
    if list != [] {
      if IsContainer(list[0]) { IntoAbsent(list[0].children, parentId, index, node); }
      IntoAbsent(list[1..], parentId, index, node);
    }
  }

  lemma {:induction false} IntoAppend(a: seq<Node>, b: seq<Node>, parentId: string, index: int, node: Node)
    ensures Into(a + b, parentId, index, node) == Into(a, parentId, index, node) + Into(b, parentId, index, node)
  {
    if a == [] {
      assert a + b == b;
    } else {
      assert (a + b)[1..] == a[1..] + b;
      IntoAppend(a[1..], b, parentId, index, node);
    }
  }

  lemma {:induction false} ContainersAreIds(list: seq<Node>)
    ensures ContainerIds(list) <= IdSet(list)
  {
    if list != [] {
      if IsContainer(list[0]) { ContainersAreIds(list[0].children); }
      ContainersAreIds(list[1..]);
    }
  }

  lemma WithoutInsertAt(list: seq<Node>, index: int, node: Node)
    ensures Without(InsertAt(list, index, node), node.id) == Without(list, node.id)
  {
    var at := Clamp(index, |list|);
    WithoutAppend(list[..at] + [node], list[at..], node.id);
    WithoutAppend(list[..at], [node], node.id);
    WithoutAppend(list[..at], list[at..], node.id);
    assert list == list[..at] + list[at..];
  }

  /** Taking out what was just put in gives the document back. */
  lemma {:induction false} WithoutInto(list: seq<Node>, parentId: string, index: int, node: Node)
    requires node.id !in IdSet(list)
    ensures Without(Into(list, parentId, index, node), node.id) == list
  {
    if list != [] {
      var head := list[0];
      WithoutInto(list[1..], parentId, index, node);
      if IsContainer(head) {
        WithoutInto(head.children, parentId, index, node);
        WithoutInsertAt(Into(head.children, parentId, index, node), index, node);
      }
    }
  }

  /** The document with `node` put back at the place `path` describes. */
  function PutBack(list: seq<Node>, path: Path): seq<Node>
  {
    Insert(list, Slot(if path.parent.None? then None else Some(path.parent.value.id), path.index), path.node)
  }

  /** Putting a node back where it was found gives the document back. */
  lemma {:induction false} Restore(list: seq<Node>, id: string)
    requires Distinct(list) && Locate(list, id).Some?
    ensures PutBack(Without(list, id), Locate(list, id).value) == list
    ensures Locate(list, id).value.parent.None? ==> Locate(list, id).value.index < |list|
  {
    var head := list[0];
    LocateIff(list[1..], id);
    if head.id == id {
      WithoutAbsent(list[1..], id);
      assert InsertAt(list[1..], 0, head) == list;
    } else if IsContainer(head) && Locate(head.children, id).Some? {
      LocateIff(head.children, id);
      WithoutAbsent(list[1..], id);
      Restore(head.children, id);
      RestoreInside(list, id);
    } else {
      Restore(list[1..], id);
      RestoreAfter(list, id);
    }
  }

  lemma InsertAtShift(head: Node, rest: seq<Node>, index: nat, node: Node)
    requires index <= |rest|
    ensures InsertAt([head] + rest, index + 1, node) == [head] + InsertAt(rest, index, node)
  {
    assert ([head] + rest)[..index + 1] == [head] + rest[..index];
  }

  lemma RestoreInside(list: seq<Node>, id: string)
    requires list != [] && Distinct(list) && list[0].id != id && IsContainer(list[0])
    requires Locate(list[0].children, id).Some? && Without(list[1..], id) == list[1..]
    requires PutBack(Without(list[0].children, id), Locate(list[0].children, id).value) == list[0].children
    ensures PutBack(Without(list, id), Locate(list, id).value) == list
  {
    var head := list[0];
    var inside := Locate(head.children, id).value;
    var p := if inside.parent.None? then head.id else inside.parent.value.id;
    var removed := Without(head.children, id);
    OneLevelDown(list, id);
    assert p !in ContainerIds(list[1..]) by {
      ContainersAreIds(list[1..]);
      if inside.parent.Some? {
        ContainersAreIds(head.children);
        ParentIsContainer(head.children, id);
      }
    }
    RestoredChildren(head, id, p);
    PutIntoFirst(head, removed, list, p, inside.index, inside.node);
  }

  /** Removing and finding inside the first container, one level down. */
  lemma OneLevelDown(list: seq<Node>, id: string)
    requires list != [] && list[0].id != id && IsContainer(list[0])
    requires Locate(list[0].children, id).Some? && Without(list[1..], id) == list[1..]
    ensures Without(list, id) == [WithChildren(list[0], Without(list[0].children, id))] + list[1..]
    ensures var p, inside := Locate(list, id).value, Locate(list[0].children, id).value;
            && p.node == inside.node && p.index == inside.index
            && p.parent == Some(if inside.parent.None? then list[0] else inside.parent.value)
  {}

  lemma PutIntoFirst(head: Node, removed: seq<Node>, list: seq<Node>, p: string, index: int, node: Node)
    requires list != [] && head == list[0] && IsContainer(head) && p !in ContainerIds(list[1..])
    requires ChildrenAfterInto(head.id, removed, p, index, node) == head.children
    ensures Into([WithChildren(head, removed)] + list[1..], p, index, node) == list
  {
    hide ChildrenAfterInto;
    var taken := [WithChildren(head, removed)] + list[1..];
    assert taken[0] == WithChildren(head, removed) && taken[1..] == list[1..];
    IntoFirst(taken, p, index, node, head.children);
    assert WithChildren(taken[0], head.children) == head && [head] + list[1..] == list;
  }

  /** Putting a node back into a container its subtree was found in gives the container's list back. */
  lemma RestoredChildren(head: Node, id: string, p: string)
    requires IsContainer(head) && head.id !in IdSet(head.children) && Locate(head.children, id).Some?
    requires PutBack(Without(head.children, id), Locate(head.children, id).value) == head.children
    requires p == var q := Locate(head.children, id).value.parent; if q.None? then head.id else q.value.id
    ensures var inside := Locate(head.children, id).value;
            ChildrenAfterInto(head.id, Without(head.children, id), p, inside.index, inside.node) == head.children
  {
    var inside := Locate(head.children, id).value;
    if inside.parent.Some? {
      ContainersAreIds(head.children);
      ParentIsContainer(head.children, id);
    } else {
      WithoutSubset(head.children, id);
      ContainersAreIds(Without(head.children, id));
      IntoAbsent(Without(head.children, id), head.id, inside.index, inside.node);
    }
  }

  /** What becomes of a container's list when a node is put into every container of an id. */
  function ChildrenAfterInto(own: string, children: seq<Node>, parentId: string, index: int, node: Node): seq<Node>
  {
    var inside := Into(children, parentId, index, node);
    if own == parentId then InsertAt(inside, index, node) else inside
  }

  lemma IntoFirst(list: seq<Node>, parentId: string, index: int, node: Node, children: seq<Node>)
    requires list != [] && IsContainer(list[0]) && parentId !in ContainerIds(list[1..])
    requires ChildrenAfterInto(list[0].id, list[0].children, parentId, index, node) == children
    ensures Into(list, parentId, index, node) == [WithChildren(list[0], children)] + list[1..]
  {
    IntoAbsent(list[1..], parentId, index, node);
  }

  lemma RestoreAfter(list: seq<Node>, id: string)
    requires list != [] && Distinct(list) && list[0].id != id && Locate(list[1..], id).Some?
    requires IsContainer(list[0]) ==> Locate(list[0].children, id).None?
    requires PutBack(Without(list[1..], id), Locate(list[1..], id).value) == list[1..]
    requires Locate(list[1..], id).value.parent.None? ==> Locate(list[1..], id).value.index < |list[1..]|
    ensures PutBack(Without(list, id), Locate(list, id).value) == list
  {
    var head := list[0];
    if IsContainer(head) {
      LocateIff(head.children, id);
      WithoutAbsent(head.children, id);
    }
    var p := Locate(list[1..], id).value;
    var taken := Without(list, id);
    assert taken[0] == head && taken[1..] == Without(list[1..], id);
    if p.parent.None? {
      var rest := Without(list[1..], id);
      assert |InsertAt(rest, p.index, p.node)| == |rest| + 1;
      InsertAtShift(head, rest, p.index, p.node);
    } else {
      var q := p.parent.value.id;
      ParentIsContainer(list[1..], id);
      assert q !in ContainerIds([head]) by {
        ContainersAreIds(list[1..]);
        ContainersAreIds([head]);
        assert IdSet([head]) == NodeIds(head);
      }
      IntoAppend([head], Without(list[1..], id), q, p.index, p.node);
      IntoAbsent([head], q, p.index, p.node);
      assert taken == [head] + Without(list[1..], id);
    }
  }

  lemma {:induction false} ParentIsContainer(list: seq<Node>, id: string)
    requires Locate(list, id).Some? && Locate(list, id).value.parent.Some?
    ensures var q := Locate(list, id).value.parent.value;
            IsContainer(q) && q.id in ContainerIds(list)
  {
    var head := list[0];
    if IsContainer(head) && Locate(head.children, id).Some? {
      if Locate(head.children, id).value.parent.Some? { ParentIsContainer(head.children, id); }
    } else {
      ParentIsContainer(list[1..], id);
    }
  }

  lemma {:induction false} WithoutSubset(list: seq<Node>, id: string)
    ensures IdSet(Without(list, id)) <= IdSet(list)
    ensures ContainerIds(Without(list, id)) <= ContainerIds(list)
    ensures id !in IdSet(Without(list, id))
  {
    if list != [] {
      var head := list[0];
      if IsContainer(head) { WithoutSubset(head.children, id); }
      WithoutSubset(list[1..], id);
      if head.id == id {
        assert Without(list, id) == Without(list[1..], id);
      } else {
        assert Without(list, id)[1..] == Without(list[1..], id);
      }
    }
  }

  /** A node's subtree and the subtree of anything located in it are related by ids. */
  lemma {:induction false} LocatedSubset(list: seq<Node>, id: string)
    requires Locate(list, id).Some?
    ensures NodeIds(Locate(list, id).value.node) <= IdSet(list)
  {
    var head := list[0];
    if head.id == id {
    } else if IsContainer(head) && Locate(head.children, id).Some? {
      LocatedSubset(head.children, id);
    } else {
      LocatedSubset(list[1..], id);
    }
  }

  /** Removal takes out exactly the ids of the removed subtree. */
  lemma {:induction false} WithoutIds(list: seq<Node>, id: string)
    requires Distinct(list) && Locate(list, id).Some?
    ensures IdSet(Without(list, id)) == IdSet(list) - NodeIds(Locate(list, id).value.node)
  {
    var head := list[0];
    LocateIff(list[1..], id);
    LocatedSubset(list, id);
    if head.id == id {
      WithoutAbsent(list[1..], id);
      assert Without(list, id) == list[1..];
    } else if IsContainer(head) && Locate(head.children, id).Some? {
      LocateIff(head.children, id);
      LocatedSubset(head.children, id);
      WithoutAbsent(list[1..], id);
      WithoutIds(head.children, id);
      assert Without(list, id)[1..] == list[1..];
    } else {
      if IsContainer(head) {
        LocateIff(head.children, id);
        WithoutAbsent(head.children, id);
      }
      LocatedSubset(list[1..], id);
      WithoutIds(list[1..], id);
      assert Without(list, id)[1..] == Without(list[1..], id);
    }
  }

  lemma {:induction false} WithoutContainers(list: seq<Node>, id: string)
    requires Distinct(list) && Locate(list, id).Some?
    ensures ContainerIds(Without(list, id)) == ContainerIds(list) - NodeIds(Locate(list, id).value.node)
  {
    var head := list[0];
    LocateIff(list[1..], id);
    ContainersAreIds(list[1..]);
    if head.id == id {
      WithoutAbsent(list[1..], id);
      assert Without(list, id) == list[1..];
      if IsContainer(head) { ContainersAreIds(head.children); }
    } else if IsContainer(head) && Locate(head.children, id).Some? {
      LocateIff(head.children, id);
      LocatedSubset(head.children, id);
      WithoutAbsent(list[1..], id);
      WithoutContainers(head.children, id);
      assert Without(list, id)[1..] == list[1..];
    } else {
      if IsContainer(head) {
        LocateIff(head.children, id);
        WithoutAbsent(head.children, id);
        ContainersAreIds(head.children);
      }
      LocatedSubset(list[1..], id);
      WithoutContainers(list[1..], id);
      assert Without(list, id)[1..] == Without(list[1..], id);
    }
  }

  lemma {:induction false} WithoutDistinct(list: seq<Node>, id: string)
    requires Distinct(list)
    ensures Distinct(Without(list, id))
  {
    if list != [] {
      var head := list[0];
      WithoutDistinct(list[1..], id);
      WithoutSubset(list[1..], id);
      if head.id == id {
        assert Without(list, id) == Without(list[1..], id);
      } else {
        assert Without(list, id)[1..] == Without(list[1..], id);
        if IsContainer(head) {
          WithoutDistinct(head.children, id);
          WithoutSubset(head.children, id);
        }
      }
    }
  }

  lemma InsertAtIds(list: seq<Node>, index: int, node: Node)
    ensures IdSet(InsertAt(list, index, node)) == IdSet(list) + NodeIds(node)
    ensures Distinct(InsertAt(list, index, node)) <==>
            Distinct(list) && Distinct([node]) && NodeIds(node) !! IdSet(list)
  {
    var at := Clamp(index, |list|);
    var a, b := list[..at], list[at..];
    assert list == a + b;
    IdSetAppend(a, b);
    DistinctAppend(a, b);
    IdSetAppend(a + [node], b);
    DistinctAppend(a + [node], b);
    IdSetAppend(a, [node]);
    DistinctAppend(a, [node]);
    assert IdSet([node]) == NodeIds(node);
  }

  /** Insertion adds exactly the ids of the inserted subtree. */
  lemma {:induction false} IntoIds(list: seq<Node>, parentId: string, index: int, node: Node)
    requires Distinct(list) && Distinct([node]) && NodeIds(node) !! IdSet(list)
    requires parentId in ContainerIds(list)
    ensures IdSet(Into(list, parentId, index, node)) == IdSet(list) + NodeIds(node)
    ensures Distinct(Into(list, parentId, index, node))
  {
    var head := list[0];
    ContainersAreIds(list[1..]);
    if IsContainer(head) && (head.id == parentId || parentId in ContainerIds(head.children)) {
      ContainersAreIds(head.children);
      IntoAbsent(list[1..], parentId, index, node);
      if head.id == parentId {
        IntoAbsent(head.children, parentId, index, node);
        InsertAtIds(head.children, index, node);
      } else {
        IntoIds(head.children, parentId, index, node);
      }
      ChildrenGrown(list, ChildrenAfterInto(head.id, head.children, parentId, index, node), node);
      assert Into(list, parentId, index, node)
          == [WithChildren(head, ChildrenAfterInto(head.id, head.children, parentId, index, node))] + list[1..];
    } else {
      IntoIds(list[1..], parentId, index, node);
      if IsContainer(head) { IntoAbsent(head.children, parentId, index, node); }
      RestGrown(list, Into(list[1..], parentId, index, node), node);
      assert Into(list, parentId, index, node) == [head] + Into(list[1..], parentId, index, node);
    }
  }

  /** The first container's children have grown by a subtree of new ids. */
  lemma ChildrenGrown(list: seq<Node>, children: seq<Node>, node: Node)
    requires list != [] && IsContainer(list[0]) && Distinct(list) && NodeIds(node) !! IdSet(list)
    requires Distinct(children) && IdSet(children) == IdSet(list[0].children) + NodeIds(node)
    ensures var grown := [WithChildren(list[0], children)] + list[1..];
            Distinct(grown) && IdSet(grown) == IdSet(list) + NodeIds(node)
  {
    var grown := [WithChildren(list[0], children)] + list[1..];
    assert grown[1..] == list[1..];
  }

  /** The rest of the list has grown by a subtree of new ids. */
  lemma RestGrown(list: seq<Node>, rest: seq<Node>, node: Node)
    requires list != [] && Distinct(list) && NodeIds(node) !! IdSet(list)
    requires Distinct(rest) && IdSet(rest) == IdSet(list[1..]) + NodeIds(node)
    ensures Distinct([list[0]] + rest) && IdSet([list[0]] + rest) == IdSet(list) + NodeIds(node)
  {
    assert ([list[0]] + rest)[1..] == rest;
  }

  /** Where a freshly inserted node is found: in the container named, at the clamped index. */
  lemma {:induction false} LocateInserted(list: seq<Node>, parentId: string, index: int, node: Node)
    requires Distinct(list) && NodeIds(node) !! IdSet(list)
    requires parentId in ContainerIds(list)
    ensures Locate(list, parentId).Some? && IsContainer(Locate(list, parentId).value.node)
    ensures var target := Locate(list, parentId).value;
            var holder := WithChildren(target.node, InsertAt(target.node.children, index, node));
            var result := Into(list, parentId, index, node);
            && Locate(result, parentId).Some? && Locate(result, parentId).value.node == holder
            && Locate(result, node.id).Some?
            && var p := Locate(result, node.id).value;
            && p.node == node && p.parent == Some(holder) && p.index == Clamp(index, |target.node.children|)
  {
    var head := list[0];
    var result := Into(list, parentId, index, node);
    assert result[1..] == Into(list[1..], parentId, index, node);
    ContainersAreIds(list[1..]);
    LocateIff(list[1..], parentId);
    if IsContainer(head) {
      LocateIff(head.children, parentId);
      ContainersAreIds(head.children);
      if head.id == parentId {
        IntoAbsent(head.children, parentId, index, node);
        LocateAtTop(head.children, index, node);
      } else if parentId in ContainerIds(head.children) {
        LocateInserted(head.children, parentId, index, node);
      } else {
        IntoAbsent(head.children, parentId, index, node);
        LocateIff(head.children, node.id);
        LocateInserted(list[1..], parentId, index, node);
      }
    } else {
      LocateInserted(list[1..], parentId, index, node);
    }
  }

  lemma {:induction false} LocateAppend(a: seq<Node>, b: seq<Node>, id: string)
    requires id !in IdSet(a)
    ensures match Locate(b, id)
            case None => Locate(a + b, id).None?
            case Some(p) => Locate(a + b, id) == Some(if p.parent.None? then p.(index := |a| + p.index) else p)
  {
    if a == [] {
      assert a + b == b;
    } else {
      assert (a + b)[1..] == a[1..] + b;
      if IsContainer(a[0]) { LocateIff(a[0].children, id); }
      LocateAppend(a[1..], b, id);
    }
  }

  lemma LocateBetween(a: seq<Node>, node: Node, b: seq<Node>)
    requires node.id !in IdSet(a)
    ensures Locate(a + ([node] + b), node.id) == Some(Path(node, None, |a|, []))
  {
    assert ([node] + b)[0] == node;
    LocateAppend(a, [node] + b, node.id);
  }

  lemma FirstIds(list: seq<Node>, n: nat)
    requires n <= |list|
    ensures IdSet(list[..n]) <= IdSet(list)
  {
    assert list == list[..n] + list[n..];
    IdSetAppend(list[..n], list[n..]);
  }

  lemma LocateAtTop(list: seq<Node>, index: int, node: Node)
    requires node.id !in IdSet(list)
    ensures Locate(InsertAt(list, index, node), node.id) == Some(Path(node, None, Clamp(index, |list|), []))
  {
    var at := Clamp(index, |list|);
    FirstIds(list, at);
    LocateBetween(list[..at], node, list[at..]);
    assert InsertAt(list, index, node) == list[..at] + ([node] + list[at..]);
  }

  // ------------------------------------------------- `find` is top-down location

  lemma {:induction false} FirstVisitAppend(a: seq<Path>, b: seq<Path>, id: string)
    ensures FirstVisit(a + b, id) == if FirstVisit(a, id).Some? then FirstVisit(a, id) else FirstVisit(b, id)
  {
    if a == [] {
      assert a + b == b;
    } else {
      assert (a + b)[1..] == a[1..] + b;
      FirstVisitAppend(a[1..], b, id);
    }
  }

  /** A place found in a list, as the walk that started there reports it. */
  function Seen(found: Option<Path>, parent: Option<Node>, start: nat, ancestors: seq<Node>): Option<Path>
  {
    match found
    case None => None
    case Some(p) =>
      Some(Path(p.node, if p.parent.None? then parent else p.parent,
                if p.parent.None? then start + p.index else p.index, ancestors + p.ancestors))
  }

  lemma {:induction false} FirstVisitIsLocate(
      list: seq<Node>, parent: Option<Node>, start: nat, ancestors: seq<Node>, id: string)
    ensures FirstVisit(Walk(list, parent, start, ancestors), id) == Seen(Locate(list, id), parent, start, ancestors)
  {
    if list != [] {
      var head := list[0];
      var first := Path(head, parent, start, ancestors);
      var inside := if IsContainer(head) then Walk(head.children, Some(head), 0, ancestors + [head]) else [];
      var after := Walk(list[1..], parent, start + 1, ancestors);
      FirstVisitInThree(first, inside, after, id);
      FirstVisitIsLocate(list[1..], parent, start + 1, ancestors, id);
      if IsContainer(head) { FirstVisitIsLocate(head.children, Some(head), 0, ancestors + [head], id); }
      SeenInThree(list, parent, start, ancestors, id);
    }
  }

  /** What is seen of a list is its head, or what is seen inside it, or what is seen after it. */
  lemma SeenInThree(list: seq<Node>, parent: Option<Node>, start: nat, ancestors: seq<Node>, id: string)
    requires list != []
    ensures var head := list[0];
            var inside := if IsContainer(head) then Locate(head.children, id) else None;
            Seen(Locate(list, id), parent, start, ancestors) ==
            if head.id == id then Some(Path(head, parent, start, ancestors))
            else if inside.Some? then Seen(inside, Some(head), 0, ancestors + [head])
            else Seen(Locate(list[1..], id), parent, start + 1, ancestors)
  {
    var head := list[0];
    assert ancestors + [] == ancestors;
    if IsContainer(head) && Locate(head.children, id).Some? {
      var p := Locate(head.children, id).value;
      assert ancestors + [head] + p.ancestors == ancestors + ([head] + p.ancestors);
    }
  }

  lemma FirstVisitInThree(first: Path, inside: seq<Path>, after: seq<Path>, id: string)
    ensures FirstVisit([first] + inside + after, id) ==
            if first.node.id == id then Some(first)
            else if FirstVisit(inside, id).Some? then FirstVisit(inside, id)
            else FirstVisit(after, id)
  {
    FirstVisitAppend([first] + inside, after, id);
    FirstVisitAppend([first], inside, id);
    assert [first][1..] == [];
  }

  /** `find` keeps the first visit of a walk; top-down search finds the same place. */
  lemma FindIsLocate(list: seq<Node>, id: string)
    ensures Find(list, id) == Locate(list, id)
  {
    FirstVisitIsLocate(list, None, 0, [], id);
    match Locate(list, id) {
      case None =>
      case Some(p) => assert [] + p.ancestors == p.ancestors;
    }
  }

  // ------------------------------------------------------------ ancestors

  lemma {:induction false} AncestorsAreIds(list: seq<Node>, id: string)
    requires Locate(list, id).Some?
    ensures forall a <- Locate(list, id).value.ancestors :: a.id in IdSet(list)
  {
    var head := list[0];
    if head.id == id {
    } else if IsContainer(head) && Locate(head.children, id).Some? {
      AncestorsAreIds(head.children, id);
    } else {
      AncestorsAreIds(list[1..], id);
    }
  }

  predicate AmongAncestors(ancestors: seq<Node>, id: string)
  {
    exists a <- ancestors :: a.id == id
  }

  /** A node has `id` among its ancestors exactly when it stands inside the subtree of `id`. */
  lemma {:induction false} AncestorIff(list: seq<Node>, target: string, id: string)
    requires Distinct(list) && target != id
    requires Locate(list, target).Some? && Locate(list, id).Some?
    ensures AmongAncestors(Locate(list, target).value.ancestors, id)
       <==> target in NodeIds(Locate(list, id).value.node)
  {
    var head := list[0];
    LocateIff(list[1..], target);
    LocateIff(list[1..], id);
    if IsContainer(head) {
      LocateIff(head.children, target);
      LocateIff(head.children, id);
    }
    if head.id == target {
      if IsContainer(head) && Locate(head.children, id).Some? {
        LocatedSubset(head.children, id);
      } else {
        LocatedSubset(list[1..], id);
      }
    } else if IsContainer(head) && Locate(head.children, target).Some? {
      var inside := Locate(head.children, target).value;
      assert Locate(list, target).value.ancestors == [head] + inside.ancestors;
      if head.id == id {
      } else if Locate(head.children, id).Some? {
        AncestorIff(head.children, target, id);
      } else {
        AncestorsAreIds(head.children, target);
        LocatedSubset(list[1..], id);
      }
    } else {
      if head.id == id || (IsContainer(head) && Locate(head.children, id).Some?) {
        AncestorsAreIds(list[1..], target);
        LocatedSubset(list, id);
        if head.id != id { LocatedSubset(head.children, id); }
      } else {
        AncestorIff(list[1..], target, id);
      }
    }
  }
}
