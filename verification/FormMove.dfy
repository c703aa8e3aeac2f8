/** Moving a node of the form document: when it is refused, where it lands, what it keeps. */
module FormMove {
  import opened Options
  import opened FormTree
  import opened FormNesting

  datatype Refusal =
    | NothingToMove | ItselfAsParent | NoSuchContainer | NotAContainer | InsideItself
    | RepeatInRepeat | RepeatInFieldList

  function DropRefusal(list: seq<Node>, id: string, parentId: Option<string>): Option<Refusal>
  {
    var moving := Find(list, id);
    if moving.None? then Some(NothingToMove)
    else if parentId.None? then None
    else if parentId.value == id then Some(ItselfAsParent)
    else
      var target := Find(list, parentId.value);
      if target.None? then Some(NoSuchContainer)
      else if !IsContainer(target.value.node) then Some(NotAContainer)
      else if AmongAncestors(target.value.ancestors, id) then Some(InsideItself)
      else if SubtreeHasRepeat(moving.value.node) then
        var chain := target.value.ancestors + [target.value.node];
        if SomeRepeat(chain) then Some(RepeatInRepeat)
        else if SomeFieldList(chain) then Some(RepeatInFieldList)
        else None
      else None
  }

  function ParentId(path: Path): Option<string>
  {
    if path.parent.None? then None else Some(path.parent.value.id)
  }

  /** The slot to insert at once the node has been taken out of the list it stood in. */
  function Corrected(path: Path, slot: Slot): Slot
  {
    if ParentId(path) == slot.parentId && path.index < slot.index then slot.(index := slot.index - 1) else slot
  }

  /** The document with the node of this path taken out and put at the slot, allowed or not. */
  function Relocated(list: seq<Node>, path: Path, slot: Slot): seq<Node>
  {
    Insert(Without(list, path.node.id), Corrected(path, slot), path.node)
  }

  datatype Moved = Refused(why: Refusal) | Done(list: seq<Node>)

  function MoveNode(list: seq<Node>, id: string, slot: Slot): Moved
  {
    match DropRefusal(list, id, slot.parentId)
    case Some(why) => Refused(why)
    case None =>
      match Find(list, id)
      case None => Done(list)
      case Some(path) => Done(Relocated(list, path, slot))
  }

  /** Whether a slot is the root or names a container outside the subtree of `id`. */
  predicate Reachable(list: seq<Node>, id: string, parentId: Option<string>)
    requires Locate(list, id).Some?
  {
    parentId.Some? ==>
      && Locate(list, parentId.value).Some?
      && IsContainer(Locate(list, parentId.value).value.node)
      && parentId.value !in NodeIds(Locate(list, id).value.node)
  }

  /** The list a slot indexes into. */
  function ChildrenAt(list: seq<Node>, parentId: Option<string>): seq<Node>
    requires parentId.Some? ==> Locate(list, parentId.value).Some?
  {
    match parentId
    case None => list
    case Some(p) => Locate(list, p).value.node.children
  }

  // ---------------------------------------------------------- small facts

  lemma {:induction false} LocatedDistinct(list: seq<Node>, id: string)
    requires Distinct(list) && Locate(list, id).Some?
    ensures Distinct([Locate(list, id).value.node])
  {
    var head := list[0];
    if head.id == id {
    } else if IsContainer(head) && Locate(head.children, id).Some? {
      LocatedDistinct(head.children, id);
    } else {
      LocatedDistinct(list[1..], id);
    }
  }

  lemma {:induction false} ContainerFound(list: seq<Node>, id: string)
    requires Distinct(list)
    ensures id in ContainerIds(list) <==> Locate(list, id).Some? && IsContainer(Locate(list, id).value.node)
  {
    if list != [] {
      var head := list[0];
      ContainersAreIds(list[1..]);
      ContainerFound(list[1..], id);
      LocateIff(list[1..], id);
      if IsContainer(head) {
        ContainersAreIds(head.children);
        ContainerFound(head.children, id);
        LocateIff(head.children, id);
      }
    }
  }

  /** The parent `find` reports is the node of that id, and holds the node at that index. */
  lemma {:induction false} ParentHolds(list: seq<Node>, id: string)
    requires Distinct(list) && Locate(list, id).Some? && Locate(list, id).value.parent.Some?
    ensures var p := Locate(list, id).value;
            && Locate(list, p.parent.value.id).Some?
            && Locate(list, p.parent.value.id).value.node == p.parent.value
            && Locate(p.parent.value.children, id) == Some(Path(p.node, None, p.index, []))
    ensures Locate(list, id).value.parent.value.id !in NodeIds(Locate(list, id).value.node)
  {
    var head := list[0];
    var p := Locate(list, id).value;
    ParentIsContainer(list, id);
    if IsContainer(head) && Locate(head.children, id).Some? {
      LocateIff(head.children, id);
      LocatedSubset(head.children, id);
      if Locate(head.children, id).value.parent.Some? {
        ParentHolds(head.children, id);
        LocateIff(head.children, p.parent.value.id);
      } else {
        TopHasNoAncestors(head.children, id);
      }
    } else {
      ParentHolds(list[1..], id);
      LocateIff(list[1..], p.parent.value.id);
      if IsContainer(head) { LocateIff(head.children, p.parent.value.id); }
    }
  }

  lemma {:induction false} TopHasNoAncestors(list: seq<Node>, id: string)
    requires Locate(list, id).Some? && Locate(list, id).value.parent.None?
    ensures var p := Locate(list, id).value;
            p.ancestors == [] && p.index < |list| && list[p.index] == p.node
  {
    if list[0].id != id { TopHasNoAncestors(list[1..], id); }
  }

  /** A member of the list stands in it at its own index. */
  lemma {:induction false} TopLocated(list: seq<Node>, i: nat)
    requires Distinct(list) && i < |list|
    ensures Locate(list, list[i].id) == Some(Path(list[i], None, i, []))
  {
    if i > 0 {
      TopLocated(list[1..], i - 1);
      LocateIff(list[1..], list[i].id);
      if IsContainer(list[0]) { LocateIff(list[0].children, list[i].id); }
    }
  }

  /** A child of a located container is located under it. */
  lemma {:induction false} ChildLocated(list: seq<Node>, parentId: string, i: nat)
    requires Distinct(list) && Locate(list, parentId).Some?
    requires var t := Locate(list, parentId).value.node; IsContainer(t) && i < |t.children|
    ensures var t := Locate(list, parentId).value.node;
            && Locate(list, t.children[i].id).Some?
            && Locate(list, t.children[i].id).value.parent == Some(t)
            && Locate(list, t.children[i].id).value.index == i
  {
    var head := list[0];
    var t := Locate(list, parentId).value.node;
    LocateIff(list[1..], parentId);
    if head.id == parentId {
      TopLocated(head.children, i);
      LocateIff(head.children, head.children[i].id);
    } else if IsContainer(head) && Locate(head.children, parentId).Some? {
      ChildLocated(head.children, parentId, i);
      LocateIff(head.children, t.children[i].id);
    } else {
      ChildLocated(list[1..], parentId, i);
      LocateIff(list[1..], t.children[i].id);
      if IsContainer(head) { LocateIff(head.children, t.children[i].id); }
    }
  }

  lemma {:induction false} WithoutLength(list: seq<Node>, id: string)
    requires forall node <- list :: node.id != id
    ensures |Without(list, id)| == |list|
  {
    if list != [] { WithoutLength(list[1..], id); }
  }

  // ------------------------------------------------------------- refusals

  lemma RelocatedIds(list: seq<Node>, id: string, slot: Slot)
    requires Distinct(list) && Locate(list, id).Some? && Reachable(list, id, slot.parentId)
    ensures var r := Relocated(list, Locate(list, id).value, slot);
            Distinct(r) && IdSet(r) == IdSet(list)
  {
    var path := Locate(list, id).value;
    var taken := Without(list, id);
    var at := Corrected(path, slot);
    LocateIff(list, id);
    WithoutIds(list, id);
    WithoutDistinct(list, id);
    LocatedDistinct(list, id);
    LocatedSubset(list, id);
    if slot.parentId.None? {
      InsertAtIds(taken, at.index, path.node);
    } else {
      LocateAfterRemoval(list, id, slot.parentId.value);
      ContainerFound(taken, slot.parentId.value);
      IntoIds(taken, slot.parentId.value, at.index, path.node);
    }
  }

  lemma RelocatedNesting(list: seq<Node>, id: string, slot: Slot)
    requires WellFormed(list) && Locate(list, id).Some? && Reachable(list, id, slot.parentId)
    ensures NestingOk(Relocated(list, Locate(list, id).value, slot), false)
       <==> (SubtreeHasRepeat(Locate(list, id).value.node) && slot.parentId.Some?
             ==> !SomeCloses(Chain(list, slot.parentId.value)))
  {
    var path := Locate(list, id).value;
    var taken := Without(list, id);
    var at := Corrected(path, slot);
    LocateIff(list, id);
    WithoutDistinct(list, id);
    NestingWithout(list, id, false);
    NestingLocated(list, id, false);
    ClosedNesting([path.node]);
    assert path.node in [path.node];
    if slot.parentId.None? {
      NestingInsertAt(taken, at.index, path.node, false);
    } else {
      ChainAfterRemoval(list, id, slot.parentId.value);
      LocateAfterRemoval(list, id, slot.parentId.value);
      NestingInto(taken, slot.parentId.value, at.index, path.node, false);
    }
  }

  /**
   * The refusals are exactly right: a drop is accepted exactly when there is a node to
   * move, the slot is the root or a container outside its subtree, and the moved document
   * is still well formed.
   */
  lemma DropRefusalExact(list: seq<Node>, id: string, slot: Slot)
    requires WellFormed(list)
    ensures DropRefusal(list, id, slot.parentId).None? <==>
            && Locate(list, id).Some?
            && Reachable(list, id, slot.parentId)
            && WellFormed(Relocated(list, Locate(list, id).value, slot))
  {
    FindIsLocate(list, id);
    if Locate(list, id).Some? {
      var node := Locate(list, id).value.node;
      LocateIff(list, id);
      if slot.parentId.Some? {
        var p := slot.parentId.value;
        FindIsLocate(list, p);
        if p != id && Locate(list, p).Some? { AncestorIff(list, p, id); }
      }
      if Reachable(list, id, slot.parentId) {
        RelocatedIds(list, id, slot);
        RelocatedNesting(list, id, slot);
      }
    }
  }

  // ------------------------------------------------- which refusal is given

  /** One node is another, or stands anywhere in it. */
  predicate Within(outer: Node, inner: Node)
  {
    inner == outer || ((outer.kind.Group? || outer.kind.Repeat?) && Reaches(outer.children, inner))
  }

  predicate Reaches(list: seq<Node>, node: Node) { exists top <- list :: Within(top, node) }

  lemma ReachesCons(list: seq<Node>, node: Node)
    requires list != []
    ensures Reaches(list, node) <==> Within(list[0], node) || Reaches(list[1..], node)
  {
    assert forall top :: top in list <==> top == list[0] || top in list[1..];
  }

  lemma {:induction false} ReachesIds(list: seq<Node>, node: Node)
    requires Reaches(list, node)
    ensures NodeIds(node) <= IdSet(list) && node.id in IdSet(list)
  {
    ReachesCons(list, node);
    if Within(list[0], node) {
      if node != list[0] { ReachesIds(list[0].children, node); }
    } else {
      ReachesIds(list[1..], node);
    }
  }

  lemma WithinIds(outer: Node, inner: Node)
    requires Within(outer, inner)
    ensures NodeIds(inner) <= NodeIds(outer) && inner.id in NodeIds(outer)
  {
    if inner != outer { ReachesIds(outer.children, inner); }
  }

  lemma {:induction false} WithinOn(a: Node, b: Node, c: Node)
    requires Within(a, b) && Within(b, c)
    ensures Within(a, c)
  {
    if a != b {
      var top :| top in a.children && Within(top, b);
      WithinOn(top, b, c);
    }
  }

  /** With distinct ids, what the document reaches is what is located under its id. */
  lemma {:induction false} ReachedLocated(list: seq<Node>, node: Node)
    requires Distinct(list) && Reaches(list, node)
    ensures Locate(list, node.id).Some? && Locate(list, node.id).value.node == node
  {
    var head := list[0];
    ReachesCons(list, node);
    if Within(head, node) {
      if node != head {
        ReachesIds(head.children, node);
        ReachedLocated(head.children, node);
      }
    } else {
      ReachesIds(list[1..], node);
      ReachedLocated(list[1..], node);
      if IsContainer(head) { LocateIff(head.children, node.id); }
    }
  }

  lemma {:induction false} LocatedReached(list: seq<Node>, id: string)
    requires Locate(list, id).Some?
    ensures Reaches(list, Locate(list, id).value.node) && Locate(list, id).value.node.id == id
  {
    var head := list[0];
    ReachesCons(list, Locate(list, id).value.node);
    if head.id == id {
    } else if IsContainer(head) && Locate(head.children, id).Some? {
      LocatedReached(head.children, id);
    } else {
      LocatedReached(list[1..], id);
    }
  }

  /** The chain of a node is what the document reaches that is the node or holds it. */
  lemma {:induction false} ChainHolds(list: seq<Node>, id: string, a: Node)
    requires Distinct(list) && Locate(list, id).Some?
    ensures a in Chain(list, id) <==> Reaches(list, a) && Within(a, Locate(list, id).value.node)
  {
    var head, target := list[0], Locate(list, id).value.node;
    ReachesCons(list, a);
    LocatedReached(list, id);
    if Reaches(list, a) && Within(a, target) { WithinIds(a, target); }
    if head.id == id {
      HeadHolds(list, a);
    } else if IsContainer(head) && Locate(head.children, id).Some? {
      ChainHolds(head.children, id, a);
      LocatedReached(head.children, id);
      ReachesIds(head.children, target);
      assert Chain(list, id) == [head] + Chain(head.children, id);
      if Reaches(list[1..], a) { ReachesIds(list[1..], a); }
    } else {
      ChainHolds(list[1..], id, a);
      LocatedReached(list[1..], id);
      ReachesIds(list[1..], target);
      assert Chain(list, id) == Chain(list[1..], id);
      if Within(head, a) { WithinIds(head, a); }
    }
  }

  lemma HeadHolds(list: seq<Node>, a: Node)
    requires Distinct(list) && list != []
    ensures Reaches(list, a) && Within(a, list[0]) <==> a == list[0]
  {
    ReachesCons(list, a);
    if Reaches(list, a) && Within(a, list[0]) && a != list[0] {
      WithinIds(a, list[0]);
      if Within(list[0], a) {
        ReachesIds(list[0].children, a);
      } else {
        ReachesIds(list[1..], a);
      }
    }
  }

  lemma {:induction false} RepeatWithin(node: Node)
    ensures SubtreeHasRepeat(node) <==> exists r :: Within(node, r) && r.kind.Repeat?
  {
    if IsContainer(node) {
      forall child <- node.children
        ensures SubtreeHasRepeat(child) <==> exists r :: Within(child, r) && r.kind.Repeat?
      {
        RepeatWithin(child);
      }
    }
  }

  /** The document reaches this node, and it has this id. */
  predicate Named(list: seq<Node>, id: string, node: Node) { node.id == id && Reaches(list, node) }

  ghost predicate UnderRepeat(list: seq<Node>, node: Node)
  {
    exists o :: Reaches(list, o) && o.kind.Repeat? && Within(o, node)
  }

  ghost predicate UnderFieldList(list: seq<Node>, node: Node)
  {
    exists o :: Reaches(list, o) && Within(o, node)
                && o.kind.Group? && "appearance" in o.props && o.props["appearance"] == Text("field-list")
  }

  ghost predicate HoldsRepeat(node: Node) { exists r :: Within(node, r) && r.kind.Repeat? }

  predicate Holds(node: Node) { node.kind.Group? || node.kind.Repeat? }

  lemma ChainKinds(list: seq<Node>, id: string, target: Node)
    requires Distinct(list) && Locate(list, id).Some? && Locate(list, id).value.node == target
    ensures SomeRepeat(Chain(list, id)) <==> UnderRepeat(list, target)
    ensures SomeFieldList(Chain(list, id)) <==> UnderFieldList(list, target)
  {
    forall a
      ensures a in Chain(list, id) <==> Reaches(list, a) && Within(a, target)
    {
      ChainHolds(list, id, a);
    }
    hide Reaches, Within, Locate;
  }

  lemma AncestorsHold(list: seq<Node>, node: Node, target: Node)
    requires Distinct(list) && Reaches(list, node) && Reaches(list, target) && node.id != target.id
    ensures Locate(list, target.id).Some?
    ensures AmongAncestors(Locate(list, target.id).value.ancestors, node.id) <==> Within(node, target)
  {
    ReachedLocated(list, target);
    var chain := Chain(list, target.id);
    forall a | a in Locate(list, target.id).value.ancestors && a.id == node.id
      ensures Within(node, target)
    {
      assert a in chain;
      ChainHolds(list, target.id, a);
      ReachedLocated(list, a);
      ReachedLocated(list, node);
    }
    if Within(node, target) {
      ChainHolds(list, target.id, node);
      assert node in Locate(list, target.id).value.ancestors;
    }
  }

  /** With nothing to move, or nowhere to move it. */
  lemma RefusalWithoutTarget(list: seq<Node>, id: string, parentId: Option<string>)
    requires Distinct(list)
    ensures (forall n :: !Named(list, id, n)) <==> DropRefusal(list, id, parentId) == Some(NothingToMove)
    ensures DropRefusal(list, id, parentId) == Some(ItselfAsParent) <==> parentId == Some(id) && exists n :: Named(list, id, n)
    ensures DropRefusal(list, id, parentId) == Some(NoSuchContainer) <==>
      && parentId.Some? && parentId.value != id
      && (exists n :: Named(list, id, n)) && (forall t :: !Named(list, parentId.value, t))
  {
    NamedIff(list, id);
    FindIsLocate(list, id);
    if parentId.Some? {
      NamedIff(list, parentId.value);
      FindIsLocate(list, parentId.value);
    }
    hide Locate, Find;
  }

  lemma NamedIff(list: seq<Node>, id: string)
    requires Distinct(list)
    ensures (exists n :: Named(list, id, n)) <==> Locate(list, id).Some?
  {
    if n :| Named(list, id, n) { ReachedLocated(list, n); }
    if Locate(list, id).Some? {
      LocatedReached(list, id);
      assert Named(list, id, Locate(list, id).value.node);
    }
  }

  /** Between two different nodes of the document: every reason, by what holds what. */
  lemma RefusalBetween(list: seq<Node>, id: string, parentId: string, n: Node, t: Node)
    requires Distinct(list) && id != parentId && Named(list, id, n) && Named(list, parentId, t)
    ensures var why := DropRefusal(list, id, Some(parentId));
            && (why == Some(NotAContainer) <==> !Holds(t))
            && (why == Some(InsideItself) <==> Holds(t) && Within(n, t))
            && (why == Some(RepeatInRepeat) <==> Holds(t) && !Within(n, t) && HoldsRepeat(n) && UnderRepeat(list, t))
            && (why == Some(RepeatInFieldList) <==>
                  Holds(t) && !Within(n, t) && HoldsRepeat(n) && !UnderRepeat(list, t) && UnderFieldList(list, t))
            && (why == None <==>
                  Holds(t) && !Within(n, t) && (HoldsRepeat(n) ==> !UnderRepeat(list, t) && !UnderFieldList(list, t)))
  {
    FindIsLocate(list, id);
    FindIsLocate(list, parentId);
    ReachedLocated(list, n);
    ReachedLocated(list, t);
    AncestorsHold(list, n, t);
    ChainKinds(list, parentId, t);
    RepeatWithin(n);
    hide Locate, Find, Within, SubtreeHasRepeat, SomeRepeat, SomeFieldList, AmongAncestors;
  }

  /**
   * Which refusal is given, in any document with distinct ids, said only by what stands in
   * what: the moved node n, the node t of the target's id, the repeats and the field-list
   * groups that t is or stands in, and the repeats that n is or holds.
   */
  lemma RefusalReasons(list: seq<Node>, id: string, parentId: Option<string>)
    requires Distinct(list)
    ensures var why := DropRefusal(list, id, parentId);
      && (why == Some(NothingToMove) <==> forall n :: !Named(list, id, n))
      && (why == Some(ItselfAsParent) <==> parentId == Some(id) && exists n :: Named(list, id, n))
      && (why == Some(NoSuchContainer) <==>
            && parentId.Some? && parentId.value != id
            && (exists n :: Named(list, id, n)) && (forall t :: !Named(list, parentId.value, t)))
      && (why == Some(NotAContainer) <==> exists n, t :: Between(list, id, parentId, n, t) && !Holds(t))
      && (why == Some(InsideItself) <==> exists n, t :: Between(list, id, parentId, n, t) && Holds(t) && Within(n, t))
      && (why == Some(RepeatInRepeat) <==> exists n, t ::
            Between(list, id, parentId, n, t) && Holds(t) && !Within(n, t) && HoldsRepeat(n) && UnderRepeat(list, t))
      && (why == Some(RepeatInFieldList) <==> exists n, t ::
            Between(list, id, parentId, n, t) && Holds(t) && !Within(n, t) && HoldsRepeat(n)
            && !UnderRepeat(list, t) && UnderFieldList(list, t))
  {
    RefusalWithoutTarget(list, id, parentId);
    forall n, t | Between(list, id, parentId, n, t)
      ensures var why := DropRefusal(list, id, parentId);
              && (why == Some(NotAContainer) <==> !Holds(t))
              && (why == Some(InsideItself) <==> Holds(t) && Within(n, t))
              && (why == Some(RepeatInRepeat) <==> Holds(t) && !Within(n, t) && HoldsRepeat(n) && UnderRepeat(list, t))
              && (why == Some(RepeatInFieldList) <==>
                    Holds(t) && !Within(n, t) && HoldsRepeat(n) && !UnderRepeat(list, t) && UnderFieldList(list, t))
    {
      RefusalBetween(list, id, parentId.value, n, t);
    }
    if DropRefusal(list, id, parentId).Some?
      && DropRefusal(list, id, parentId).value !in {NothingToMove, ItselfAsParent, NoSuchContainer} {
      RefusedBetween(list, id, parentId);
    }
    hide DropRefusal, Within, Named, Holds, HoldsRepeat, UnderRepeat, UnderFieldList;
  }

  /** Two different nodes of the document: the one to move, and the one of the target's id. */
  predicate Between(list: seq<Node>, id: string, parentId: Option<string>, n: Node, t: Node)
  {
    parentId.Some? && parentId.value != id && Named(list, id, n) && Named(list, parentId.value, t)
  }

  lemma RefusedBetween(list: seq<Node>, id: string, parentId: Option<string>)
    requires Distinct(list) && DropRefusal(list, id, parentId).Some?
    requires DropRefusal(list, id, parentId).value !in {NothingToMove, ItselfAsParent, NoSuchContainer}
    ensures exists n, t :: Between(list, id, parentId, n, t)
  {
    FindIsLocate(list, id);
    FindIsLocate(list, parentId.value);
    LocatedReached(list, id);
    LocatedReached(list, parentId.value);
    assert Between(list, id, parentId, Locate(list, id).value.node, Locate(list, parentId.value).value.node);
  }

  /** A well-nested document, by what stands in what: nothing in a repeat or a field-list group is or holds a repeat. */
  lemma {:induction false} NestingExactly(list: seq<Node>)
    ensures NestingOk(list, false) <==>
      forall o, child, r :: Reaches(list, o) && Encloses(o) && child in o.children && Within(child, r) ==> !r.kind.Repeat?
  {
    if list != [] {
      NestingExactly(list[1..]);
      var head := list[0];
      if IsContainer(head) {
        NestingExactly(head.children);
        ClosedNesting(head.children);
        if NestingOk(head.children, true) { OpenNesting(head.children, true); }
        forall child ensures SubtreeHasRepeat(child) <==> exists r :: Within(child, r) && r.kind.Repeat? {
          RepeatWithin(child);
        }
      }
      forall o ensures Reaches(list, o) <==> o == head || (IsContainer(head) && Reaches(head.children, o)) || Reaches(list[1..], o) {
        ReachesCons(list, o);
      }
      hide Within, Reaches, SubtreeHasRepeat;
    }
  }

  /** A repeat, or a group shown on one screen. */
  predicate Encloses(o: Node)
  {
    o.kind.Repeat? || (o.kind.Group? && "appearance" in o.props && o.props["appearance"] == Text("field-list"))
  }

  /** An accepted move, on any document with distinct ids. */
  lemma AcceptedMove(list: seq<Node>, id: string, slot: Slot)
    requires Distinct(list) && DropRefusal(list, id, slot.parentId).None?
    ensures Locate(list, id).Some? && Reachable(list, id, slot.parentId)
    ensures Find(list, id) == Locate(list, id)
    ensures MoveNode(list, id, slot) == Done(Relocated(list, Locate(list, id).value, slot))
  {
    FindIsLocate(list, id);
    LocateIff(list, id);
    if slot.parentId.Some? {
      FindIsLocate(list, slot.parentId.value);
      AncestorIff(list, slot.parentId.value, id);
    }
  }

  // ------------------------------------------------- what a move does and keeps

  /**
   * A move keeps everything but the place of the moved subtree: the same ids, the moved
   * subtree itself, and - with that subtree set aside - the very same document.
   */
  lemma MoveKeeps(list: seq<Node>, id: string, slot: Slot)
    requires Distinct(list) && DropRefusal(list, id, slot.parentId).None?
    ensures MoveNode(list, id, slot).Done?
    ensures var r := MoveNode(list, id, slot).list;
            && Distinct(r) && IdSet(r) == IdSet(list)
            && Without(r, id) == Without(list, id)
            && Find(r, id).Some? && Find(r, id).value.node == Find(list, id).value.node
            && ParentId(Find(r, id).value) == slot.parentId
  {
    AcceptedMove(list, id, slot);
    RelocatedIds(list, id, slot);
    var path := Locate(list, id).value;
    var taken := Without(list, id);
    var at := Corrected(path, slot);
    var r := Relocated(list, path, slot);
    LocateIff(list, id);
    WithoutIds(list, id);
    WithoutDistinct(list, id);
    FindIsLocate(r, id);
    WithoutAbsent(taken, id);
    if slot.parentId.None? {
      WithoutInsertAt(taken, at.index, path.node);
      LocateAtTop(taken, at.index, path.node);
    } else {
      LocateAfterRemoval(list, id, slot.parentId.value);
      ContainerFound(taken, slot.parentId.value);
      WithoutInto(taken, slot.parentId.value, at.index, path.node);
      LocateInserted(taken, slot.parentId.value, at.index, path.node);
      LocateIff(taken, slot.parentId.value);
    }
  }

  /**
   * The node lands where it was drawn: just before whatever stood at the slot's index in
   * the old list, whichever list the node came from.
   */
  lemma MoveLands(list: seq<Node>, id: string, slot: Slot)
    requires Distinct(list) && DropRefusal(list, id, slot.parentId).None?
    ensures MoveNode(list, id, slot).Done? && Locate(list, id).Some? && Reachable(list, id, slot.parentId)
    ensures var r := MoveNode(list, id, slot).list;
            var siblings := ChildrenAt(list, slot.parentId);
            var at := Clamp(slot.index, |siblings|);
            && (slot.parentId.Some? ==> Locate(r, slot.parentId.value).Some?)
            && ChildrenAt(r, slot.parentId)
               == Without(siblings[..at], id) + [Locate(list, id).value.node] + Without(siblings[at..], id)
  {
    AcceptedMove(list, id, slot);
    var path := Locate(list, id).value;
    var taken := Without(list, id);
    var at := Corrected(path, slot);
    var siblings := ChildrenAt(list, slot.parentId);
    LocateIff(list, id);
    WithoutIds(list, id);
    WithoutDistinct(list, id);
    if slot.parentId.Some? {
      LocateAfterRemoval(list, id, slot.parentId.value);
      ContainerFound(taken, slot.parentId.value);
      LocateInserted(taken, slot.parentId.value, at.index, path.node);
    }
    assert ChildrenAt(taken, slot.parentId) == Without(siblings, id);
    SlotMatches(list, id, slot);
  }

  /** Inserting at the seam of a split list. */
  lemma InsertAtSeam(siblings: seq<Node>, at: nat, id: string, index: int, node: Node)
    requires at <= |siblings|
    requires Clamp(index, |Without(siblings, id)|) == |Without(siblings[..at], id)|
    ensures InsertAt(Without(siblings, id), index, node)
         == Without(siblings[..at], id) + [node] + Without(siblings[at..], id)
  {
    assert siblings == siblings[..at] + siblings[at..];
    WithoutAppend(siblings[..at], siblings[at..], id);
  }

  lemma WithoutOne(siblings: seq<Node>, i: nat)
    requires i < |siblings|
    requires forall j | 0 <= j < |siblings| && j != i :: siblings[j].id != siblings[i].id
    ensures |Without(siblings, siblings[i].id)| == |siblings| - 1
  {
    var id := siblings[i].id;
    WithoutLength(siblings[..i], id);
    WithoutLength(siblings[i + 1..], id);
    assert siblings == siblings[..i] + ([siblings[i]] + siblings[i + 1..]);
    WithoutAppend(siblings[..i], [siblings[i]] + siblings[i + 1..], id);
    WithoutAppend([siblings[i]], siblings[i + 1..], id);
    assert Without([siblings[i]], id) == [];
  }

  /** The corrected index splits the thinned list where the drawn index split the old one. */
  lemma SlotMatches(list: seq<Node>, id: string, slot: Slot)
    requires Distinct(list) && Locate(list, id).Some? && Reachable(list, id, slot.parentId)
    ensures var path := Locate(list, id).value;
            var siblings := ChildrenAt(list, slot.parentId);
            var at := Clamp(slot.index, |siblings|);
            InsertAt(Without(siblings, id), Corrected(path, slot).index, path.node)
              == Without(siblings[..at], id) + [path.node] + Without(siblings[at..], id)
  {
    var path := Locate(list, id).value;
    var siblings := ChildrenAt(list, slot.parentId);
    var at := Clamp(slot.index, |siblings|);
    LocateIff(list, id);
    if ParentId(path) == slot.parentId {
      var i := path.index;
      SiblingOnce(list, id);
      WithoutOne(siblings, i);
      if at <= i {
        WithoutLength(siblings[..at], id);
      } else {
        WithoutOne(siblings[..at], i);
      }
    } else {
      forall j | 0 <= j < |siblings| ensures siblings[j].id != id {
        if siblings[j].id == id {
          if slot.parentId.Some? {
            LocateIff(list, slot.parentId.value);
            ChildLocated(list, slot.parentId.value, j);
          } else {
            TopLocated(list, j);
          }
        }
      }
      WithoutLength(siblings, id);
      WithoutLength(siblings[..at], id);
    }
    InsertAtSeam(siblings, at, id, Corrected(path, slot).index, path.node);
  }

  /** A node stands among its siblings at its own index, and only there. */
  lemma SiblingOnce(list: seq<Node>, id: string)
    requires Distinct(list) && Locate(list, id).Some?
    requires Locate(list, id).value.parent.Some? ==> Locate(list, Locate(list, id).value.parent.value.id).Some?
    ensures var path := Locate(list, id).value;
            var siblings := ChildrenAt(list, ParentId(path));
            && path.index < |siblings| && siblings[path.index] == path.node
            && forall j | 0 <= j < |siblings| && j != path.index :: siblings[j].id != id
  {
    var path := Locate(list, id).value;
    var siblings := ChildrenAt(list, ParentId(path));
    LocateIff(list, id);
    if path.parent.Some? {
      ParentHolds(list, id);
      ParentIsContainer(list, id);
      LocatedDistinct(list, path.parent.value.id);
    }
    TopHasNoAncestors(siblings, id);
    OnlyOnce(siblings, path.index);
  }

  lemma OnlyOnce(list: seq<Node>, i: nat)
    requires Distinct(list) && i < |list|
    ensures forall j | 0 <= j < |list| && j != i :: list[j].id != list[i].id
  {
    forall j | 0 <= j < |list| && j != i ensures list[j].id != list[i].id {
      TopLocated(list, i);
      TopLocated(list, j);
    }
  }

  // ------------------------------------------------------------ moving back

  /** The slot that puts a moved node back before the sibling that used to follow it. */
  function BackSlot(origin: Path, landed: Path): Slot
  {
    Slot(ParentId(origin),
         if ParentId(origin) == ParentId(landed) && landed.index < origin.index then origin.index + 1
         else origin.index)
  }

  /** Every accepted move of a well-formed document can be undone by one accepted move. */
  lemma MoveBack(list: seq<Node>, id: string, slot: Slot)
    requires WellFormed(list) && DropRefusal(list, id, slot.parentId).None?
    ensures MoveNode(list, id, slot).Done? && Find(list, id).Some?
    ensures var r := MoveNode(list, id, slot).list;
            && Find(r, id).Some?
            && MoveNode(r, id, BackSlot(Find(list, id).value, Find(r, id).value)) == Done(list)
  {
    AcceptedMove(list, id, slot);
    MoveKeeps(list, id, slot);
    DropRefusalExact(list, id, slot);
    var r := MoveNode(list, id, slot).list;
    var origin, landed := Find(list, id).value, Find(r, id).value;
    var back := BackSlot(origin, landed);
    FindIsLocate(r, id);
    LocateIff(list, id);
    assert Relocated(r, landed, back) == list by {
      assert Corrected(landed, back) == Slot(ParentId(origin), origin.index);
      Restore(list, id);
    }
    if origin.parent.Some? {
      var p := origin.parent.value.id;
      ParentHolds(list, id);
      ParentIsContainer(list, id);
      LocateIff(list, p);
      LocateIff(r, p);
      LocateAfterRemoval(list, id, p);
      LocateAfterRemoval(r, id, p);
    }
    DropRefusalExact(r, id, back);
  }

  // -------------------------------------------------------- document order

  lemma {:induction false} IdsAppend(a: seq<Node>, b: seq<Node>)
    ensures Ids(a + b) == Ids(a) + Ids(b)
  {
    if a == [] {
      assert a + b == b;
    } else {
      assert (a + b)[1..] == a[1..] + b;
      IdsAppend(a[1..], b);
    }
  }

  lemma IdsCons(list: seq<Node>)
    requires list != []
    ensures Ids(list) == Ids([list[0]]) + Ids(list[1..])
  {
    assert list == [list[0]] + list[1..];
    IdsAppend([list[0]], list[1..]);
  }

  lemma IdsOfOne(node: Node)
    ensures Ids([node]) == [node.id] + (if IsContainer(node) then Ids(node.children) else [])
  {
    assert [node][1..] == [];
  }

  /** `block` stands between `before` and `after` in the order, and alone is missing from `rest`. */
  predicate CutsOut(order: seq<string>, rest: seq<string>, before: seq<string>, block: seq<string>, after: seq<string>)
  {
    order == before + block + after && rest == before + after
  }

  lemma CutInside(order: seq<string>, rest: seq<string>, before: seq<string>, block: seq<string>, after: seq<string>,
                  first: seq<string>, last: seq<string>)
    requires CutsOut(order, rest, before, block, after)
    ensures CutsOut(first + order + last, first + rest + last, first + before, block, after + last)
  {}

  /** A subtree is one contiguous block of the document order, and removal cuts out just that block. */
  lemma {:induction false} OrderBlock(list: seq<Node>, id: string) returns (before: seq<string>, after: seq<string>)
    requires Distinct(list) && Locate(list, id).Some?
    ensures CutsOut(Ids(list), Ids(Without(list, id)), before, Ids([Locate(list, id).value.node]), after)
  {
    var head := list[0];
    if head.id == id {
      before, after := [], Ids(list[1..]);
      BlockFirst(list, id);
    } else if IsContainer(head) && Locate(head.children, id).Some? {
      var b, a := OrderBlock(head.children, id);
      before, after := [head.id] + b, a + Ids(list[1..]);
      BlockInside(list, id, b, Ids([Locate(list, id).value.node]), a);
    } else {
      var b, a := OrderBlock(list[1..], id);
      before, after := Ids([head]) + b, a;
      BlockLater(list, id, b, Ids([Locate(list, id).value.node]), a);
    }
  }

  lemma WithoutFirst(list: seq<Node>, id: string)
    requires list != [] && list[0].id == id && id !in IdSet(list[1..])
    ensures Without(list, id) == list[1..]
  {
    WithoutAbsent(list[1..], id);
  }

  lemma BlockFirst(list: seq<Node>, id: string)
    requires list != [] && list[0].id == id && Distinct(list)
    ensures CutsOut(Ids(list), Ids(Without(list, id)), [], Ids([list[0]]), Ids(list[1..]))
  {
    WithoutFirst(list, id);
    IdsCons(list);
    CutFront(Ids(list), Ids([list[0]]), Ids(list[1..]));
  }

  lemma CutFront(order: seq<string>, block: seq<string>, after: seq<string>)
    requires order == block + after
    ensures CutsOut(order, after, [], block, after)
  {
    assert [] + block == block && [] + after == after;
  }

  lemma BlockInside(list: seq<Node>, id: string, b: seq<string>, block: seq<string>, a: seq<string>)
    requires list != [] && Distinct(list) && list[0].id != id
    requires IsContainer(list[0]) && Locate(list[0].children, id).Some?
    requires CutsOut(Ids(list[0].children), Ids(Without(list[0].children, id)), b, block, a)
    ensures CutsOut(Ids(list), Ids(Without(list, id)), [list[0].id] + b, block, a + Ids(list[1..]))
  {
    IdsCons(list);
    IdsOfOne(list[0]);
    IdsWithoutInside(list, id);
    CutInside(Ids(list[0].children), Ids(Without(list[0].children, id)), b, block, a, [list[0].id], Ids(list[1..]));
  }

  lemma BlockLater(list: seq<Node>, id: string, b: seq<string>, block: seq<string>, a: seq<string>)
    requires list != [] && list[0].id != id
    requires IsContainer(list[0]) ==> Locate(list[0].children, id).None?
    requires CutsOut(Ids(list[1..]), Ids(Without(list[1..], id)), b, block, a)
    ensures CutsOut(Ids(list), Ids(Without(list, id)), Ids([list[0]]) + b, block, a)
  {
    IdsCons(list);
    IdsWithoutAfter(list, id);
    CutInside(Ids(list[1..]), Ids(Without(list[1..], id)), b, block, a, Ids([list[0]]), []);
    assert a + [] == a;
    assert Ids([list[0]]) + Ids(list[1..]) + [] == Ids([list[0]]) + Ids(list[1..]);
  }

  lemma IdsWithoutInside(list: seq<Node>, id: string)
    requires list != [] && Distinct(list) && list[0].id != id
    requires IsContainer(list[0]) && Locate(list[0].children, id).Some?
    ensures Ids(Without(list, id)) == [list[0].id] + Ids(Without(list[0].children, id)) + Ids(list[1..])
  {
    var taken := Without(list, id);
    LocateIff(list[0].children, id);
    WithoutAbsent(list[1..], id);
    assert taken[1..] == list[1..];
    IdsCons(taken);
    IdsOfOne(taken[0]);
  }

  lemma IdsWithoutAfter(list: seq<Node>, id: string)
    requires list != [] && list[0].id != id
    requires IsContainer(list[0]) ==> Locate(list[0].children, id).None?
    ensures Ids(Without(list, id)) == Ids([list[0]]) + Ids(Without(list[1..], id))
  {
    var taken := Without(list, id);
    if IsContainer(list[0]) {
      LocateIff(list[0].children, id);
      WithoutAbsent(list[0].children, id);
    }
    assert taken[0] == list[0] && taken[1..] == Without(list[1..], id);
    IdsCons(taken);
  }

  /** A move lifts one block of ids out of the document order and sets it down elsewhere. */
  lemma MoveOrder(list: seq<Node>, id: string, slot: Slot)
    returns (before: seq<string>, after: seq<string>, before': seq<string>, after': seq<string>)
    requires Distinct(list) && DropRefusal(list, id, slot.parentId).None?
    ensures Find(list, id).Some? && MoveNode(list, id, slot).Done?
    ensures var block := Ids([Find(list, id).value.node]);
            && Ids(list) == before + block + after
            && Ids(MoveNode(list, id, slot).list) == before' + block + after'
            && before + after == before' + after'
  {
    AcceptedMove(list, id, slot);
    MoveKeeps(list, id, slot);
    var r := MoveNode(list, id, slot).list;
    FindIsLocate(r, id);
    before, after := OrderBlock(list, id);
    before', after' := OrderBlock(r, id);
  }
}
