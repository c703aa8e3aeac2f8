/** Where a repeat may stand: never under a repeat, never under a field-list group. */
module FormNesting {
  import opened Options
  import opened FormTree

  predicate Closes(node: Node) { node.kind.Repeat? || IsFieldList(node) }

  /** No repeat stands under a repeat or a field-list group; `closed` says whether the
      list itself already stands under one. */
  predicate NestingOk(list: seq<Node>, closed: bool)
  {
    list == [] ||
    (&& (list[0].kind.Repeat? ==> !closed)
     && (IsContainer(list[0]) ==> NestingOk(list[0].children, closed || Closes(list[0])))
     && NestingOk(list[1..], closed))
  }

  /** A document the builder may hold: ids tell nodes apart and repeats stand where they may. */
  predicate WellFormed(list: seq<Node>)
  {
    Distinct(list) && NestingOk(list, false)
  }

  predicate SubtreeHasRepeat(node: Node)
  {
    node.kind.Repeat? || (IsContainer(node) && exists child <- node.children :: SubtreeHasRepeat(child))
  }

  predicate SomeRepeat(chain: seq<Node>) { exists a <- chain :: a.kind.Repeat? }

  predicate SomeFieldList(chain: seq<Node>) { exists a <- chain :: IsFieldList(a) }

  predicate SomeCloses(chain: seq<Node>) { SomeRepeat(chain) || SomeFieldList(chain) }

  /** The containers a child of the node with this id stands in, outermost first. */
  function Chain(list: seq<Node>, id: string): seq<Node>
    requires Locate(list, id).Some?
  {
    Locate(list, id).value.ancestors + [Locate(list, id).value.node]
  }

  lemma {:induction false} ClosedNesting(list: seq<Node>)
    ensures NestingOk(list, true) <==> forall node <- list :: !SubtreeHasRepeat(node)
  {
    if list != [] {
      if IsContainer(list[0]) { ClosedNesting(list[0].children); }
      ClosedNesting(list[1..]);
      assert forall node :: node in list <==> node == list[0] || node in list[1..];
      assert SubtreeHasRepeat(list[0]) <==>
             list[0].kind.Repeat? || (IsContainer(list[0]) && !NestingOk(list[0].children, true));
    }
  }

  lemma {:induction false} OpenNesting(list: seq<Node>, closed: bool)
    requires NestingOk(list, closed)
    ensures NestingOk(list, false)
  {
    if list != [] {
      if IsContainer(list[0]) && !Closes(list[0]) { OpenNesting(list[0].children, closed); }
      OpenNesting(list[1..], closed);
    }
  }

  lemma {:induction false} NestingAppend(a: seq<Node>, b: seq<Node>, closed: bool)
    ensures NestingOk(a + b, closed) <==> NestingOk(a, closed) && NestingOk(b, closed)
  {
    if a == [] {
      assert a + b == b;
    } else {
      assert (a + b)[1..] == a[1..] + b;
      NestingAppend(a[1..], b, closed);
    }
  }

  lemma NestingInsertAt(list: seq<Node>, index: int, node: Node, closed: bool)
    ensures NestingOk(InsertAt(list, index, node), closed) <==> NestingOk(list, closed) && NestingOk([node], closed)
  {
    var at := Clamp(index, |list|);
    assert list == list[..at] + list[at..];
    NestingAppend(list[..at], list[at..], closed);
    NestingAppend(list[..at] + [node], list[at..], closed);
    NestingAppend(list[..at], [node], closed);
  }

  lemma {:induction false} NestingWithout(list: seq<Node>, id: string, closed: bool)
    requires NestingOk(list, closed)
    ensures NestingOk(Without(list, id), closed)
  {
    if list != [] {
      var head := list[0];
      NestingWithout(list[1..], id, closed);
      if head.id == id {
        assert Without(list, id) == Without(list[1..], id);
      } else {
        assert Without(list, id)[1..] == Without(list[1..], id);
        if IsContainer(head) { NestingWithout(head.children, id, closed || Closes(head)); }
      }
    }
  }

  lemma {:induction false} NestingLocated(list: seq<Node>, id: string, closed: bool)
    requires NestingOk(list, closed) && Locate(list, id).Some?
    ensures NestingOk([Locate(list, id).value.node], closed)
  {
    var head := list[0];
    if head.id == id {
    } else if IsContainer(head) && Locate(head.children, id).Some? {
      NestingLocated(head.children, id, closed || Closes(head));
      if !closed {
        OpenNesting([Locate(list, id).value.node], Closes(head));
      }
    } else {
      NestingLocated(list[1..], id, closed);
    }
  }

  /** Putting a node in a container is allowed exactly when the node may stand under the
      whole chain of containers around it. */
  lemma {:induction false} NestingInto(list: seq<Node>, parentId: string, index: int, node: Node, closed: bool)
    requires Distinct(list) && NestingOk(list, closed)
    requires Locate(list, parentId).Some? && IsContainer(Locate(list, parentId).value.node)
    ensures NestingOk(Into(list, parentId, index, node), closed)
       <==> NestingOk([node], closed || SomeCloses(Chain(list, parentId)))
  {
    var head := list[0];
    var result := Into(list, parentId, index, node);
    assert result[1..] == Into(list[1..], parentId, index, node);
    LocateIff(list[1..], parentId);
    ContainersAreIds(list[1..]);
    if head.id == parentId {
      ContainersAreIds(head.children);
      IntoAbsent(head.children, parentId, index, node);
      IntoAbsent(list[1..], parentId, index, node);
      NestingInsertAt(head.children, index, node, closed || Closes(head));
      assert Chain(list, parentId) == [head];
      SomeClosesCons(head, []);
    } else if IsContainer(head) && Locate(head.children, parentId).Some? {
      LocateIff(head.children, parentId);
      IntoAbsent(list[1..], parentId, index, node);
      NestingInto(head.children, parentId, index, node, closed || Closes(head));
      ChainInside(list, parentId);
    } else {
      if IsContainer(head) {
        LocateIff(head.children, parentId);
        ContainersAreIds(head.children);
        IntoAbsent(head.children, parentId, index, node);
      }
      NestingInto(list[1..], parentId, index, node, closed);
    }
  }

  lemma SomeClosesCons(head: Node, rest: seq<Node>)
    ensures SomeCloses([head] + rest) <==> Closes(head) || SomeCloses(rest)
  {
    assert head in [head] + rest;
    assert forall a :: a in [head] + rest <==> a == head || a in rest;
  }

  /** Taking a subtree out leaves every other node in the document. */
  lemma {:induction false} LocateAfterRemoval(list: seq<Node>, id: string, other: string)
    requires Distinct(list) && Locate(list, other).Some?
    requires Locate(list, id).Some? ==> other !in NodeIds(Locate(list, id).value.node)
    ensures Locate(Without(list, id), other).Some?
    ensures var before, after := Locate(list, other).value.node, Locate(Without(list, id), other).value.node;
            after == if IsContainer(before) then WithChildren(before, Without(before.children, id)) else before
  {
    var head := list[0];
    var taken := Without(list, id);
    LocateIff(list[1..], other);
    LocateIff(list[1..], id);
    if head.id == id {
      WithoutAbsent(list[1..], id);
      assert taken == list[1..];
      if IsContainer(head) { LocateIff(head.children, other); }
      var found := Locate(list[1..], other).value.node;
      LocatedSubset(list[1..], other);
      if IsContainer(found) { WithoutAbsent(found.children, id); }
    } else {
      assert taken[1..] == Without(list[1..], id);
      if IsContainer(head) {
        LocateIff(head.children, other);
        LocateIff(head.children, id);
      }
      if head.id == other {
      } else if IsContainer(head) && Locate(head.children, other).Some? {
        LocateAfterRemoval(head.children, id, other);
      } else {
        if IsContainer(head) {
          WithoutSubset(head.children, id);
          LocateIff(taken[0].children, other);
        }
        LocateAfterRemoval(list[1..], id, other);
      }
    }
  }

  /** Taking a subtree out leaves every other node under the same kinds of containers. */
  lemma {:induction false} ChainAfterRemoval(list: seq<Node>, id: string, other: string)
    requires Distinct(list) && Locate(list, other).Some?
    requires Locate(list, id).Some? ==> other !in NodeIds(Locate(list, id).value.node)
    ensures Locate(Without(list, id), other).Some?
    ensures SomeCloses(Chain(list, other)) <==> SomeCloses(Chain(Without(list, id), other))
  {
    hide SomeCloses;
    LocateAfterRemoval(list, id, other);
    var head := list[0];
    var taken := Without(list, id);
    LocateIff(list[1..], other);
    LocateIff(list[1..], id);
    if IsContainer(head) {
      LocateIff(head.children, other);
      LocateIff(head.children, id);
    }
    if head.id == id {
      WithoutAbsent(list[1..], id);
      assert taken == list[1..];
    } else {
      assert taken[1..] == Without(list[1..], id);
      if head.id == other {
        assert Chain(list, other) == [head] + [] && Chain(taken, other) == [taken[0]] + [];
        SomeClosesCons(head, []);
        SomeClosesCons(taken[0], []);
      } else if IsContainer(head) && Locate(head.children, other).Some? {
        ChainAfterRemoval(head.children, id, other);
        ChainInside(list, other);
        ChainInside(taken, other);
      } else {
        if IsContainer(head) {
          WithoutSubset(head.children, id);
          LocateIff(taken[0].children, other);
        }
        ChainAfterRemoval(list[1..], id, other);
        assert Chain(list, other) == Chain(list[1..], other);
        assert Chain(taken, other) == Chain(taken[1..], other);
      }
    }
  }

  lemma ChainInside(list: seq<Node>, id: string)
    requires list != [] && list[0].id != id && IsContainer(list[0]) && Locate(list[0].children, id).Some?
    ensures SomeCloses(Chain(list, id)) <==> Closes(list[0]) || SomeCloses(Chain(list[0].children, id))
  {
    assert Chain(list, id) == [list[0]] + Chain(list[0].children, id);
    SomeClosesCons(list[0], Chain(list[0].children, id));
  }
}
