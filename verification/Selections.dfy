/** Picking some elements out of a sequence, in their order and each as often as it stands there. */
module Selections {

  /** The elements chosen are those at these places, which are exactly the places of what is wanted. */
  predicate PicksAt<T(==)>(all: seq<T>, chosen: seq<T>, wanted: T -> bool, at: seq<nat>)
  {
    && |at| == |chosen|
    && (forall k | 0 <= k < |at| :: at[k] < |all| && chosen[k] == all[at[k]])
    && (forall k, l | 0 <= k < l < |at| :: at[k] < at[l])
    && (forall i: nat | i < |all| :: wanted(all[i]) <==> i in at)
  }

  ghost predicate Picks<T>(all: seq<T>, chosen: seq<T>, wanted: T -> bool)
  {
    exists at: seq<nat> :: PicksAt(all, chosen, wanted, at)
  }

  lemma PicksNothing<T>(wanted: T -> bool)
    ensures Picks([], [], wanted)
  {
    assert PicksAt([], [], wanted, []);
  }

  lemma PicksNext<T>(all: seq<T>, chosen: seq<T>, wanted: T -> bool, last: T)
    requires Picks(all, chosen, wanted)
    ensures Picks(all + [last], chosen + (if wanted(last) then [last] else []), wanted)
  {
    var at: seq<nat> :| PicksAt(all, chosen, wanted, at);
    if wanted(last) { PicksLast(all, chosen, wanted, last, at); } else { PicksSame(all, chosen, wanted, last, at); }
    hide PicksAt;
    assert chosen + [] == chosen;
  }

  lemma PicksSame<T>(all: seq<T>, chosen: seq<T>, wanted: T -> bool, last: T, at: seq<nat>)
    requires PicksAt(all, chosen, wanted, at) && !wanted(last)
    ensures PicksAt(all + [last], chosen, wanted, at)
  {
    assert forall i: nat | i < |all| :: (all + [last])[i] == all[i];
    forall i: nat | i < |all + [last]|
      ensures wanted((all + [last])[i]) <==> i in at
    {
      if i == |all| { assert forall k | 0 <= k < |at| :: at[k] < |all|; }
    }
  }

  lemma PicksLast<T>(all: seq<T>, chosen: seq<T>, wanted: T -> bool, last: T, at: seq<nat>)
    requires PicksAt(all, chosen, wanted, at) && wanted(last)
    ensures PicksAt(all + [last], chosen + [last], wanted, at + [|all|])
  {
    forall i: nat | i < |all + [last]|
      ensures wanted((all + [last])[i]) <==> i in at + [|all|]
    {
      assert i in at + [|all|] <==> i in at || i == |all|;
      if i < |all| { assert (all + [last])[i] == all[i]; }
    }
  }

  /** The places of what is wanted. */
  function Places<T>(all: seq<T>, wanted: T -> bool): set<nat>
  {
    set i: nat | i < |all| && wanted(all[i])
  }

  lemma PlacesNext<T>(all: seq<T>, wanted: T -> bool, last: T)
    ensures |Places(all + [last], wanted)| == |Places(all, wanted)| + (if wanted(last) then 1 else 0)
  {
    var more := all + [last];
    assert forall i: nat | i < |all| :: more[i] == all[i];
    if wanted(last) {
      assert Places(more, wanted) == Places(all, wanted) + {|all|};
    } else {
      assert Places(more, wanted) == Places(all, wanted);
    }
  }
}
