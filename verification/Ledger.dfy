/** Accounting for resources that are numbered when opened, each for one tenant,
    and closed when they are given up. */
module Ledger {

  /** `info` is what the resource was opened with. */
  datatype Item<+D> = Item(info: D, tenant: string, closes: nat)

  /** Every item ever opened is in the map under exactly one tenant, the one it was
      opened for, or has been closed exactly once, and never both. */
  ghost predicate Balanced<D>(held: map<string, nat>, items: seq<Item<D>>) {
    && (forall t :: t in held ==>
          held[t] < |items| && items[held[t]].tenant == t && items[held[t]].closes == 0)
    && (forall p :: 0 <= p < |items| ==>
          items[p].closes == 1 || (items[p].closes == 0 && items[p].tenant in held && held[items[p].tenant] == p))
  }

  function Shut<D>(items: seq<Item<D>>, p: nat): seq<Item<D>> {
    if p < |items| then items[p := items[p].(closes := items[p].closes + 1)] else items
  }

  predicate IsHeld<D>(held: map<string, nat>, items: seq<Item<D>>, p: nat)
    requires p < |items|
  {
    items[p].tenant in held && held[items[p].tenant] == p
  }

  function ShutAll<D>(held: map<string, nat>, items: seq<Item<D>>): seq<Item<D>> {
    seq(|items|, p requires 0 <= p < |items| =>
      if IsHeld(held, items, p) then items[p].(closes := items[p].closes + 1) else items[p])
  }

  lemma BalancedOpen<D>(held: map<string, nat>, items: seq<Item<D>>, t: string, info: D)
    requires Balanced(held, items) && t !in held
    ensures Balanced(held[t := |items|], items + [Item(info, t, 0)])
  {}

  /** Opening and closing at once, as a failed set-up does. */
  lemma BalancedRollback<D>(held: map<string, nat>, items: seq<Item<D>>, t: string, info: D)
    requires Balanced(held, items)
    ensures Balanced(held, items + [Item(info, t, 1)])
  {}

  lemma ShutLast<D>(items: seq<Item<D>>, t: string, info: D)
    ensures Shut(items + [Item(info, t, 0)], |items|) == items + [Item(info, t, 1)]
  {
    var added := items + [Item(info, t, 0)];
    assert added[|items|] == Item(info, t, 0);
    assert added[|items| := Item(info, t, 1)] == items + [Item(info, t, 1)];
  }

  lemma BalancedShut<D>(held: map<string, nat>, items: seq<Item<D>>, t: string)
    requires Balanced(held, items) && t in held
    ensures Balanced(held - {t}, Shut(items, held[t]))
  {}

  lemma BalancedShutAll<D>(held: map<string, nat>, items: seq<Item<D>>)
    requires Balanced(held, items)
    ensures Balanced(map[], ShutAll(held, items))
  {}

  /** Shutting one held item first does not change where shutting all ends. */
  lemma ShutAllStep<D>(held: map<string, nat>, items: seq<Item<D>>, t: string)
    requires Balanced(held, items) && t in held
    ensures ShutAll(held - {t}, Shut(items, held[t])) == ShutAll(held, items)
  {}

  /** Shutting all leaves every item ever opened closed exactly once. */
  lemma ShutAllCloses<D>(held: map<string, nat>, items: seq<Item<D>>)
    requires Balanced(held, items)
    ensures |ShutAll(held, items)| == |items|
    ensures forall p :: 0 <= p < |items| ==> ShutAll(held, items)[p] == Item(items[p].info, items[p].tenant, 1)
  {}
}
