/**
 core/tx_list.go, txList: the transactions of one account, strict (gapless, executable) or not, with
 cached upper bounds on their cost and gas.
 */
module TxList {
  import opened Common
  import opened ChainTree
  import opened TxItems
  import opened TxSortedMap

  /** The cached caps bound every transaction of the list. */
  ghost predicate CapsBound(m: Items, costcap: int, gascap: nat) {
    forall n: nat :: n in m ==> Cost(m[n]) <= costcap && m[n].gas <= gascap
  }

  /** Below the caps the filter has nothing to remove. */
  lemma ShortCircuit(strict: bool, m: Items, costcap: int, gascap: nat, costLimit: int, gasLimit: nat)
    requires CapsBound(m, costcap, gascap) && costcap <= costLimit && gascap <= gasLimit
    ensures Filtered(strict, m, Unaffordable(costLimit, gasLimit), m, [], [])
  {
    forall n: nat | n in m
      ensures !Unpayable(m[n], costLimit, gasLimit)
    {
    }
    FiltersNothing(strict, m, Unaffordable(costLimit, gasLimit));
  }

  /** What a filter keeps, removes and invalidates. */
  ghost predicate Filtered(strict: bool, m: Items, f: Tx -> bool, kept: Items, removed: seq<Tx>, invalids: seq<Tx>) {
    && Lists(removed, Matching(m, f))
    && kept == (if strict then Executable(m, f) else Without(m, f))
    && (if strict then Lists(invalids, Invalidated(m, f)) else invalids == [])
  }

  lemma FiltersNothing(strict: bool, m: Items, f: Tx -> bool)
    requires forall n: nat :: n in m ==> !f(m[n])
    ensures Filtered(strict, m, f, m, [], [])
  {
    assert Matching(m, f).Keys == {};
    assert Invalidated(m, f).Keys == {};
  }

  class List {
    const strict: bool
    const txs: SortedMap
    var costcap: int
    var gascap: nat

    ghost predicate Valid()
      reads this, txs
    {
      txs.Valid() && CapsBound(txs.items, costcap, gascap)
    }

    constructor (strict: bool)
      ensures Valid() && this.strict == strict && txs.items == map[] && fresh(txs)
    {
      this.strict := strict;
      txs := new SortedMap();
      costcap, gascap := 0, 0;
    }

    method Add(tx: Tx, priceBump: nat) returns (inserted: bool, replaced: Option<Tx>)
      requires Valid()
      modifies this, txs
      ensures Valid()
      ensures inserted <==> Accepts(old(txs.items), tx, priceBump)
      ensures txs.items == if inserted then old(txs.items)[tx.nonce := tx] else old(txs.items)
      ensures replaced == if inserted && tx.nonce in old(txs.items) then Some(old(txs.items)[tx.nonce]) else None
    {
      inserted, replaced := false, None;
      if tx.nonce in txs.items {
        var present := txs.items[tx.nonce];
        var threshold := (100 + priceBump) * present.price / 100;
        if present.price >= tx.price || tx.price < threshold {
          return;
        }
        replaced := Some(present);
      }
      txs.Put(tx);
      if costcap < Cost(tx) {
        costcap := Cost(tx);
      }
      if gascap < tx.gas {
        gascap := tx.gas;
      }
      inserted := true;
    }

    method Forward(threshold: nat) returns (removed: seq<Tx>)
      requires Valid()
      modifies txs
      ensures Valid() && txs.items == From(old(txs.items), threshold)
      ensures removed + Flat(txs.items) == Flat(old(txs.items))
    {
      removed := txs.Forward(threshold);
    }

    /** Removes unpayable transactions and, in a strict list, everything they invalidate. */
    method Filter(costLimit: int, gasLimit: nat) returns (removed: seq<Tx>, invalids: seq<Tx>)
      requires Valid()
      modifies this, txs
      ensures Valid()
      ensures Filtered(strict, old(txs.items), Unaffordable(costLimit, gasLimit), txs.items, removed, invalids)
    {
      removed, invalids := [], [];
      ghost var m := txs.items;
      if costcap <= costLimit && gascap <= gasLimit {
        ShortCircuit(strict, m, costcap, gascap, costLimit, gasLimit);
        return;
      }
      costcap, gascap := costLimit, gasLimit;
      removed := txs.Filter(Unaffordable(costLimit, gasLimit));
      FilteredBound(m, costLimit, gasLimit);
      if |removed| == 0 {
        NoneRemoved(strict, m, Unaffordable(costLimit, gasLimit));
        return;
      }
      invalids := CutAbove(removed, m, Unaffordable(costLimit, gasLimit));
    }

    /** In a strict list, takes out everything above the lowest removed nonce; then rebuilds the heap. */
    method CutAbove(removed: seq<Tx>, ghost m: Items, ghost f: Tx -> bool) returns (invalids: seq<Tx>)
      requires txs.Valid() && Filed(m) && txs.items == Without(m, f) && removed != [] && Lists(removed, Matching(m, f))
      modifies txs
      ensures txs.Valid() && Filtered(strict, m, f, txs.items, removed, invalids)
    {
      invalids := [];
      if strict {
        var lowest := LowestNonce(removed);
        invalids := txs.FilterRaw(Above(lowest));
        StrictCut(m, f, removed, lowest, txs.items, invalids);
      }
      txs.Reheap();
    }

    /** Keeps the transactions of least nonce. */
    method Cap(threshold: nat) returns (drops: seq<Tx>)
      requires Valid()
      modifies txs
      ensures Valid() && txs.items == Lowest(old(txs.items), threshold)
      ensures |drops| == |old(txs.items)| - |txs.items| && ReversedTail(drops, Flat(old(txs.items)))
    {
      drops := txs.Cap(threshold);
      LowestIsPart(old(txs.items), threshold);
    }

    /** Removes the transaction at the given one's nonce and, in a strict list, everything above it. */
    method Remove(tx: Tx) returns (found: bool, invalids: seq<Tx>)
      requires Valid()
      modifies txs
      ensures Valid() && (found <==> tx.nonce in old(txs.items))
      ensures txs.items == if found && strict then Below(old(txs.items), tx.nonce) else old(txs.items) - {tx.nonce}
      ensures if found && strict then Lists(invalids, From(old(txs.items), tx.nonce + 1)) else invalids == []
    {
      hide Lists, Without, Matching, From, Below, CapsBound;
      var nonce := tx.nonce;
      invalids := [];
      ghost var m := txs.items;
      found := txs.Remove(nonce);
      if found && strict {
        invalids := txs.Filter(Above(nonce));
        AboveRemoved(m, nonce);
      }
      CapsShrink(m, nonce, costcap, gascap);
    }

    /** Takes out the run of consecutive nonces from the least one on, unless that is above start. */
    method Ready(start: nat) returns (ready: seq<Tx>)
      requires Valid()
      modifies txs
      ensures Valid() && txs.items == AfterRun(old(txs.items), start)
      ensures ready + Flat(txs.items) == Flat(old(txs.items))
    {
      ready := txs.Ready(start);
    }

    method Flatten() returns (flat: seq<Tx>)
      requires Valid()
      modifies txs`cache
      ensures Valid() && flat == Flat(txs.items)
    {
      flat := txs.Flatten();
    }

    method LastElement() returns (tx: Tx)
      requires Valid() && txs.items != map[]
      modifies txs`cache
      ensures Valid() && IsGreatestKey(txs.items, tx.nonce) && txs.items[tx.nonce] == tx
    {
      tx := txs.LastElement();
    }
  }

  lemma CapsShrink(m: Items, nonce: nat, costcap: int, gascap: nat)
    requires CapsBound(m, costcap, gascap)
    ensures CapsBound(m - {nonce}, costcap, gascap) && CapsBound(Below(m, nonce), costcap, gascap)
  {
  }

  lemma AboveRemoved(m: Items, nonce: nat)
    requires Filed(m)
    ensures Without(m - {nonce}, Above(nonce)) == Below(m, nonce)
    ensures Matching(m - {nonce}, Above(nonce)) == From(m, nonce + 1)
  {
  }

  method LowestNonce(txs: seq<Tx>) returns (lowest: nat)
    requires txs != []
    ensures exists tx :: tx in txs && tx.nonce == lowest
    ensures forall tx :: tx in txs ==> lowest <= tx.nonce
  {
    lowest := txs[0].nonce;
    for i := 0 to |txs|
      invariant exists tx :: tx in txs && tx.nonce == lowest
      invariant forall j :: 0 <= j < i ==> lowest <= txs[j].nonce
    {
      if lowest > txs[i].nonce {
        lowest := txs[i].nonce;
      }
    }
  }

  function Above(nonce: nat): Tx -> bool {
    (tx: Tx) => tx.nonce > nonce
  }

  lemma NoneRemoved(strict: bool, m: Items, f: Tx -> bool)
    requires |Matching(m, f)| == 0
    ensures Filtered(strict, m, f, m, [], []) && Without(m, f) == m
  {
    forall n: nat | n in m
      ensures !f(m[n])
    {
      assert n !in Matching(m, f);
    }
    FiltersNothing(strict, m, f);
  }

  /** What passes the filter is bounded by its limits. */
  lemma FilteredBound(m: Items, costLimit: int, gasLimit: nat)
    ensures CapsBound(Without(m, Unaffordable(costLimit, gasLimit)), costLimit, gasLimit)
    ensures CapsBound(Executable(m, Unaffordable(costLimit, gasLimit)), costLimit, gasLimit)
  {
    var f := Unaffordable(costLimit, gasLimit);
    forall n: nat | n in m && !f(m[n])
      ensures Cost(m[n]) <= costLimit && m[n].gas <= gasLimit
    {
      assert !Unpayable(m[n], costLimit, gasLimit);
    }
  }

  /** The lowest nonce a filter selects. */
  ghost predicate FirstFiltered(m: Items, f: Tx -> bool, lowest: nat) {
    lowest in m && f(m[lowest]) && forall k: nat :: k in m && f(m[k]) ==> lowest <= k
  }

  lemma LowestIsFirst(m: Items, f: Tx -> bool, removed: seq<Tx>, lowest: nat)
    requires Filed(m) && Lists(removed, Matching(m, f))
    requires exists tx :: tx in removed && tx.nonce == lowest
    requires forall tx :: tx in removed ==> lowest <= tx.nonce
    ensures FirstFiltered(m, f, lowest)
  {
    var first :| first in removed && first.nonce == lowest;
    assert Holds(Matching(m, f), first);
    forall k: nat | k in m && f(m[k])
      ensures lowest <= k
    {
      assert Holds(Matching(m, f), m[k]);
    }
  }

  lemma BelowFirst(m: Items, f: Tx -> bool, lowest: nat, n: nat)
    requires FirstFiltered(m, f, lowest)
    ensures NoneUpTo(m, f, n) <==> n < lowest
  {
    if n >= lowest {
      assert lowest in m && lowest <= n;
    }
  }

  /** Cutting the remaining part above the lowest removed nonce leaves exactly the executable run. */
  lemma CutKeeps(m: Items, f: Tx -> bool, lowest: nat)
    requires Filed(m) && FirstFiltered(m, f, lowest)
    ensures Without(Without(m, f), Above(lowest)) == Executable(m, f)
  {
    forall n: nat | n in m
      ensures n in Without(Without(m, f), Above(lowest)) <==> n in Executable(m, f)
    {
      BelowFirst(m, f, lowest, n);
    }
  }

  lemma CutInvalidates(m: Items, f: Tx -> bool, lowest: nat)
    requires Filed(m) && FirstFiltered(m, f, lowest)
    ensures Matching(Without(m, f), Above(lowest)) == Invalidated(m, f)
  {
    forall n: nat | n in m
      ensures n in Matching(Without(m, f), Above(lowest)) <==> n in Invalidated(m, f)
    {
      BelowFirst(m, f, lowest, n);
    }
  }

  lemma StrictCut(m: Items, f: Tx -> bool, removed: seq<Tx>, lowest: nat, kept: Items, invalids: seq<Tx>)
    requires Filed(m) && Lists(removed, Matching(m, f))
    requires exists tx :: tx in removed && tx.nonce == lowest
    requires forall tx :: tx in removed ==> lowest <= tx.nonce
    requires kept == Without(Without(m, f), Above(lowest))
    requires Lists(invalids, Matching(Without(m, f), Above(lowest)))
    ensures Filtered(true, m, f, kept, removed, invalids)
  {
    LowestIsFirst(m, f, removed, lowest);
    CutKeeps(m, f, lowest);
    CutInvalidates(m, f, lowest);
  }
}
