/**
 core/tx_list.go, txSortedMap: a nonce to transaction map with a heap of its nonces and a lazily built
 cache of its sorted content. Every operation refines the same operation on the plain map.
 */
module TxSortedMap {
  import opened Common
  import opened ChainTree
  import opened TxItems
  import Heap

  function NonceLess(a: nat, b: nat): bool {
    a < b
  }

  lemma NonceOrder()
    ensures Heap.StrictWeakOrder(NonceLess)
  {
  }

  /** The slice holds every key of the map exactly once. */
  ghost predicate Indexes(index: seq<nat>, m: Items) {
    multiset(index) == multiset(m.Keys)
  }

  lemma IndexFacts(index: seq<nat>, m: Items)
    requires Indexes(index, m)
    ensures |index| == |m|
    ensures forall n: nat :: n in index <==> n in m
    ensures index == [] <==> m == map[]
  {
    assert |index| == |multiset(index)| == |multiset(m.Keys)| == |m.Keys| == |m|;
    forall n: nat
      ensures n in index <==> n in m
    {
      assert n in index <==> n in multiset(index);
    }
    assert m == map[] <==> |m| == 0;
  }

  /** The root of the nonce heap is the least nonce. */
  lemma RootIsLeastKey(index: seq<nat>, m: Items)
    requires Indexes(index, m) && Heap.IsHeap(index, NonceLess) && index != []
    ensures IsLeastKey(m, index[0])
  {
    IndexFacts(index, m);
    NonceOrder();
    forall n: nat | n in m
      ensures index[0] <= n
    {
      assert n in index;
      var i :| 0 <= i < |index| && index[i] == n;
      Heap.RootIsLeast(index, NonceLess, i);
    }
  }

  lemma IndexesWithout(index: seq<nat>, m: Items, n: nat)
    requires multiset(index) + multiset{n} == multiset(m.Keys)
    ensures n in m && Indexes(index, m - {n})
  {
    assert n in multiset(m.Keys);
    assert (m - {n}).Keys == m.Keys - {n};
    assert multiset(m.Keys - {n}) == multiset(m.Keys) - multiset{n};
  }

  lemma IndexesWith(index: seq<nat>, index': seq<nat>, m: Items, n: nat, tx: Tx)
    requires Indexes(index, m) && multiset(index') == multiset(index) + multiset{n} && n !in m
    ensures Indexes(index', m[n := tx])
  {
    assert m[n := tx].Keys == m.Keys + {n};
    assert multiset(m.Keys + {n}) == multiset(m.Keys) + multiset{n};
  }

  /** Sorts nonces in increasing order. */
  method SortNonces(s: seq<nat>) returns (r: seq<nat>)
    ensures multiset(r) == multiset(s) && Sorted(r)
  {
    NonceOrder();
    r := [];
    var h := Heap.Init(s, NonceLess);
    while h != []
      invariant multiset(r) + multiset(h) == multiset(s) && Heap.IsHeap(h, NonceLess)
      invariant forall i, j :: 0 <= i < j < |r| ==> r[i] <= r[j]
      invariant forall i, y :: 0 <= i < |r| && y in h ==> r[i] <= y
      decreases |h|
    {
      assert h[0] in h;
      var h', x := Heap.Pop(h, NonceLess);
      forall y | y in h'
        ensures y in h
      {
        assert y in multiset(h);
      }
      r, h := r + [x], h';
    }
  }

  /** Walks over the map in some order and takes out what the filter selects. */
  method SelectOut(m: Items, filter: Tx -> bool) returns (kept: Items, removed: seq<Tx>)
    requires Filed(m)
    ensures kept == Without(m, filter) && Lists(removed, Matching(m, filter)) && |removed| + |kept| == |m|
  {
    kept, removed := m, [];
    var todo := m.Keys;
    while todo != {}
      invariant todo <= m.Keys && Selecting(m, todo, filter, kept, removed)
      decreases todo
    {
      var n :| n in todo;
      var tx := kept[n];
      SelectStep(m, todo, filter, kept, removed, n);
      if filter(tx) {
        removed, kept := removed + [tx], kept - {n};
      }
      todo := todo - {n};
    }
    SelectDone(m, filter, kept, removed);
  }

  /** Everything selected among the visited nonces is out, everything else still in. */
  ghost predicate Selecting(m: Items, todo: set<nat>, filter: Tx -> bool, kept: Items, removed: seq<Tx>) {
    && (forall n: nat :: n in kept <==> n in m && (n in todo || !filter(m[n])))
    && (forall n: nat :: n in kept ==> kept[n] == m[n])
    && (forall tx :: tx in removed <==> Taken(m, todo, filter, tx))
    && |removed| + |kept| == |m|
  }

  lemma SelectStep(m: Items, todo: set<nat>, filter: Tx -> bool, kept: Items, removed: seq<Tx>, n: nat)
    requires Filed(m) && todo <= m.Keys && n in todo && Selecting(m, todo, filter, kept, removed)
    ensures if filter(m[n]) then Selecting(m, todo - {n}, filter, kept - {n}, removed + [m[n]])
            else Selecting(m, todo - {n}, filter, kept, removed)
  {
    TakenStep(m, todo, filter, n);
    assert (kept - {n}).Keys == kept.Keys - {n};
  }

  lemma SelectDone(m: Items, filter: Tx -> bool, kept: Items, removed: seq<Tx>)
    requires Filed(m) && Selecting(m, {}, filter, kept, removed)
    ensures kept == Without(m, filter) && Lists(removed, Matching(m, filter))
  {
    PartitionSize(m, filter);
    assert kept == Without(m, filter);
    forall tx
      ensures tx in removed <==> Holds(Matching(m, filter), tx)
    {
      assert tx in removed <==> Taken(m, {}, filter, tx);
    }
  }

  /** The transaction was selected and already visited. */
  predicate Taken(m: Items, todo: set<nat>, filter: Tx -> bool, tx: Tx) {
    Holds(m, tx) && tx.nonce !in todo && filter(tx)
  }

  lemma TakenStep(m: Items, todo: set<nat>, filter: Tx -> bool, n: nat)
    requires Filed(m) && n in todo && todo <= m.Keys
    ensures forall tx :: Taken(m, todo - {n}, filter, tx) <==> Taken(m, todo, filter, tx) || (tx == m[n] && filter(tx))
  {
  }

  class SortedMap {
    var items: Items
    var index: seq<nat>
    var cache: Option<seq<Tx>>

    ghost predicate Valid()
      reads this
    {
      && Shape(index, items)
      && (cache.Some? ==> cache.value == Flat(items))
    }

    constructor ()
      ensures Valid() && items == map[] && fresh(this)
    {
      items, index, cache := map[], [], None;
    }

    method Put(tx: Tx)
      requires Valid()
      modifies this
      ensures Valid() && items == old(items)[tx.nonce := tx]
    {
      NonceOrder();
      if tx.nonce !in items {
        var index' := Heap.Push(index, NonceLess, tx.nonce);
        IndexesWith(index, index', items, tx.nonce, tx);
        index := index';
      } else {
        assert items[tx.nonce := tx].Keys == items.Keys;
      }
      items, cache := items[tx.nonce := tx], None;
    }

    /** Removes the transactions below a threshold, returned in increasing order. */
    method Forward(threshold: nat) returns (removed: seq<Tx>)
      requires Valid()
      modifies this
      ensures Valid() && items == From(old(items), threshold)
      ensures removed + Flat(items) == Flat(old(items))
    {
      items, index, removed := PopBelow(items, index, threshold);
      if cache.Some? {
        assert (removed + Flat(items))[|removed|..] == Flat(items);
        cache := Some(cache.value[|removed|..]);
      }
    }

    /** Removes what the filter selects; the heap is left for the caller to rebuild. */
    method FilterRaw(filter: Tx -> bool) returns (removed: seq<Tx>)
      requires Filed(items)
      modifies `items, `cache
      ensures items == Without(old(items), filter) && Filed(items)
      ensures Lists(removed, Matching(old(items), filter))
      ensures removed == [] ==> items == old(items) && cache == old(cache)
      ensures removed != [] ==> cache == None
    {
      items, removed := SelectOut(items, filter);
      if |removed| > 0 {
        cache := None;
      } else {
        SameSize(items, old(items));
      }
    }

    /** Rebuilds the heap from the keys and drops the cache. */
    method Reheap()
      requires Filed(items)
      modifies `index, `cache
      ensures Valid()
    {
      NonceOrder();
      var nonces: seq<nat> := [];
      var todo := items.Keys;
      while todo != {}
        invariant todo <= items.Keys
        invariant multiset(nonces) + multiset(todo) == multiset(items.Keys)
        decreases todo
      {
        var n :| n in todo;
        assert multiset(todo) == multiset(todo - {n}) + multiset{n};
        nonces, todo := nonces + [n], todo - {n};
      }
      index := Heap.Init(nonces, NonceLess);
      cache := None;
    }

    /** Keeps the transactions of least nonce; the rest is returned from the highest nonce down. */
    method Cap(threshold: nat) returns (drops: seq<Tx>)
      requires Valid()
      modifies this
      ensures Valid() && items == Lowest(old(items), threshold)
      ensures |drops| == |old(items)| - |items| && ReversedTail(drops, Flat(old(items)))
    {
      drops := [];
      if |items| <= threshold {
        return;
      }
      items, index, drops := KeepLowest(items, index, threshold);
      if cache.Some? {
        cache := Some(cache.value[..|cache.value| - |drops|]);
      }
    }

    method Remove(nonce: nat) returns (found: bool)
      requires Valid()
      modifies this
      ensures Valid() && items == old(items) - {nonce}
      ensures found <==> nonce in old(items)
    {
      found := nonce in items;
      if !found {
        assert items - {nonce} == items;
        return;
      }
      NonceOrder();
      IndexFacts(index, items);
      var i := 0;
      while index[i] != nonce
        invariant 0 <= i < |index| && nonce in index[i..]
        decreases |index| - i
      {
        i := i + 1;
      }
      var index', n := Heap.RemoveAt(index, NonceLess, i);
      IndexesWithout(index', items, n);
      items, index, cache := items - {nonce}, index', None;
    }

    /**
     Takes out the run of consecutive nonces from the least one on, provided the least one is not above
     start. The run is maximal.
     */
    method Ready(start: nat) returns (ready: seq<Tx>)
      requires Valid()
      modifies this
      ensures Valid()
      ensures items == AfterRun(old(items), start) && ready + Flat(items) == Flat(old(items))
    {
      ready := [];
      IndexFacts(index, items);
      if |index| > 0 {
        RootIsLeastKey(index, items);
      }
      if |index| == 0 || index[0] > start {
        return;
      }
      items, index, ready := TakeRun(items, index);
      cache := None;
    }

    /** The content in increasing order of nonce, computed once and cached. */
    method Flatten() returns (txs: seq<Tx>)
      requires Valid()
      modifies `cache
      ensures Valid() && txs == Flat(items) && cache == Some(txs)
    {
      if cache.None? {
        IndexFacts(index, items);
        var sorted := SortNonces(index);
        SortedIsNonces(sorted, items);
        txs := Listing(items, sorted);
        cache := Some(txs);
      } else {
        txs := cache.value;
      }
    }

    /** The transaction of the highest nonce; the source indexes out of range on an empty map. */
    method LastElement() returns (tx: Tx)
      requires Valid() && items != map[]
      modifies `cache
      ensures Valid() && IsGreatestKey(items, tx.nonce) && items[tx.nonce] == tx
    {
      var txs := Flatten();
      tx := txs[|txs| - 1];
      FlatInit(items, GreatestKey(items));
    }

    method Filter(filter: Tx -> bool) returns (removed: seq<Tx>)
      requires Valid()
      modifies this
      ensures Valid() && items == Without(old(items), filter)
      ensures Lists(removed, Matching(old(items), filter))
    {
      removed := FilterRaw(filter);
      if |removed| > 0 {
        Reheap();
      }
    }
  }

  lemma SameSize(a: Items, b: Items)
    requires |a| == |b| && (forall n: nat :: n in a ==> n in b && a[n] == b[n])
    ensures a == b
  {
    if a.Keys < b.Keys {
      SubsetSize(a.Keys, b.Keys);
    }
  }

  /** What holds of the map and its heap, whatever the cache. */
  ghost predicate Shape(index: seq<nat>, items: Items) {
    Filed(items) && Indexes(index, items) && Heap.IsHeap(index, NonceLess)
  }

  /** Pops the least nonce off the heap and out of the map. */
  method PopLeast(m: Items, index: seq<nat>) returns (m': Items, index': seq<nat>, tx: Tx)
    requires Shape(index, m) && index != []
    ensures Shape(index', m') && |index'| == |index| - 1
    ensures IsLeastKey(m, index[0]) && tx == m[index[0]] && m' == m - {index[0]}
  {
    NonceOrder();
    RootIsLeastKey(index, m);
    var nonce;
    index', nonce := Heap.Pop(index, NonceLess);
    IndexesWithout(index', m, nonce);
    m', tx := m - {nonce}, m[nonce];
  }

  /** Moving the least transaction from the rest to the end of the front keeps the listing. */
  lemma ListingStep(front: seq<Tx>, m: Items, n: nat)
    requires IsLeastKey(m, n)
    ensures front + Flat(m) == (front + [m[n]]) + Flat(m - {n})
  {
    FlatTail(m, n);
    assert Flat(m) == [m[n]] + Flat(m - {n});
  }

  /** Pops heap items until the threshold is reached. */
  method PopBelow(m: Items, index: seq<nat>, threshold: nat) returns (m': Items, index': seq<nat>, removed: seq<Tx>)
    requires Shape(index, m)
    ensures Shape(index', m') && m' == From(m, threshold) && removed + Flat(m') == Flat(m)
  {
    m', index', removed := m, index, [];
    while index' != [] && index'[0] < threshold
      invariant Shape(index', m')
      invariant removed + Flat(m') == Flat(m)
      invariant From(m', threshold) == From(m, threshold)
      decreases |index'|
    {
      FromWithout(m', index'[0], threshold);
      RootIsLeastKey(index', m');
      ListingStep(removed, m', index'[0]);
      var tx;
      m', index', tx := PopLeast(m', index');
      removed := removed + [tx];
    }
    NothingBelow(index', m', threshold);
  }

  /** Pops consecutive nonces from the least one on. */
  method TakeRun(m: Items, index: seq<nat>) returns (m': Items, index': seq<nat>, ready: seq<Tx>)
    requires Shape(index, m) && index != []
    ensures Shape(index', m') && ready + Flat(m') == Flat(m)
    ensures IsLeastKey(m, index[0]) && m' == From(m, Gap(m, index[0]))
  {
    RootIsLeastKey(index, m);
    m', index', ready := m, index, [];
    var next := index[0];
    RunStarts(m, index[0]);
    while |index'| > 0 && index'[0] == next
      invariant Shape(index', m') && RunTaken(m, index[0], next, m', ready)
      decreases |index'|
    {
      RootIsLeastKey(index', m');
      RunStep(m, index[0], next, m', ready);
      var tx;
      m', index', tx := PopLeast(m', index');
      ready := ready + [tx];
      next := next + 1;
    }
    RunEnds(index', m, index[0], next, m', ready);
  }

  lemma NothingBelow(index: seq<nat>, m: Items, t: nat)
    requires Shape(index, m) && (index == [] || index[0] >= t)
    ensures m == From(m, t)
  {
    IndexFacts(index, m);
    if index != [] {
      RootIsLeastKey(index, m);
    }
  }

  lemma FromWithout(m: Items, n: nat, t: nat)
    requires n < t
    ensures From(m - {n}, t) == From(m, t)
  {
  }

  lemma FromStep(m: Items, n: nat)
    ensures From(m, n) - {n} == From(m, n + 1)
  {
  }

  /** The nonces from least up to next have been taken out, in order. */
  ghost predicate RunTaken(m: Items, least: nat, next: nat, items: Items, ready: seq<Tx>) {
    && IsLeastKey(m, least) && least <= next
    && (forall n: nat :: least <= n < next ==> n in m)
    && items == From(m, next)
    && ready + Flat(items) == Flat(m)
  }

  lemma RunStarts(m: Items, least: nat)
    requires IsLeastKey(m, least)
    ensures RunTaken(m, least, least, m, [])
  {
    assert From(m, least) == m;
    assert [] + Flat(m) == Flat(m);
  }

  lemma RunStep(m: Items, least: nat, next: nat, items: Items, ready: seq<Tx>)
    requires RunTaken(m, least, next, items, ready)
    ensures IsLeastKey(items, next) ==> RunTaken(m, least, next + 1, items - {next}, ready + [items[next]])
  {
    if IsLeastKey(items, next) {
      FromStep(m, next);
      ListingStep(ready, items, next);
    }
  }

  lemma RunEnds(index: seq<nat>, m: Items, least: nat, next: nat, items: Items, ready: seq<Tx>)
    requires Shape(index, items) && RunTaken(m, least, next, items, ready) && (index == [] || index[0] != next)
    ensures Gap(m, least) == next
  {
    IndexFacts(index, items);
    if index != [] {
      RootIsLeastKey(index, items);
    }
    assert next in m <==> next in items;
  }

  predicate Sorted(s: seq<nat>) {
    forall i, j :: 0 <= i < j < |s| ==> s[i] <= s[j]
  }

  /** The nonces of the map in increasing order. */
  ghost function Nonces(m: Items): (s: seq<nat>)
    ensures |s| == |m|
    decreases |m|
  {
    if m == map[] then [] else Nonces(m - {GreatestKey(m)}) + [GreatestKey(m)]
  }

  lemma {:induction false} SortedIsNonces(s: seq<nat>, m: Items)
    requires Indexes(s, m) && Sorted(s)
    ensures s == Nonces(m)
    decreases |s|
  {
    IndexFacts(s, m);
    if s != [] {
      var n := s[|s| - 1];
      LastIsGreatest(s, m);
      assert s == s[..|s| - 1] + [n];
      IndexesWithout(s[..|s| - 1], m, n);
      SortedIsNonces(s[..|s| - 1], m - {n});
    }
  }

  lemma LastIsGreatest(s: seq<nat>, m: Items)
    requires Indexes(s, m) && s != [] && Sorted(s)
    ensures m != map[] && GreatestKey(m) == s[|s| - 1]
  {
    IndexFacts(s, m);
    assert s[|s| - 1] in m;
    assert GreatestKey(m) in s;
  }

  lemma {:induction false} NoncesIndex(m: Items)
    ensures Indexes(Nonces(m), m)
    decreases |m|
  {
    if m != map[] {
      var n := GreatestKey(m);
      NoncesIndex(m - {n});
      IndexesWith(Nonces(m - {n}), Nonces(m), m - {n}, n, m[n]);
      assert (m - {n})[n := m[n]] == m;
    }
  }

  /** The listing reads the transactions off in the order of the nonces. */
  lemma {:induction false} FlatByNonces(m: Items, i: nat)
    requires Filed(m) && i < |m|
    ensures Nonces(m)[i] in m && Flat(m)[i] == m[Nonces(m)[i]]
    decreases |m|
  {
    var n := GreatestKey(m);
    FlatInit(m, n);
    if i < |m| - 1 {
      FlatByNonces(m - {n}, i);
    }
  }

  /** The dropped transactions are the end of the listing, last first. */
  ghost predicate ReversedTail(drops: seq<Tx>, s: seq<Tx>) {
    |drops| <= |s| && forall i :: 0 <= i < |drops| ==> drops[i] == s[|s| - 1 - i]
  }

  /** The highest transactions have been dropped down to the given size. */
  ghost predicate Dropping(m: Items, kept: Items, drops: seq<Tx>) {
    && |kept| <= |m| && |drops| == |m| - |kept| && Filed(kept)
    && Flat(kept) == Flat(m)[..|kept|]
    && ReversedTail(drops, Flat(m))
  }

  lemma DropStarts(m: Items)
    requires Filed(m)
    ensures Dropping(m, m, [])
  {
    assert Flat(m)[..|m|] == Flat(m);
  }

  lemma DropStep(m: Items, kept: Items, drops: seq<Tx>)
    requires Dropping(m, kept, drops) && kept != map[]
    ensures var n := GreatestKey(kept);
            Dropping(m, kept - {n}, drops + [kept[n]]) && |kept - {n}| == |kept| - 1
  {
    var n := GreatestKey(kept);
    FlatInit(kept, n);
    assert (kept - {n}).Keys == kept.Keys - {n};
    assert Flat(m)[..|kept|][..|kept| - 1] == Flat(m)[..|kept| - 1];
    TailStep(drops, Flat(m), kept[n]);
  }

  lemma TailStep(drops: seq<Tx>, s: seq<Tx>, tx: Tx)
    requires ReversedTail(drops, s) && |drops| < |s| && tx == s[|s| - 1 - |drops|]
    ensures ReversedTail(drops + [tx], s)
  {
  }

  lemma NoncesStep(m: Items, s: seq<nat>)
    requires m != map[] && s == Nonces(m)
    ensures s[|s| - 1] == GreatestKey(m) && s[..|s| - 1] == Nonces(m - {GreatestKey(m)})
  {
  }

  /** Drops the highest nonces one by one, walking down the sorted index. */
  method DropHighest(m: Items, sorted: seq<nat>, threshold: nat) returns (kept: Items, drops: seq<Tx>)
    requires Filed(m) && sorted == Nonces(m) && threshold <= |m|
    ensures Dropping(m, kept, drops) && |kept| == threshold && sorted[..threshold] == Nonces(kept)
  {
    kept, drops := m, [];
    DropStarts(m);
    var size := |m|;
    assert sorted[..size] == sorted;
    while size > threshold
      invariant threshold <= size == |kept| <= |m| && sorted[..size] == Nonces(kept)
      invariant Dropping(m, kept, drops)
    {
      DropStep(m, kept, drops);
      NoncesStep(kept, sorted[..size]);
      var n := sorted[size - 1];
      assert sorted[..size][..size - 1] == sorted[..size - 1];
      drops, kept, size := drops + [kept[n]], kept - {n}, size - 1;
    }
  }

  /** Sorts the index, drops the highest nonces and rebuilds the heap. */
  method KeepLowest(m: Items, index: seq<nat>, threshold: nat) returns (kept: Items, index': seq<nat>, drops: seq<Tx>)
    requires Shape(index, m) && threshold <= |m|
    ensures Shape(index', kept) && kept == Lowest(m, threshold) && |drops| == |m| - |kept|
    ensures Flat(kept) == Flat(m)[..|m| - |drops|] && ReversedTail(drops, Flat(m))
  {
    NonceOrder();
    var sorted := SortNonces(index);
    SortedIsNonces(sorted, m);
    kept, drops := DropHighest(m, sorted, threshold);
    NoncesIndex(kept);
    LowestIsPrefix(m, threshold);
    FlatInjective(kept, Lowest(m, threshold));
    index' := Heap.Init(sorted[..threshold], NonceLess);
  }

  /** Reads the transactions off in the order of their sorted nonces. */
  method Listing(m: Items, sorted: seq<nat>) returns (txs: seq<Tx>)
    requires Filed(m) && sorted == Nonces(m)
    ensures txs == Flat(m)
  {
    txs := [];
    var i := 0;
    while i < |sorted|
      invariant 0 <= i <= |sorted| && txs == Flat(m)[..i]
    {
      FlatByNonces(m, i);
      txs := txs + [m[sorted[i]]];
      i := i + 1;
    }
  }
}
