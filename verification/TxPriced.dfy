/**
 core/tx_list.go, txPricedList: a price ordered heap over all pooled transactions that is cleaned lazily.
 It may hold transactions that have left the pool, and a transaction that left and came back twice.
 */
module TxPriced {
  import opened Common
  import opened ChainTree
  import Heap

  const TX_SLOT_SIZE := 32 * 1024

  function NumSlots(tx: Tx): nat {
    (tx.size + TX_SLOT_SIZE - 1) / TX_SLOT_SIZE
  }

  /** As many slots of 32 kilobytes as are needed. */
  lemma SlotsNeeded(tx: Tx)
    ensures tx.size <= NumSlots(tx) * 32768 < tx.size + 32768
  {
  }

  function SlotsOf(txs: seq<Tx>): nat {
    if txs == [] then 0 else SlotsOf(txs[..|txs| - 1]) + NumSlots(txs[|txs| - 1])
  }

  lemma SlotsStep(txs: seq<Tx>, tx: Tx)
    ensures (txs + [tx])[..|txs|] == txs && SlotsOf(txs + [tx]) == SlotsOf(txs) + NumSlots(tx)
  {
    assert (txs + [tx])[..|txs|] == txs;
  }

  ghost function SlotSum(all: set<Tx>): nat {
    if all == {} then 0
    else
      var tx :| tx in all;
      NumSlots(tx) + SlotSum(all - {tx})
  }

  lemma {:induction false} SlotSumRemove(all: set<Tx>, x: Tx)
    requires x in all
    ensures SlotSum(all) == NumSlots(x) + SlotSum(all - {x})
    decreases |all|
  {
    var tx :| tx in all && SlotSum(all) == NumSlots(tx) + SlotSum(all - {tx});
    if tx != x {
      SlotSumRemove(all - {tx}, x);
      SlotSumRemove(all - {x}, tx);
      assert all - {tx} - {x} == all - {x} - {tx};
    }
  }

  /** Every transaction fills at least one slot. */
  lemma {:induction false} SlotSumBound(all: set<Tx>)
    requires forall tx :: tx in all ==> tx.size > 0
    ensures SlotSum(all) >= |all|
    decreases |all|
  {
    if all != {} {
      var x :| x in all;
      SlotSumRemove(all, x);
      SlotSumBound(all - {x});
    }
  }

  /** Cheaper first; of equal prices the higher nonce first. */
  function PriceLess(a: Tx, b: Tx): bool {
    a.price < b.price || (a.price == b.price && a.nonce > b.nonce)
  }

  lemma PriceOrder()
    ensures Heap.StrictWeakOrder(PriceLess)
  {
  }

  ghost predicate Covers(items: seq<Tx>, all: set<Tx>) {
    forall tx :: tx in all ==> tx in items
  }

  function Members(txs: seq<Tx>): set<Tx> {
    set tx | tx in txs
  }

  lemma {:induction false} MembersSize(txs: seq<Tx>)
    ensures |Members(txs)| <= |txs|
  {
    if txs != [] {
      MembersSize(txs[1..]);
      assert Members(txs) == Members(txs[1..]) + {txs[0]};
    } else {
      assert Members(txs) == {};
    }
  }

  /** A covering list is at least as long as the pool is large. */
  lemma CoverSize(items: seq<Tx>, all: set<Tx>)
    requires Covers(items, all)
    ensures |all| <= |items|
  {
    MembersSize(items);
    SubsetSize(all, Members(items));
  }

  /** The stale counter bounds the surplus, so it never falls below zero. */
  ghost predicate Accounts(items: seq<Tx>, stales: int, all: set<Tx>) {
    Covers(items, all) && |items| <= |all| + stales
  }

  lemma StalesNonNegative(items: seq<Tx>, stales: int, all: set<Tx>)
    requires Accounts(items, stales, all)
    ensures stales >= 0
  {
    CoverSize(items, all);
  }

  /** The transactions of remote accounts, in order. */
  function Remotes(txs: seq<Tx>, locals: set<Address>): (r: seq<Tx>)
    ensures forall tx :: tx in r <==> tx in txs && tx.sender !in locals
  {
    if txs == [] then []
    else
      var tx := txs[|txs| - 1];
      assert txs == txs[..|txs| - 1] + [tx];
      Remotes(txs[..|txs| - 1], locals) + if tx.sender in locals then [] else [tx]
  }

  function Locals(txs: seq<Tx>, locals: set<Address>): (r: seq<Tx>)
    ensures |r| + |Remotes(txs, locals)| == |txs|
    ensures forall tx :: tx in r <==> tx in txs && tx.sender in locals
  {
    if txs == [] then []
    else
      var tx := txs[|txs| - 1];
      assert txs == txs[..|txs| - 1] + [tx];
      Locals(txs[..|txs| - 1], locals) + if tx.sender in locals then [tx] else []
  }

  lemma SplitStep(txs: seq<Tx>, locals: set<Address>, tx: Tx)
    ensures tx.sender in locals ==> && Locals(txs + [tx], locals) == Locals(txs, locals) + [tx]
                                    && Remotes(txs + [tx], locals) == Remotes(txs, locals)
    ensures tx.sender !in locals ==> && Locals(txs + [tx], locals) == Locals(txs, locals)
                                     && Remotes(txs + [tx], locals) == Remotes(txs, locals) + [tx]
  {
    assert (txs + [tx])[..|txs|] == txs;
  }

  /** The heap is being emptied: live transactions have come out in price order, stale ones were uncounted. */
  ghost predicate Draining(surplus: int, all: set<Tx>, items: seq<Tx>, stales: int, live: seq<Tx>) {
    && Heap.IsHeap(items, PriceLess)
    && |items| + |live| - stales == surplus
    && (forall tx :: tx in all ==> tx in items || tx in live)
    && (forall tx :: tx in live ==> tx in all)
    && (forall x, y :: x in live && y in items ==> !PriceLess(y, x))
  }

  lemma DrainStep(surplus: int, all: set<Tx>, items: seq<Tx>, stales: int, live: seq<Tx>, h: seq<Tx>, x: Tx)
    requires Draining(surplus, all, items, stales, live) && Heap.IsHeap(h, PriceLess)
    requires multiset(items) == multiset(h) + multiset{x} && |h| == |items| - 1
    requires forall y :: y in items ==> !PriceLess(y, x)
    ensures x in all ==> Draining(surplus, all, h, stales, live + [x])
    ensures x !in all ==> Draining(surplus, all, h, stales - 1, live)
  {
    forall tx
      ensures tx in items <==> tx in h || tx == x
    {
      assert tx in items <==> tx in multiset(items);
    }
  }

  /** Pushes transactions back. */
  method PushAll(items: seq<Tx>, save: seq<Tx>) returns (h: seq<Tx>)
    requires Heap.IsHeap(items, PriceLess)
    ensures Heap.IsHeap(h, PriceLess) && |h| == |items| + |save| && multiset(h) == multiset(items) + multiset(save)
    ensures forall tx :: tx in h <==> tx in items || tx in save
  {
    PriceOrder();
    h := items;
    for i := 0 to |save|
      invariant Heap.IsHeap(h, PriceLess) && |h| == |items| + i && multiset(h) == multiset(items) + multiset(save[..i])
      invariant forall tx :: tx in h <==> tx in items || tx in save[..i]
    {
      var g := Heap.Push(h, PriceLess, save[i]);
      PushedMembers(h, g, save[i]);
      assert save[..i + 1] == save[..i] + [save[i]];
      h := g;
    }
    assert save[..|save|] == save;
  }

  lemma PushedMembers(h: seq<Tx>, g: seq<Tx>, x: Tx)
    requires multiset(g) == multiset(h) + multiset{x}
    ensures |g| == |h| + 1 && forall tx :: tx in g <==> tx in h || tx == x
  {
    assert |multiset(g)| == |g| && |multiset(h)| == |h|;
    forall tx
      ensures tx in g <==> tx in h || tx == x
    {
      assert tx in g <==> tx in multiset(g);
      assert tx in h <==> tx in multiset(h);
    }
  }

  /** Pops stale transactions off the top. */
  method DropStaleHeads(items0: seq<Tx>, stales0: int, all: set<Tx>) returns (items: seq<Tx>, stales: int)
    requires Heap.IsHeap(items0, PriceLess) && Accounts(items0, stales0, all)
    ensures Heap.IsHeap(items, PriceLess) && Accounts(items, stales, all)
    ensures items != [] ==> items[0] in all && forall tx :: tx in all ==> items[0].price <= tx.price
    ensures items == [] ==> all == {}
    ensures |items| <= |items0|
  {
    PriceOrder();
    items, stales := items0, stales0;
    while |items| > 0 && items[0] !in all
      invariant Draining(|items0| - stales0, all, items, stales, []) && |items| <= |items0|
      decreases |items|
    {
      var h, x := Heap.Pop(items, PriceLess);
      DrainStep(|items0| - stales0, all, items, stales, [], h, x);
      items, stales := h, stales - 1;
    }
    if items != [] {
      RootIsCheapest(items);
    }
  }

  lemma RootIsCheapest(items: seq<Tx>)
    requires Heap.IsHeap(items, PriceLess) && items != []
    ensures forall tx :: tx in items ==> items[0].price <= tx.price
  {
    PriceOrder();
    forall tx | tx in items
      ensures items[0].price <= tx.price
    {
      var i :| 0 <= i < |items| && items[i] == tx;
      Heap.RootIsLeast(items, PriceLess, i);
    }
  }

  /** No kept remote transaction is cheaper than a dropped one. */
  ghost predicate CheapestFirst(drop: seq<Tx>, all: set<Tx>, locals: set<Address>) {
    forall d, r :: d in drop && r in all && r.sender !in locals && r !in drop ==> !PriceLess(r, d)
  }

  /**
   Remote transactions are dropped, cheapest first, until the slots counted for them reach the wanted number. A
   transaction that is in the heap twice can be counted twice.
   */
  ghost predicate Discards(drop: seq<Tx>, all: set<Tx>, locals: set<Address>, want: int) {
    && (forall tx :: tx in drop ==> tx in all && tx.sender !in locals)
    && CheapestFirst(drop, all, locals)
    && (SlotsOf(drop) >= want || forall tx :: tx in all ==> tx in drop || tx.sender in locals)
    && (drop == [] || SlotsOf(drop[..|drop| - 1]) < want)
  }

  ghost predicate NoRepeats(txs: seq<Tx>) {
    forall i, j :: 0 <= i < j < |txs| ==> txs[i] != txs[j]
  }

  /** The slots of entries that came before. */
  function RepeatSlots(txs: seq<Tx>): nat {
    if txs == [] then 0
    else
      var tx := txs[|txs| - 1];
      RepeatSlots(txs[..|txs| - 1]) + if tx in txs[..|txs| - 1] then NumSlots(tx) else 0
  }

  /** What dropping frees is what was counted less the repetitions. */
  lemma {:induction false} FreedSlots(txs: seq<Tx>)
    ensures SlotSum(Members(txs)) + RepeatSlots(txs) == SlotsOf(txs)
  {
    if txs == [] {
      assert Members(txs) == {};
    } else {
      var front, tx := txs[..|txs| - 1], txs[|txs| - 1];
      FreedSlots(front);
      assert txs == front + [tx];
      assert Members(txs) == Members(front) + {tx};
      if tx !in front {
        SlotSumRemove(Members(txs), tx);
        assert Members(txs) - {tx} == Members(front);
      } else {
        assert Members(txs) == Members(front);
      }
    }
  }

  lemma {:induction false} RepeatsIff(txs: seq<Tx>)
    requires forall tx :: tx in txs ==> tx.size > 0
    ensures RepeatSlots(txs) == 0 <==> NoRepeats(txs)
  {
    if txs != [] {
      var front, tx := txs[..|txs| - 1], txs[|txs| - 1];
      assert txs == front + [tx];
      RepeatsIff(front);
      if tx in front {
        var i :| 0 <= i < |front| && front[i] == tx;
        assert txs[i] == txs[|txs| - 1];
      }
    }
  }

  /**
   The slots counted are freed exactly if nothing was dropped twice. The wanted slots are freed exactly if the
   repetitions do not exceed the surplus counted.
   */
  lemma FreesWantedIff(drop: seq<Tx>, all: set<Tx>, locals: set<Address>, want: int)
    requires Discards(drop, all, locals, want) && forall tx :: tx in all ==> tx.size > 0
    ensures SlotSum(Members(drop)) == SlotsOf(drop) <==> NoRepeats(drop)
    ensures SlotSum(Members(drop)) >= want <==> RepeatSlots(drop) <= SlotsOf(drop) - want
    ensures NoRepeats(drop) ==>
              SlotSum(Members(drop)) >= want || forall tx :: tx in all ==> tx in drop || tx.sender in locals
  {
    FreedSlots(drop);
    RepeatsIff(drop);
  }

  /** A heap that holds no pooled transaction twice yields no repetitions. */
  lemma SingleEntries(items: seq<Tx>, all: set<Tx>, drop: seq<Tx>)
    requires multiset(drop) <= multiset(items) && (forall tx :: tx in drop ==> tx in all)
    requires forall tx :: tx in all ==> multiset(items)[tx] <= 1
    ensures NoRepeats(drop)
  {
    forall i, j | 0 <= i < j < |drop|
      ensures drop[i] != drop[j]
    {
      CountsTwice(drop, i, j);
    }
  }

  lemma CountsTwice(txs: seq<Tx>, i: nat, j: nat)
    requires i < j < |txs|
    ensures txs[i] == txs[j] ==> multiset(txs)[txs[i]] >= 2
  {
    assert txs == txs[..i] + [txs[i]] + txs[i + 1..j] + [txs[j]] + txs[j + 1..];
  }

  /** How the entries of pooled transactions are divided: some dropped, cheapest remote ones first, the rest kept. */
  ghost predicate Parts(items: seq<Tx>, items': seq<Tx>, drop: seq<Tx>, all: set<Tx>, locals: set<Address>) {
    && (forall tx :: tx in all ==> multiset(items)[tx] == multiset(items')[tx] + multiset(drop)[tx])
    && (forall d, y :: d in drop && y in items' && y in all && y.sender !in locals ==> !PriceLess(y, d))
  }

  lemma PartsBound(items: seq<Tx>, items': seq<Tx>, drop: seq<Tx>, all: set<Tx>, locals: set<Address>)
    requires Parts(items, items', drop, all, locals) && forall tx :: tx in drop ==> tx in all
    ensures multiset(drop) <= multiset(items)
  {
    forall tx | tx in multiset(drop)
      ensures multiset(drop)[tx] <= multiset(items)[tx]
    {
      assert tx in drop;
    }
  }

  /**
   A transaction enters the pool with three others, leaves it and comes back: two slots are wanted then, and it is
   dropped twice and frees one.
   */
  method RepeatedEntryExample() returns (p: PricedList, drop: seq<Tx>)
    ensures SlotsOf(drop) == 2 && SlotSum(Members(drop)) == 1 && !NoRepeats(drop)
  {
    hide SlotsOf, SlotSum, NoRepeats;
    var a, b := Tx(0, 0, 1, 21000, 0, 1, [], false, 0), Tx(1, 0, 2, 21000, 0, 1, [], false, 0);
    var c, d := Tx(2, 0, 2, 21000, 0, 1, [], false, 0), Tx(3, 0, 2, 21000, 0, 1, [], false, 0);
    p, drop := DropTwice(a, b, c, d);
  }

  method DropTwice(a: Tx, b: Tx, c: Tx, d: Tx) returns (p: PricedList, drop: seq<Tx>)
    requires a != b && a != c && a != d && b != c && b != d && c != d
    requires PriceLess(a, b) && PriceLess(a, c) && PriceLess(a, d)
    requires forall tx :: tx in {a, b, c, d} ==> NumSlots(tx) == 1 && tx.size > 0
    ensures SlotsOf(drop) == 2 && SlotSum(Members(drop)) == 1 && !NoRepeats(drop)
  {
    hide Discards, Parts, SlotsOf, SlotSum, NoRepeats, Heap.IsHeap, PriceLess, NumSlots, Members, Accounts, NoneLeft;
    p := FourEntries(a, b, c, d);
    assert {b, c, d} + {a} == {a, b, c, d};
    ComesBack(p, a, {b, c, d});
    ghost var items := p.items;
    assert multiset(items)[a] == 2;
    drop := p.Discard(2, {a, b, c, d}, {});
    CheapTwice(a, b, {a, b, c, d}, items, p.items, drop);
  }

  method FourEntries(a: Tx, b: Tx, c: Tx, d: Tx) returns (p: PricedList)
    requires a != b && a != c && a != d && b != c && b != d && c != d
    ensures fresh(p) && p.Valid({a, b, c, d}) && p.stales == 0 && |p.items| == 4
    ensures multiset(p.items) == multiset{a, b, c, d}
  {
    hide Heap.IsHeap, Accounts;
    p := new PricedList();
    p.Put(a, {}, 0);
    assert {} + {a} == {a};
    p.Put(b, {a}, 0);
    assert {a} + {b} == {a, b};
    p.Put(c, {a, b}, 0);
    assert {a, b} + {c} == {a, b, c};
    p.Put(d, {a, b, c}, 0);
    assert {a, b, c} + {d} == {a, b, c, d};
  }

  /** A transaction that leaves the pool and comes back gets a second entry while under a quarter may be stale. */
  method ComesBack(p: PricedList, a: Tx, rest: set<Tx>)
    requires p.Valid(rest + {a}) && a !in rest && p.stales + 1 <= |p.items| / 4
    modifies p
    ensures p.Valid(rest + {a}) && multiset(p.items) == multiset(old(p.items)) + multiset{a}
    ensures p.stales == old(p.stales) + 1 && |p.items| == |old(p.items)| + 1
  {
    hide Heap.IsHeap, Accounts;
    LeavesOne(p.items, p.stales, rest + {a}, rest, a);
    p.Removed(1, rest, 0);
    p.Put(a, rest, 0);
  }

  lemma LeavesOne(items: seq<Tx>, stales: int, all: set<Tx>, rest: set<Tx>, a: Tx)
    requires Accounts(items, stales, all) && a in all && rest == all - {a}
    ensures Accounts(items, stales + 1, rest)
  {
    assert |all| == |rest| + 1;
  }

  lemma CheapTwice(a: Tx, b: Tx, all: set<Tx>, items: seq<Tx>, items': seq<Tx>, drop: seq<Tx>)
    requires a in all && b in all && a != b && multiset(items)[a] == 2
    requires forall tx :: tx in all ==> NumSlots(tx) == 1 && tx.size > 0 && (tx != a ==> PriceLess(a, tx))
    requires Discards(drop, all, {}, 2) && Parts(items, items', drop, all, {})
    ensures SlotsOf(drop) == 2 && SlotSum(Members(drop)) == 1 && !NoRepeats(drop)
  {
    UnitSlots(drop);
    if drop != [] {
      UnitSlots(drop[..|drop| - 1]);
    }
    forall y | y in drop
      ensures y == a
    {
      if y != a {
        assert a !in items';
        assert multiset(items')[a] == 0;
        TwoCounts(drop, a, y);
      }
    }
    FreesWantedIff(drop, all, {}, 2);
    assert b !in drop;
    assert drop != [];
    assert Members(drop) == {a};
    SlotSumRemove({a}, a);
    assert {a} - {a} == {};
  }

  // Which heaps give repetitions.

  /** The entries of pooled remote transactions that are no dearer than a. */
  function NoDearer(items: seq<Tx>, all: set<Tx>, locals: set<Address>, a: Tx): seq<Tx> {
    if items == [] then []
    else
      var tx := items[|items| - 1];
      NoDearer(items[..|items| - 1], all, locals, a)
      + if tx in all && tx.sender !in locals && !PriceLess(a, tx) then [tx] else []
  }

  lemma {:induction false} NoDearerCounts(items: seq<Tx>, all: set<Tx>, locals: set<Address>, a: Tx, tx: Tx)
    requires tx in all && tx.sender !in locals && !PriceLess(a, tx)
    ensures multiset(NoDearer(items, all, locals, a))[tx] == multiset(items)[tx]
  {
    if items != [] {
      NoDearerCounts(items[..|items| - 1], all, locals, a, tx);
      assert items == items[..|items| - 1] + [items[|items| - 1]];
    }
  }

  lemma {:induction false} SlotsConcat(s: seq<Tx>, t: seq<Tx>)
    ensures SlotsOf(s + t) == SlotsOf(s) + SlotsOf(t)
    decreases |t|
  {
    if t == [] {
      assert s + t == s;
    } else {
      var front, tx := t[..|t| - 1], t[|t| - 1];
      SlotsConcat(s, front);
      SlotsStep(s + front, tx);
      assert s + t == (s + front) + [tx];
    }
  }

  lemma SlotsBetween(p: seq<Tx>, x: Tx, q: seq<Tx>)
    ensures SlotsOf(p + [x] + q) == SlotsOf(p + q) + NumSlots(x)
  {
    SlotsConcat(p + [x], q);
    SlotsStep(p, x);
    SlotsConcat(p, q);
  }

  lemma PartWithout(s: seq<Tx>, x: Tx, p: seq<Tx>, q: seq<Tx>)
    requires multiset(s + [x]) <= multiset(p + [x] + q)
    ensures multiset(s) <= multiset(p + q)
  {
    forall y
      ensures multiset(s)[y] <= multiset(p + q)[y]
    {
      assert multiset(s + [x])[y] <= multiset(p + [x] + q)[y];
    }
  }

  /** A part of the entries fills no more slots than all of them. */
  lemma {:induction false} SlotsPart(s: seq<Tx>, t: seq<Tx>)
    requires multiset(s) <= multiset(t)
    ensures SlotsOf(s) <= SlotsOf(t)
    decreases |s|
  {
    if s != [] {
      var front, x := s[..|s| - 1], s[|s| - 1];
      assert s == front + [x];
      assert x in multiset(s) && x in t;
      var i :| 0 <= i < |t| && t[i] == x;
      var p, q := t[..i], t[i + 1..];
      assert t == p + [x] + q;
      PartWithout(front, x, p, q);
      SlotsPart(front, p + q);
      SlotsBetween(p, x, q);
    }
  }

  /**
   Before the call: if the heap holds a pooled remote transaction twice, and more slots are wanted than the entries no
   dearer than it fill without one of its own, then it is dropped twice.
   */
  lemma DroppedTwice(items: seq<Tx>, items': seq<Tx>, drop: seq<Tx>, all: set<Tx>, locals: set<Address>, want: int,
                     a: Tx)
    requires Discards(drop, all, locals, want) && Parts(items, items', drop, all, locals)
    requires SlotsOf(drop) >= want || NoneLeft(items', all, locals)
    requires a in all && a.sender !in locals && multiset(items)[a] >= 2
    requires want > SlotsOf(NoDearer(items, all, locals, a)) - NumSlots(a)
    ensures multiset(drop)[a] >= 2 && !NoRepeats(drop)
  {
    if multiset(drop)[a] < 2 {
      assert a in multiset(items');
      var low := NoDearer(items, all, locals, a);
      forall tx
        ensures multiset(drop + [a])[tx] <= multiset(low)[tx]
      {
        if tx in drop + [a] {
          assert tx in drop || tx == a;
          NoDearerCounts(items, all, locals, a, tx);
        }
      }
      assert multiset(drop + [a]) <= multiset(low);
      SlotsPart(drop + [a], low);
      SlotsStep(drop, a);
      assert false;
    }
    RepeatSeen(drop, a);
  }

  lemma RepeatSeen(txs: seq<Tx>, a: Tx)
    requires multiset(txs)[a] >= 2
    ensures !NoRepeats(txs)
  {
    assert a in txs;
    var i :| 0 <= i < |txs| && txs[i] == a;
    var rest := txs[..i] + txs[i + 1..];
    assert txs == txs[..i] + [a] + txs[i + 1..];
    assert multiset(rest)[a] >= 1;
    assert a in rest;
    var j :| 0 <= j < |rest| && rest[j] == a;
    var k := if j < i then j else j + 1;
    assert txs[k] == a && k != i;
  }

  /** No entry of a pooled remote transaction is left. */
  ghost predicate NoneLeft(items: seq<Tx>, all: set<Tx>, locals: set<Address>) {
    forall y :: y in items && y in all ==> y.sender in locals
  }

  lemma TwoCounts(s: seq<Tx>, a: Tx, b: Tx)
    requires a != b
    ensures |s| >= multiset(s)[a] + multiset(s)[b]
  {
    var m := multiset(s);
    assert |m| == |s|;
    assert m == m[a := 0][b := 0] + multiset{}[a := m[a]] + multiset{}[b := m[b]];
  }

  lemma {:induction false} UnitSlots(txs: seq<Tx>)
    requires forall tx :: tx in txs ==> NumSlots(tx) == 1
    ensures SlotsOf(txs) == |txs|
  {
    if txs != [] {
      UnitSlots(txs[..|txs| - 1]);
    }
  }

  /** The live transactions so far are split by locality, and slots is what the dropped ones have yet to free. */
  ghost predicate SortedOut(live: seq<Tx>, locals: set<Address>, save: seq<Tx>, drop: seq<Tx>, want: int, slots: int) {
    && save == Locals(live, locals) && drop == Remotes(live, locals)
    && slots == want - SlotsOf(drop)
    && (drop == [] || want > SlotsOf(drop[..|drop| - 1]))
  }

  lemma SortedOutStep(live: seq<Tx>, locals: set<Address>, save: seq<Tx>, drop: seq<Tx>, want: int, slots: int, tx: Tx)
    requires SortedOut(live, locals, save, drop, want, slots) && slots > 0
    ensures tx.sender in locals ==> SortedOut(live + [tx], locals, save + [tx], drop, want, slots)
    ensures tx.sender !in locals ==> SortedOut(live + [tx], locals, save, drop + [tx], want, slots - NumSlots(tx))
  {
    SplitStep(live, locals, tx);
    SlotsStep(drop, tx);
  }

  /** Every entry of a pooled transaction is still in the heap or has come out live. */
  ghost predicate Popped(items0: seq<Tx>, items: seq<Tx>, live: seq<Tx>, all: set<Tx>) {
    forall tx :: tx in all ==> multiset(items0)[tx] == multiset(items)[tx] + multiset(live)[tx]
  }

  lemma PoppedStep(items0: seq<Tx>, items: seq<Tx>, live: seq<Tx>, all: set<Tx>, h: seq<Tx>, x: Tx)
    requires Popped(items0, items, live, all) && multiset(items) == multiset(h) + multiset{x}
    ensures Popped(items0, h, if x in all then live + [x] else live, all)
  {
  }

  /** Pops until the wanted number of slots is freed, sorting out local transactions. */
  method PopSlots(items0: seq<Tx>, stales0: int, all: set<Tx>, locals: set<Address>, want: int)
    returns (items: seq<Tx>, stales: int, save: seq<Tx>, drop: seq<Tx>, ghost live: seq<Tx>)
    requires Heap.IsHeap(items0, PriceLess) && Covers(items0, all)
    ensures Draining(|items0| - stales0, all, items, stales, live)
    ensures save == Locals(live, locals) && drop == Remotes(live, locals)
    ensures SlotsOf(drop) >= want || items == []
    ensures drop == [] || want > SlotsOf(drop[..|drop| - 1])
    ensures Popped(items0, items, live, all) && stales <= stales0
  {
    PriceOrder();
    items, stales, save, drop, live := items0, stales0, [], [], [];
    var slots := want;
    while |items| > 0 && slots > 0
      invariant Draining(|items0| - stales0, all, items, stales, live)
      invariant SortedOut(live, locals, save, drop, want, slots)
      invariant Popped(items0, items, live, all) && stales <= stales0
      decreases |items|
    {
      var h, tx := Heap.Pop(items, PriceLess);
      DrainStep(|items0| - stales0, all, items, stales, live, h, tx);
      PoppedStep(items0, items, live, all, h, tx);
      items := h;
      if tx !in all {
        stales := stales - 1;
        continue;
      }
      SortedOutStep(live, locals, save, drop, want, slots, tx);
      live := live + [tx];
      if tx.sender in locals {
        save := save + [tx];
      } else {
        drop := drop + [tx];
        slots := slots - NumSlots(tx);
      }
    }
  }

  /** Pops everything below a price, sorting out local transactions. */
  method PopBelow(items0: seq<Tx>, stales0: int, all: set<Tx>, locals: set<Address>, threshold: nat)
    returns (items: seq<Tx>, stales: int, save: seq<Tx>, drop: seq<Tx>, ghost live: seq<Tx>)
    requires Heap.IsHeap(items0, PriceLess) && Covers(items0, all)
    ensures Draining(|items0| - stales0, all, items, stales, live)
    ensures |save| + |drop| == |live|
    ensures forall tx :: tx in save <==> tx in live && (tx.sender in locals || tx.price >= threshold)
    ensures forall tx :: tx in drop <==> tx in live && tx.sender !in locals && tx.price < threshold
    ensures forall tx :: tx in items ==> tx.price >= threshold
  {
    PriceOrder();
    items, stales, save, drop, live := items0, stales0, [], [], [];
    while |items| > 0
      invariant Draining(|items0| - stales0, all, items, stales, live)
      invariant |save| + |drop| == |live|
      invariant forall tx :: tx in save <==> tx in live && (tx.sender in locals || tx.price >= threshold)
      invariant forall tx :: tx in drop <==> tx in live && tx.sender !in locals && tx.price < threshold
      decreases |items|
    {
      var h, tx := Heap.Pop(items, PriceLess);
      DrainStep(|items0| - stales0, all, items, stales, live, h, tx);
      items := h;
      if tx !in all {
        stales := stales - 1;
        continue;
      }
      live := live + [tx];
      if tx.price >= threshold {
        save := save + [tx];
        forall y | y in items
          ensures y.price >= threshold
        {
          assert tx in live && !PriceLess(y, tx);
        }
        return;
      }
      if tx.sender in locals {
        save := save + [tx];
      } else {
        drop := drop + [tx];
      }
    }
  }

  /** After the dropped transactions leave the pool the heap accounts for the rest. */
  lemma DropAccounts(all: set<Tx>, items: seq<Tx>, stales: int, h: seq<Tx>, live: seq<Tx>, save: seq<Tx>, drop: seq<Tx>,
                     surplus: int)
    requires surplus <= |all| && Draining(surplus, all, items, stales, live) && |save| + |drop| == |live|
    requires forall tx :: tx in live ==> tx in save || tx in drop
    requires |h| == |items| + |save| && forall tx :: tx in h <==> tx in items || tx in save
    ensures Accounts(h, stales, all - Members(drop))
  {
    MembersSize(drop);
    assert all == (all - Members(drop)) + (all * Members(drop));
    SubsetSize(all * Members(drop), Members(drop));
  }

  function WantedOf(items: seq<Tx>, slots: int, locals: set<Address>): int {
    if locals != {} && slots > |Remotes(items, locals)| then |Remotes(items, locals)| else slots
  }

  class PricedList {
    var items: seq<Tx>
    var stales: int

    /** The heap covers the pool, and the stale counter bounds its surplus but for removals yet to be reported. */
    ghost predicate Owes(all: set<Tx>, unreported: nat)
      reads this
    {
      Heap.IsHeap(items, PriceLess) && Accounts(items, stales + unreported, all)
    }

    ghost predicate Valid(all: set<Tx>)
      reads this
    {
      Owes(all, 0)
    }

    constructor ()
      ensures Valid({}) && items == [] && stales == 0
    {
      items, stales := [], 0;
    }

    /** Records a transaction that has entered the pool. */
    method Put(tx: Tx, ghost all: set<Tx>, ghost unreported: nat)
      requires Owes(all, unreported) && tx !in all
      modifies this
      ensures Owes(all + {tx}, unreported) && stales == old(stales)
              && multiset(items) == multiset(old(items)) + multiset{tx} && |items| == |old(items)| + 1
    {
      PriceOrder();
      var h := Heap.Push(items, PriceLess, tx);
      PushedMembers(items, h, tx);
      items := h;
    }

    /** Told that count transactions have left the pool; rebuilds the heap when over a quarter may be stale. */
    method Removed(count: nat, all: set<Tx>, ghost unreported: nat)
      requires Owes(all, unreported + count)
      modifies this
      ensures Owes(all, unreported) && (unreported == 0 ==> 3 * |items| <= 4 * |all|)
      ensures if old(stales) + count <= |old(items)| / 4 then items == old(items) && stales == old(stales) + count
              else multiset(items) == multiset(all) && stales == 0
      ensures |items| <= |old(items)|
    {
      stales := stales + count;
      if stales <= |items| / 4 {
        return;
      }
      CoverSize(items, all);
      var reheap: seq<Tx> := [];
      var todo := all;
      while todo != {}
        invariant todo <= all && multiset(reheap) + multiset(todo) == multiset(all)
        decreases todo
      {
        var tx :| tx in todo;
        assert multiset(todo) == multiset(todo - {tx}) + multiset{tx};
        reheap, todo := reheap + [tx], todo - {tx};
      }
      PriceOrder();
      stales := 0;
      items := Heap.Init(reheap, PriceLess);
      AllMembers(items, all);
    }

    /** Takes out the remote transactions below a price, for removal from the pool. */
    method Cap(threshold: nat, all: set<Tx>, locals: set<Address>) returns (drop: seq<Tx>)
      requires Valid(all)
      modifies this
      ensures forall tx :: tx in drop <==> tx in all && tx.sender !in locals && tx.price < threshold
      ensures Valid(all - Members(drop))
    {
      var save;
      ghost var live;
      ghost var surplus := |items| - stales;
      items, stales, save, drop, live := PopBelow(items, stales, all, locals, threshold);
      var h := PushAll(items, save);
      DropAccounts(all, items, stales, h, live, save, drop, surplus);
      items := h;
    }

    /** Whether a remote transaction is no dearer than everything in the pool. */
    method Underpriced(tx: Tx, all: set<Tx>, locals: set<Address>) returns (r: bool)
      requires Valid(all)
      modifies this
      ensures Valid(all)
      ensures r <==> tx.sender !in locals && all != {} && forall other :: other in all ==> tx.price <= other.price
      ensures |items| <= |old(items)|
    {
      if tx.sender in locals {
        return false;
      }
      items, stales := DropStaleHeads(items, stales, all);
      if |items| == 0 {
        return false;
      }
      r := items[0].price >= tx.price;
    }

    /** What Discard tries to free: with local accounts present, no more than one slot for each remote entry. */
    function Wanted(slots: int, locals: set<Address>): int
      reads this
    {
      WantedOf(items, slots, locals)
    }

    /**
     Takes out the cheapest remote transactions until the wanted slots are counted, for removal from the pool.
     The source sizes a buffer with the number of entries less the slots, which must not be negative.
     */
    method Discard(slots: nat, all: set<Tx>, locals: set<Address>) returns (drop: seq<Tx>)
      requires Valid(all)
      requires locals == {} ==> slots <= |items|
      modifies this
      ensures Valid(all - Members(drop))
      ensures Discards(drop, all, locals, old(Wanted(slots, locals))) && Parts(old(items), items, drop, all, locals)
      ensures SlotsOf(drop) >= old(Wanted(slots, locals)) || NoneLeft(items, all, locals)
      ensures |items| <= |old(items)|
    {
      var want: int := slots;
      if locals != {} {
        var discardable := CountRemotes(items, locals, slots);
        if want > discardable {
          want := discardable;
        }
      }
      if want == 0 {
        return [];
      }
      items, stales, drop := DropCheapest(items, stales, all, locals, want);
    }
  }

  method DropCheapest(items: seq<Tx>, stales: int, all: set<Tx>, locals: set<Address>, want: int)
    returns (items': seq<Tx>, stales': int, drop: seq<Tx>)
    requires Heap.IsHeap(items, PriceLess) && Accounts(items, stales, all)
    ensures Heap.IsHeap(items', PriceLess) && Accounts(items', stales', all - Members(drop))
    ensures Discards(drop, all, locals, want) && Parts(items, items', drop, all, locals) && |items'| <= |items|
    ensures SlotsOf(drop) >= want || NoneLeft(items', all, locals)
  {
    var left, save;
    ghost var live;
    left, stales', save, drop, live := PopSlots(items, stales, all, locals, want);
    items' := PushAll(left, save);
    DropAccounts(all, left, stales', items', live, save, drop, |items| - stales);
    DrainedDiscards(|items| - stales, all, left, stales', live, locals, drop, want);
    SplitCounts(live, locals);
    DrainedParts(|items| - stales, all, items, left, stales', live, locals, save, drop, items');
  }

  lemma {:induction false} SplitCounts(txs: seq<Tx>, locals: set<Address>)
    ensures multiset(txs) == multiset(Locals(txs, locals)) + multiset(Remotes(txs, locals))
  {
    hide Locals, Remotes;
    if txs == [] {
      SplitNone(locals);
    } else {
      SplitCounts(txs[..|txs| - 1], locals);
      SplitCountsStep(txs[..|txs| - 1], locals, txs[|txs| - 1]);
      assert txs == txs[..|txs| - 1] + [txs[|txs| - 1]];
    }
  }

  lemma SplitNone(locals: set<Address>)
    ensures Locals([], locals) == [] && Remotes([], locals) == []
  {
  }

  lemma SplitCountsStep(txs: seq<Tx>, locals: set<Address>, tx: Tx)
    requires multiset(txs) == multiset(Locals(txs, locals)) + multiset(Remotes(txs, locals))
    ensures multiset(txs + [tx]) == multiset(Locals(txs + [tx], locals)) + multiset(Remotes(txs + [tx], locals))
  {
    hide Locals, Remotes;
    SplitStep(txs, locals, tx);
    AppendCounts(txs, Locals(txs, locals), Remotes(txs, locals), tx);
  }

  lemma AppendCounts(txs: seq<Tx>, a: seq<Tx>, b: seq<Tx>, tx: Tx)
    requires multiset(txs) == multiset(a) + multiset(b)
    ensures multiset(txs + [tx]) == multiset(a + [tx]) + multiset(b) == multiset(a) + multiset(b + [tx])
  {
  }

  lemma DrainedParts(surplus: int, all: set<Tx>, items: seq<Tx>, left: seq<Tx>, stales: int, live: seq<Tx>,
                     locals: set<Address>, save: seq<Tx>, drop: seq<Tx>, h: seq<Tx>)
    requires Draining(surplus, all, left, stales, live) && Popped(items, left, live, all)
    requires save == Locals(live, locals) && drop == Remotes(live, locals)
    requires multiset(live) == multiset(save) + multiset(drop) && multiset(h) == multiset(left) + multiset(save)
    requires forall tx :: tx in h <==> tx in left || tx in save
    ensures Parts(items, h, drop, all, locals)
  {
  }

  lemma DrainedDiscards(surplus: int, all: set<Tx>, items: seq<Tx>, stales: int, live: seq<Tx>, locals: set<Address>,
                        drop: seq<Tx>, want: int)
    requires Draining(surplus, all, items, stales, live) && drop == Remotes(live, locals)
    requires SlotsOf(drop) >= want || items == []
    requires drop == [] || want > SlotsOf(drop[..|drop| - 1])
    ensures Discards(drop, all, locals, want)
  {
  }

  lemma AllMembers(items: seq<Tx>, all: set<Tx>)
    requires multiset(items) == multiset(all)
    ensures Covers(items, all) && |items| == |all|
  {
    forall tx | tx in all
      ensures tx in items
    {
      assert tx in multiset(items);
    }
    assert |multiset(items)| == |items| && |multiset(all)| == |all|;
  }

  /** Counts remote entries, giving up once the limit is reached. */
  method CountRemotes(items: seq<Tx>, locals: set<Address>, limit: nat) returns (n: nat)
    ensures n <= |Remotes(items, locals)| && (n < limit ==> n == |Remotes(items, locals)|)
  {
    n := 0;
    for i := 0 to |items|
      invariant n == |Remotes(items[..i], locals)|
      invariant n < limit || i == 0
    {
      assert items[..i + 1][..i] == items[..i];
      if items[i].sender !in locals {
        n := n + 1;
      }
      if n >= limit {
        RemotesGrow(items, locals, i + 1);
        return;
      }
    }
    assert items[..|items|] == items;
  }

  lemma {:induction false} RemotesGrow(items: seq<Tx>, locals: set<Address>, i: nat)
    requires i <= |items|
    ensures |Remotes(items[..i], locals)| <= |Remotes(items, locals)|
    decreases |items|
  {
    if i == |items| {
      assert items[..i] == items;
    } else {
      RemotesGrow(items[..|items| - 1], locals, i);
      assert items[..|items| - 1][..i] == items[..i];
    }
  }
}
