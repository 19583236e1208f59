/** The limit on all queues together (core/tx_pool.go, truncateQueue). */
module PoolQueueLimit {
  import opened Common
  import opened TxItems
  import opened PoolAccount
  import opened PoolBook
  import opened PoolLevels

  /**
   The queues after some transactions were dropped, account by account from the end of the order: whole queues
   as long as they are covered by the excess, then the highest nonces of one more.
   */
  function CutQueues(queue: Lists, order: seq<Address>, drop: nat): Lists {
    if drop == 0 || order == [] then queue
    else
      var a := order[|order| - 1];
      var list := ListOf(queue, a);
      if |list| <= drop then CutQueues(SetList(queue, a, map[]), order[..|order| - 1], drop - |list|)
      else SetList(queue, a, Lowest(list, |list| - drop))
  }

  predicate Distinct(order: seq<Address>) {
    forall i, j :: 0 <= i < j < |order| ==> order[i] != order[j]
  }

  /** How many transactions the accounts of the order have queued. */
  ghost function CountIn(queue: Lists, order: seq<Address>): nat {
    if order == [] then 0 else CountIn(queue, order[..|order| - 1]) + |ListOf(queue, order[|order| - 1])|
  }

  lemma {:induction false} CountInOther(queue: Lists, order: seq<Address>, a: Address, l: Items)
    requires a !in order
    ensures CountIn(SetList(queue, a, l), order) == CountIn(queue, order)
  {
    if order != [] {
      assert order[|order| - 1] in order;
      CountInOther(queue, order[..|order| - 1], a, l);
    }
  }

  lemma CountShrinks(m: Lists, a: Address, l: Items)
    requires |l| <= |ListOf(m, a)|
    ensures Count(SetList(m, a, l)) == Count(m) - |ListOf(m, a)| + |l|
  {
    if a !in m {
      assert l == map[];
      assert SetList(m, a, l) == m;
    } else if l == map[] {
      SumRemove(m.Keys, SizeOf(m), a);
      SumSame(m.Keys - {a}, SizeOf(m), SizeOf(m - {a}));
      assert (m - {a}).Keys == m.Keys - {a};
    } else {
      CountSet(m, a, l);
    }
  }

  lemma InitDistinct(order: seq<Address>)
    requires Distinct(order) && order != []
    ensures Distinct(order[..|order| - 1]) && order[|order| - 1] !in order[..|order| - 1]
  {
  }

  /** Exactly the excess is dropped, or all that the accounts of the order have if that is less. */
  lemma {:induction false} CutTotal(queue: Lists, order: seq<Address>, drop: nat)
    requires Distinct(order)
    ensures Count(CutQueues(queue, order, drop)) == Count(queue) - Min(drop, CountIn(queue, order))
    decreases |order|
  {
    hide Count, Lowest, Distinct, SetList, CutQueues, CountIn;
    CutUnfold(queue, order, drop);
    if drop != 0 && order != [] {
      var a := order[|order| - 1];
      var list := ListOf(queue, a);
      InitDistinct(order);
      if |list| <= drop {
        CountShrinks(queue, a, map[]);
        CountInOther(queue, order[..|order| - 1], a, map[]);
        CutTotal(SetList(queue, a, map[]), order[..|order| - 1], drop - |list|);
      } else {
        LowestSize(list, |list| - drop);
        CountShrinks(queue, a, Lowest(list, |list| - drop));
      }
    }
  }

  lemma CutUnfold(queue: Lists, order: seq<Address>, drop: nat)
    ensures drop == 0 || order == [] ==> CutQueues(queue, order, drop) == queue
    ensures order == [] ==> CountIn(queue, order) == 0
    ensures order != [] ==>
              var a := order[|order| - 1];
              var list := ListOf(queue, a);
              && CountIn(queue, order) == CountIn(queue, order[..|order| - 1]) + |list|
              && (0 != drop >= |list| ==> CutQueues(queue, order, drop) ==
                                          CutQueues(SetList(queue, a, map[]), order[..|order| - 1], drop - |list|))
              && (drop != 0 && drop < |list| ==>
                  CutQueues(queue, order, drop) == SetList(queue, a, Lowest(list, |list| - drop)))
  {
    hide Lowest, SetList;
  }

  /** Every queue keeps its lowest nonces, and accounts outside the order keep all. */
  lemma {:induction false} CutKeepsLowest(queue: Lists, order: seq<Address>, drop: nat, a: Address)
    requires Distinct(order)
    ensures exists k: nat :: ListOf(CutQueues(queue, order, drop), a) == Lowest(ListOf(queue, a), k)
    ensures a !in order ==> ListOf(CutQueues(queue, order, drop), a) == ListOf(queue, a)
    decreases |order|
  {
    hide Lowest, Distinct, CutQueues;
    var list := ListOf(queue, a);
    LowestEnds(list);
    CutUnfold(queue, order, drop);
    if drop == 0 || order == [] {
      assert ListOf(CutQueues(queue, order, drop), a) == Lowest(list, |list|);
    } else {
      var last, init := order[|order| - 1], order[..|order| - 1];
      InitDistinct(order);
      assert a in order <==> a == last || a in init by { assert order == init + [last]; }
      if |ListOf(queue, last)| <= drop {
        CutKeepsLowest(SetList(queue, last, map[]), init, drop - |ListOf(queue, last)|, a);
        if a == last {
          assert ListOf(CutQueues(queue, order, drop), a) == Lowest(list, 0);
        }
      } else if a == last {
        assert ListOf(CutQueues(queue, order, drop), a) == Lowest(list, |list| - drop);
      } else {
        assert ListOf(CutQueues(queue, order, drop), a) == Lowest(list, |list|);
      }
    }
  }

  /** An account loses something only when all those behind it in the order have lost everything. */
  lemma {:induction false} CutInOrder(queue: Lists, order: seq<Address>, drop: nat, i: nat, j: nat)
    requires Distinct(order) && i < j < |order|
    ensures Keeps(queue, CutQueues(queue, order, drop), order[i]) || Loses(CutQueues(queue, order, drop), order[j])
    decreases |order|
  {
    hide Lowest, Distinct, CutQueues, Keeps, Loses;
    CutUnfold(queue, order, drop);
    var last, init := order[|order| - 1], order[..|order| - 1];
    InitDistinct(order);
    assert order[i] == init[i] && order[i] in init;
    if drop == 0 {
      KeepsSame(queue, order[i]);
    } else if |ListOf(queue, last)| > drop {
      KeepsOther(queue, last, Lowest(ListOf(queue, last), |ListOf(queue, last)| - drop), order[i]);
    } else {
      var next := SetList(queue, last, map[]);
      var rest := drop - |ListOf(queue, last)|;
      if j == |init| {
        CutKeepsLowest(next, init, rest, last);
        LosesAll(queue, CutQueues(next, init, rest), last);
      } else {
        CutInOrder(next, init, rest, i, j);
        KeepsThrough(queue, CutQueues(next, init, rest), last, order[i]);
      }
    }
  }

  ghost predicate Keeps(queue: Lists, queue': Lists, a: Address) {
    ListOf(queue', a) == ListOf(queue, a)
  }

  ghost predicate Loses(queue': Lists, a: Address) {
    ListOf(queue', a) == map[]
  }

  lemma KeepsSame(queue: Lists, a: Address)
    ensures Keeps(queue, queue, a)
  {
  }

  lemma KeepsOther(queue: Lists, last: Address, l: Items, a: Address)
    requires a != last
    ensures Keeps(queue, SetList(queue, last, l), a)
  {
  }

  lemma KeepsThrough(queue: Lists, queue': Lists, last: Address, a: Address)
    requires a != last
    ensures Keeps(SetList(queue, last, map[]), queue', a) ==> Keeps(queue, queue', a)
  {
  }

  lemma LosesAll(queue: Lists, queue': Lists, last: Address)
    ensures ListOf(queue', last) == ListOf(SetList(queue, last, map[]), last) ==> Loses(queue', last)
  {
  }

  /** Rewriting one queue leaves the accounts before it where they are. */
  lemma CutOne(queue: Lists, queue': Lists, a: Address, rest: seq<Address>)
    requires a !in rest && (forall c :: c in rest ==> c in queue) && exists l: Items :: queue' == SetList(queue, a, l)
    ensures forall c :: c in rest ==> c in queue'
  {
  }

  /** Cutting queues only removes. */
  lemma CutPart(queue: Lists, order: seq<Address>, drop: nat, a: Address)
    requires Distinct(order)
    ensures forall n: nat :: n in ListOf(CutQueues(queue, order, drop), a) ==> n in ListOf(queue, a)
  {
    CutKeepsLowest(queue, order, drop, a);
    var k: nat :| ListOf(CutQueues(queue, order, drop), a) == Lowest(ListOf(queue, a), k);
    LowestIsPart(ListOf(queue, a), k);
  }

  lemma CutKeeps(b: Book, order: seq<Address>, drop: nat)
    requires Complete(b) && Distinct(order)
    ensures var c := b.(queue := CutQueues(b.queue, order, drop));
            && (TrimmedBook(b) ==> TrimmedBook(c))
            && (SmallBook(b) ==> SmallBook(c))
            && SameStanding(b, c)
  {
    hide CutQueues, Lowest;
    var c := b.(queue := CutQueues(b.queue, order, drop));
    forall a: Address
      ensures TrimmedBook(b) ==> IsTrimmed(Get(c, a), NonceOf(c.world, a), FilterOf(c, a))
      ensures SmallBook(b) ==> SmallAccount(Get(c, a))
      ensures AbreastIn(c, a) <==> AbreastIn(b, a)
    {
      CutPart(b.queue, order, drop, a);
      if TrimmedBook(b) {
        var top := BookTrimmed(b, a);
        assert Trimmed(Get(c, a), NonceOf(b.world, a), FilterOf(b, a), top);
      }
      if SmallBook(b) {
        assert Small(Get(b, a).pending) && Small(Get(b, a).queue);
      }
    }
  }
}
