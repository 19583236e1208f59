/**
 Why transactions leave the pool in the rounds of a run, and what the rounds achieve, in terms of what is pooled.
 */
module PoolLaws {
  import opened Common
  import opened ChainTree
  import opened TxItems
  import opened PoolAccount
  import opened PoolBook
  import opened PoolLevels
  import opened PoolQueueLimit

  /** The state has moved past the transaction. */
  predicate Outdated(w: World, tx: Tx) {
    tx.nonce < NonceOf(w, tx.sender)
  }

  /** The transaction needs more funds than its sender has, or more gas than a block. */
  predicate TooDear(w: World, maxGas: nat, tx: Tx) {
    tx.value + tx.price * tx.gas > BalanceOf(w, tx.sender) || tx.gas > maxGas
  }

  /** Executable as far as state, funds and gas go. */
  predicate Viable(b: Book, tx: Tx) {
    !Outdated(b.world, tx) && !TooDear(b.world, b.maxGas, tx)
  }

  /** At least so many transactions are left of the list, all of lower nonce. */
  ghost predicate LowerLeft(m: Items, tx: Tx, count: nat) {
    |m| >= count && forall n: nat :: n in m ==> n < tx.nonce
  }

  ghost predicate CrowdedOut(b: Book, tx: Tx, accountQueue: nat) {
    tx.sender !in b.locals && LowerLeft(ListOf(b.queue, tx.sender), tx, accountQueue)
  }

  lemma {:induction false} LowestDrops(m: Items, k: nat, n: nat)
    requires n in m && n !in Lowest(m, k)
    ensures |Lowest(m, k)| == k && forall j: nat :: j in Lowest(m, k) ==> j < n
    decreases |m|
  {
    var g := GreatestKey(m);
    if n == g {
      LowestIsPart(m - {g}, k);
      LowestSize(m - {g}, k);
    } else {
      LowestDrops(m - {g}, k, n);
    }
  }

  lemma {:induction false} LowestSize(m: Items, k: nat)
    ensures |Lowest(m, k)| == (if |m| <= k then |m| else k)
    decreases |m|
  {
    if |m| > k {
      LowestSize(m - {GreatestKey(m)}, k);
    }
  }

  lemma FilterIs(b: Book, tx: Tx)
    ensures FilterOf(b, tx.sender)(tx) <==> TooDear(b.world, b.maxGas, tx)
  {
  }

  // Promotion.

  /** A queued transaction leaves only if it is outdated or filtered, or the limit is filled by lower ones. */
  lemma PromoteLoses(x: Account, nonce: nat, f: Tx -> bool, cap: Option<nat>, tx: Tx)
    requires Holds(x.queue, tx)
    ensures var y := Promote(x, nonce, f, cap);
            || Holds(y.pending, tx) || Holds(y.queue, tx) || tx.nonce < nonce || f(tx)
            || (cap.Some? && LowerLeft(y.queue, tx, cap.value))
  {
    hide Lowest, Gap;
    var n := tx.nonce;
    var eligible := Eligible(x, nonce, f);
    var rest := AfterRun(eligible, x.virtual);
    if n >= nonce && !f(tx) {
      assert n in eligible && eligible[n] == tx;
      if n in rest {
        assert rest[n] == tx;
        if cap.Some? {
          LowestIsPart(rest, cap.value);
          if n !in Lowest(rest, cap.value) {
            LowestDrops(rest, cap.value, n);
          }
        }
      } else {
        assert n in Readies(x, nonce, f) && Readies(x, nonce, f)[n] == tx;
      }
    }
  }

  lemma PromoteKeepsPending(x: Account, nonce: nat, f: Tx -> bool, cap: Option<nat>, tx: Tx)
    requires x.pending.Keys !! x.queue.Keys
    ensures Holds(x.pending, tx) ==> Holds(Promote(x, nonce, f, cap).pending, tx)
    ensures var y := Promote(x, nonce, f, cap);
            Holds(y.pending, tx) || Holds(y.queue, tx) ==> Holds(x.pending, tx) || Holds(x.queue, tx)
  {
    PromoteParts(x, nonce, f, cap);
  }

  /** What is left of a promoted queue is current and payable, within the limit, and does not continue the run. */
  lemma PromoteCleans(x: Account, nonce: nat, f: Tx -> bool, cap: Option<nat>)
    ensures var y := Promote(x, nonce, f, cap);
            && (forall n: nat :: n in y.queue ==> n >= nonce && !f(y.queue[n]))
            && (cap.Some? ==> |y.queue| <= cap.value)
            && (Small(Readies(x, nonce, f)) ==> y.virtual !in y.queue)
  {
    hide Lowest;
    var eligible := Eligible(x, nonce, f);
    var rest := AfterRun(eligible, x.virtual);
    if cap.Some? {
      LowestIsPart(rest, cap.value);
      LowestSize(rest, cap.value);
    }
    if Small(Readies(x, nonce, f)) {
      VirtualNotLeft(x, nonce, f, cap);
    }
  }

  lemma VirtualNotLeft(x: Account, nonce: nat, f: Tx -> bool, cap: Option<nat>)
    requires Small(Readies(x, nonce, f))
    ensures Promote(x, nonce, f, cap).virtual !in AfterRun(Eligible(x, nonce, f), x.virtual)
  {
    var eligible := Eligible(x, nonce, f);
    var readies := Readies(x, nonce, f);
    if eligible != map[] && LeastKey(eligible) <= x.virtual {
      var g := Gap(eligible, LeastKey(eligible));
      assert g != LeastKey(eligible);
      assert g - 1 in eligible && g - 1 !in From(eligible, g);
      assert IsGreatestKey(readies, g - 1) && GreatestKey(readies) == g - 1;
    } else {
      assert readies.Keys == {};
    }
  }

  /** Why a transaction may leave in the promotion of some accounts. */
  ghost predicate PromotionExcuse(b: Book, b': Book, accounts: set<Address>, accountQueue: nat, tx: Tx) {
    && tx.sender in accounts
    && (!Viable(b, tx) || CrowdedOut(b', tx, accountQueue))
  }

  /** Nothing enters, pending transactions stay, and what leaves has an excuse. */
  lemma PromotionLaw(b: Book, b': Book, accounts: set<Address>, accountQueue: nat, tx: Tx)
    requires SoundBook(b) && PromotedRound(b, b', accounts, accountQueue)
    ensures SameWorld(b, b')
    ensures Pooled(b', tx) ==> Pooled(b, tx)
    ensures InLists(b.pending, tx) ==> InLists(b'.pending, tx)
    ensures Pooled(b, tx) && !Pooled(b', tx) ==> PromotionExcuse(b, b', accounts, accountQueue, tx)
  {
    var a := tx.sender;
    var x, nonce, f, cap := Get(b, a), NonceOf(b.world, a), FilterOf(b, a), CapOf(b, a, accountQueue);
    assert Sound(a, x) && PromotedAt(b, b', accounts, accountQueue, a);
    FilterIs(b, tx);
    PromoteKeepsPending(x, nonce, f, cap, tx);
    if Holds(x.queue, tx) {
      PromoteLoses(x, nonce, f, cap, tx);
    }
    hide Promote;
    assert Get(b', a) == if a in accounts then Promote(x, nonce, f, cap) else x;
  }

  /** What was queued and is still pooled after its account's promotion is current. */
  lemma PromotionClears(b: Book, b': Book, accounts: set<Address>, accountQueue: nat, tx: Tx)
    requires SoundBook(b) && PromotedRound(b, b', accounts, accountQueue) && tx.sender in accounts
    ensures Pooled(b', tx) ==> InLists(b.pending, tx) || Viable(b, tx)
    ensures InLists(b'.queue, tx) ==> Viable(b, tx)
    ensures Sound(tx.sender, Get(b', tx.sender))
  {
    var a := tx.sender;
    var x, nonce, f, cap := Get(b, a), NonceOf(b.world, a), FilterOf(b, a), CapOf(b, a, accountQueue);
    assert Sound(a, x) && PromotedAt(b, b', accounts, accountQueue, a);
    hide Promote;
    FilterIs(b, tx);
    PromoteClears(x, nonce, f, cap, tx);
    PromoteSound(a, x, nonce, f, cap);
  }

  lemma PromoteClears(x: Account, nonce: nat, f: Tx -> bool, cap: Option<nat>, tx: Tx)
    ensures var y := Promote(x, nonce, f, cap);
            && (Holds(y.pending, tx) ==> Holds(x.pending, tx) || (tx.nonce >= nonce && !f(tx)))
            && (Holds(y.queue, tx) ==> tx.nonce >= nonce && !f(tx))
  {
    hide Lowest, Gap;
    PromoteCleans(x, nonce, f, cap);
    var readies := Readies(x, nonce, f);
    assert Holds(readies, tx) ==> tx.nonce >= nonce && !f(tx);
  }

  lemma PromoteSound(a: Address, x: Account, nonce: nat, f: Tx -> bool, cap: Option<nat>)
    requires Sound(a, x)
    ensures Sound(a, Promote(x, nonce, f, cap))
  {
    hide Lowest, Gap;
    PromoteParts(x, nonce, f, cap);
  }

  /** Promoted queues are within the limit, if remote, and do not continue the pending run. */
  lemma PromotionTidies(b: Book, b': Book, accounts: set<Address>, accountQueue: nat, a: Address)
    requires SoundBook(b) && PromotedRound(b, b', accounts, accountQueue) && a in accounts
    ensures a !in b.locals ==> |ListOf(b'.queue, a)| <= accountQueue
    ensures SmallBook(b) ==> b'.virtual[a] !in ListOf(b'.queue, a)
  {
    hide Promote;
    var x, nonce, f, cap := Get(b, a), NonceOf(b.world, a), FilterOf(b, a), CapOf(b, a, accountQueue);
    assert PromotedAt(b, b', accounts, accountQueue, a);
    if SmallBook(b) {
      SmallReadies(b, a);
    }
    PromoteCleans(x, nonce, f, cap);
  }

  /**
   Promotion adds nothing, leaves pending what is pending, drops nothing without an excuse, and leaves the queues of
   its accounts with current transactions only, within the limit, and with none that continues the pending run.
   */
  ghost predicate PromotionKeeps(b: Book, b': Book, accounts: set<Address>, accountQueue: nat)
    requires Complete(b) && Complete(b')
  {
    && (forall tx :: Pooled(b', tx) ==> Pooled(b, tx))
    && (forall tx :: InLists(b.pending, tx) ==> InLists(b'.pending, tx))
    && (forall tx :: Pooled(b, tx) ==> Pooled(b', tx) || PromotionExcuse(b, b', accounts, accountQueue, tx))
    && (forall tx :: InLists(b'.queue, tx) && tx.sender in accounts ==> Viable(b, tx))
    && (forall a {:trigger ListOf(b'.queue, a)} :: a in accounts && a !in b.locals ==>
          |ListOf(b'.queue, a)| <= accountQueue)
    && (SmallBook(b) ==> forall a :: a in accounts ==> b'.virtual[a] !in ListOf(b'.queue, a))
  }

  lemma PromotionWhole(b: Book, b': Book, accounts: set<Address>, accountQueue: nat)
    requires SoundBook(b) && PromotedRound(b, b', accounts, accountQueue)
    ensures Complete(b) && Complete(b')
  {
  }

  lemma PromotionHolds(b: Book, b': Book, accounts: set<Address>, accountQueue: nat)
    requires SoundBook(b) && PromotedRound(b, b', accounts, accountQueue)
    ensures PromotionKeeps(b, b', accounts, accountQueue)
  {
    hide PromotedRound, Pooled, InLists, PromotionExcuse, Viable, SmallBook, SoundBook, ListOf;
    assert Complete(b) && Complete(b') by { PromotionWhole(b, b', accounts, accountQueue); }
    forall tx
      ensures Pooled(b', tx) ==> Pooled(b, tx)
      ensures InLists(b.pending, tx) ==> InLists(b'.pending, tx)
      ensures Pooled(b, tx) ==> Pooled(b', tx) || PromotionExcuse(b, b', accounts, accountQueue, tx)
      ensures InLists(b'.queue, tx) && tx.sender in accounts ==> Viable(b, tx)
    {
      PromotionLaw(b, b', accounts, accountQueue, tx);
      if tx.sender in accounts {
        PromotionClears(b, b', accounts, accountQueue, tx);
      }
    }
    forall a | a in accounts
      ensures a !in b.locals ==> |ListOf(b'.queue, a)| <= accountQueue
      ensures SmallBook(b) ==> b'.virtual[a] !in ListOf(b'.queue, a)
    {
      PromotionTidies(b, b', accounts, accountQueue, a);
    }
  }

  lemma PromoteKeeps(b: Book, a: Address, accountQueue: nat)
    requires SoundBook(b)
    ensures Complete(PromoteIn(b, a, accountQueue))
    ensures PromotionKeeps(b, PromoteIn(b, a, accountQueue), {a}, accountQueue)
  {
    hide PromoteIn, PromotionKeeps;
    PromotedRoundStarts(b, accountQueue);
    PromotedRoundStep(b, b, {}, accountQueue, a);
    assert {} + {a} == {a};
    PromotionHolds(b, PromoteIn(b, a, accountQueue), {a}, accountQueue);
  }

  // Demotion.

  /** A pending transaction is gone only if outdated or filtered, and queued only behind a filtered one or a gap. */
  lemma DemoteLoses(x: Account, nonce: nat, f: Tx -> bool, tx: Tx)
    requires x.pending.Keys !! x.queue.Keys
    ensures var y := Demote(x, nonce, f);
            && (Holds(x.queue, tx) ==> Holds(y.queue, tx))
            && (Holds(y.pending, tx) ==> Holds(x.pending, tx) && tx.nonce >= nonce && !f(tx))
            && (Holds(y.queue, tx) ==> Holds(x.pending, tx) || Holds(x.queue, tx))
            && (Holds(x.pending, tx) && tx.nonce >= nonce && !f(tx) ==> Holds(y.pending, tx) || Holds(y.queue, tx))
            && (Holds(x.pending, tx) && Holds(y.queue, tx) ==>
                  tx.nonce >= nonce && !f(tx) && Blocked(x.pending, nonce, f, tx.nonce))
  {
    var current := From(x.pending, nonce);
    var kept := Executable(current, f);
    if Holds(x.pending, tx) && tx.nonce >= nonce {
      assert tx.nonce in current && current[tx.nonce] == tx;
      if tx.nonce !in kept {
        var k: nat :| k in current && k <= tx.nonce && f(current[k]);
        assert k in x.pending && nonce <= k <= tx.nonce && f(x.pending[k]);
      } else if kept != map[] && nonce !in kept {
        if nonce in current {
          assert NoneUpTo(current, f, nonce);
        }
      }
    }
  }

  /** The state nonce is not pending, or a filtered transaction is pending below. */
  ghost predicate Blocked(m: Items, nonce: nat, f: Tx -> bool, n: nat) {
    nonce !in m || exists k: nat :: k in m && nonce <= k <= n && f(m[k])
  }

  /** A lower pending transaction that cannot be paid for any more, or none at all at the state nonce. */
  ghost predicate HeldUp(b: Book, tx: Tx) {
    var m := ListOf(b.pending, tx.sender);
    || NonceOf(b.world, tx.sender) !in m
    || exists k: nat :: k in m && NonceOf(b.world, tx.sender) <= k <= tx.nonce && TooDear(b.world, b.maxGas, m[k])
  }

  /** Nothing enters; only outdated or unpayable transactions leave; and what is postponed is held up. */
  lemma DemotionLaw(b: Book, b': Book, tx: Tx)
    requires Complete(b) && DemotedRound(b, b', b.pending.Keys) && Sound(tx.sender, Get(b, tx.sender))
    ensures SameWorld(b, b')
    ensures Pooled(b', tx) ==> Pooled(b, tx)
    ensures InLists(b.pending, tx) && Pooled(b', tx) ==> Viable(b, tx)
    ensures Pooled(b, tx) && !Pooled(b', tx) ==> !Viable(b, tx)
    ensures InLists(b'.pending, tx) ==> InLists(b.pending, tx) && Viable(b, tx)
    ensures InLists(b.queue, tx) ==> InLists(b'.queue, tx)
    ensures InLists(b.pending, tx) && InLists(b'.queue, tx) ==> HeldUp(b, tx)
  {
    hide Demote;
    var a := tx.sender;
    var x, nonce, f := Get(b, a), NonceOf(b.world, a), FilterOf(b, a);
    assert DemotedAt(b, b', b.pending.Keys, a);
    if a !in b.pending {
      DemoteNothing(b, a);
    }
    assert Get(b', a) == Demote(x, nonce, f);
    FilterIs(b, tx);
    DemoteLoses(x, nonce, f, tx);
    if Holds(x.pending, tx) && InLists(b'.queue, tx) && nonce in x.pending {
      var k: nat :| k in x.pending && nonce <= k <= tx.nonce && f(x.pending[k]);
      FilterIs(b, x.pending[k]);
    }
  }

  /** Demotion adds nothing, drops only what is not viable, postpones only what is held up, and leaves no front gap. */
  ghost predicate DemotionKeeps(b: Book, b': Book) {
    && (forall tx :: Pooled(b', tx) ==> Pooled(b, tx))
    && (forall tx :: Pooled(b, tx) && !Pooled(b', tx) ==> InLists(b.pending, tx) && !Viable(b, tx))
    && (forall tx :: InLists(b'.pending, tx) ==> InLists(b.pending, tx) && Viable(b, tx))
    && (forall tx :: InLists(b.pending, tx) && InLists(b'.queue, tx) ==> HeldUp(b, tx))
    && (forall a :: ListOf(b'.pending, a) != map[] ==> NonceOf(b.world, a) in ListOf(b'.pending, a))
  }

  /** What stays pending starts at the state nonce. */
  lemma DemotionFront(b: Book, b': Book, a: Address)
    requires Complete(b) && DemotedRound(b, b', b.pending.Keys)
    ensures ListOf(b'.pending, a) != map[] ==> NonceOf(b.world, a) in ListOf(b'.pending, a)
  {
    assert DemotedAt(b, b', b.pending.Keys, a);
    if a !in b.pending {
      DemoteNothing(b, a);
    }
  }

  lemma DemotionHolds(b: Book, b': Book)
    requires SoundBook(b) && DemotedRound(b, b', b.pending.Keys)
    ensures DemotionKeeps(b, b')
  {
    hide DemotedRound, Viable, HeldUp;
    forall tx
      ensures Pooled(b', tx) ==> Pooled(b, tx)
      ensures Pooled(b, tx) && !Pooled(b', tx) ==> InLists(b.pending, tx) && !Viable(b, tx)
      ensures InLists(b'.pending, tx) ==> InLists(b.pending, tx) && Viable(b, tx)
      ensures InLists(b.pending, tx) && InLists(b'.queue, tx) ==> HeldUp(b, tx)
    {
      assert Sound(tx.sender, Get(b, tx.sender));
      DemotionLaw(b, b', tx);
    }
    forall a
      ensures ListOf(b'.pending, a) != map[] ==> NonceOf(b.world, a) in ListOf(b'.pending, a)
    {
      DemotionFront(b, b', a);
    }
  }

  // The limits.

  /** Cutting to a level takes the highest pending transactions of remote accounts. */
  lemma LevelLaw(b: Book, b': Book, level: nat, tx: Tx)
    requires Complete(b) && level > 0 && Levelled(b, b', level)
    ensures SameWorld(b, b') && Complete(b')
    ensures Pooled(b', tx) ==> Pooled(b, tx)
    ensures Pooled(b, tx) && !Pooled(b', tx) ==>
              InLists(b.pending, tx) && tx.sender !in b.locals && LowerLeft(ListOf(b'.pending, tx.sender), tx, level)
  {
    hide CapAccount, Lowest;
    var a := tx.sender;
    var x := Get(b, a);
    assert LevelAt(b, b', {}, level, a);
    CapFacts(x, level);
    LowestIsPart(x.pending, level);
    if Holds(x.pending, tx) && tx.nonce !in Lowest(x.pending, level) {
      LowestDrops(x.pending, level, tx.nonce);
    }
  }

  lemma CutLaw(b: Book, order: seq<Address>, drop: nat, tx: Tx)
    requires Complete(b) && Distinct(order)
    ensures var b' := b.(queue := CutQueues(b.queue, order, drop));
            && (Pooled(b', tx) ==> Pooled(b, tx))
            && (Pooled(b, tx) && !Pooled(b', tx) ==>
                  InLists(b.queue, tx) && tx.sender in order && LowerLeft(ListOf(b'.queue, tx.sender), tx, 0))
  {
    hide CutQueues, Lowest;
    var a := tx.sender;
    var list := ListOf(b.queue, a);
    CutKeepsLowest(b.queue, order, drop, a);
    var k: nat :| ListOf(CutQueues(b.queue, order, drop), a) == Lowest(list, k);
    LowestIsPart(list, k);
    if Holds(list, tx) && tx.nonce !in Lowest(list, k) {
      LowestDrops(list, k, tx.nonce);
    }
  }
}
