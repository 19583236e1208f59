/**
 One account of the transaction pool: its executable and its queued transactions and its virtual nonce,
 and what the operations of core/tx_pool.go do to them.
 */
module PoolAccount {
  import opened Common
  import opened ChainTree
  import opened TxItems

  datatype Account = Account(pending: Items, queue: Items, virtual: nat)

  /** The account's own transactions, each filed under its nonce. */
  ghost predicate Own(a: Address, m: Items) {
    forall n: nat :: n in m ==> m[n].nonce == n && m[n].sender == a
  }

  ghost predicate Sound(a: Address, x: Account) {
    Own(a, x.pending) && Own(a, x.queue) && x.pending.Keys !! x.queue.Keys
  }

  /** The successor in machine arithmetic. */
  function Next(n: nat): nat {
    Wrap(n + 1)
  }

  function Min(a: nat, b: nat): nat {
    if a < b then a else b
  }

  /** A transaction leaves the pool; the pending ones above it are postponed. */
  function Remove(x: Account, n: nat): Account {
    if n in x.pending then Account(Below(x.pending, n), x.queue + From(x.pending, n + 1), Min(x.virtual, n))
    else Account(x.pending, x.queue - {n}, x.virtual)
  }

  function Enqueue(x: Account, tx: Tx): Account {
    Account(x.pending, x.queue[tx.nonce := tx], x.virtual)
  }

  function Replace(x: Account, tx: Tx): Account {
    Account(x.pending[tx.nonce := tx], x.queue, x.virtual)
  }

  /** What of the queue is neither outdated nor unpayable. */
  function Eligible(x: Account, nonce: nat, f: Tx -> bool): Items {
    Without(From(x.queue, nonce), f)
  }

  function Readies(x: Account, nonce: nat, f: Tx -> bool): Items {
    var eligible := Eligible(x, nonce, f);
    eligible - AfterRun(eligible, x.virtual).Keys
  }

  /** The queue is cleaned, its executable front becomes pending, and the rest is capped unless local. */
  function Promote(x: Account, nonce: nat, f: Tx -> bool, cap: Option<nat>): Account {
    var readies := Readies(x, nonce, f);
    var rest := AfterRun(Eligible(x, nonce, f), x.virtual);
    Account(x.pending + readies,
            if cap.Some? then Lowest(rest, cap.value) else rest,
            if readies == map[] then x.virtual else Next(GreatestKey(readies)))
  }

  /** Outdated and unpayable pending transactions leave the pool; those above a gap go back to the queue. */
  function Demote(x: Account, nonce: nat, f: Tx -> bool): Account {
    var current := From(x.pending, nonce);
    var kept := Executable(current, f);
    var queue := x.queue + Invalidated(current, f);
    if kept != map[] && nonce !in kept then Account(map[], queue + kept, x.virtual)
    else Account(kept, queue, x.virtual)
  }

  /** The pending transaction of the highest nonce leaves the pool. */
  function DropHighest(x: Account): Account {
    if x.pending == map[] then x
    else
      var g := GreatestKey(x.pending);
      Account(x.pending - {g}, x.queue, Min(x.virtual, g))
  }

  /** The virtual nonce is set behind the pending transactions. */
  function Refresh(x: Account): Account {
    if x.pending == map[] then x else Account(x.pending, x.queue, Next(GreatestKey(x.pending)))
  }

  // Every operation keeps the lists apart.

  lemma RemoveSound(a: Address, x: Account, n: nat)
    requires Sound(a, x)
    ensures Sound(a, Remove(x, n))
  {
  }

  lemma PromoteParts(x: Account, nonce: nat, f: Tx -> bool, cap: Option<nat>)
    ensures var y := Promote(x, nonce, f, cap);
            && (forall n: nat :: n in y.queue ==>
                  n in x.queue && y.queue[n] == x.queue[n] && n !in Readies(x, nonce, f))
            && (forall n: nat :: n in Readies(x, nonce, f) ==> n in x.queue && Readies(x, nonce, f)[n] == x.queue[n])
  {
    var rest := AfterRun(Eligible(x, nonce, f), x.virtual);
    if cap.Some? {
      LowestIsPart(rest, cap.value);
    }
  }

  // The nonce intervals.

  /** The list holds exactly the nonces of an interval. */
  ghost predicate Spans(m: Items, lo: nat, hi: nat) {
    forall n: nat :: n in m <==> lo <= n < hi
  }

  ghost predicate AllFrom(m: Items, lo: nat) {
    forall n: nat :: n in m ==> n >= lo
  }

  ghost predicate Passes(m: Items, f: Tx -> bool) {
    forall n: nat :: n in m ==> !f(m[n])
  }

  /** No nonce is the largest machine word, whose successor wraps around. */
  ghost predicate Small(m: Items) {
    forall n: nat :: n in m ==> n + 1 < TWO_64
  }

  /**
   The account at rest: the pending nonces run from the state nonce up to the virtual nonce, all of them
   payable, and the queued ones are not below either.
   */
  ghost predicate Settled(x: Account, nonce: nat, f: Tx -> bool) {
    && Spans(x.pending, nonce, x.virtual)
    && AllFrom(x.queue, x.virtual) && AllFrom(x.queue, nonce)
    && Passes(x.pending, f)
  }

  /** The virtual nonce has not fallen behind the state nonce. */
  predicate Abreast(x: Account, nonce: nat) {
    nonce <= x.virtual
  }

  /** The account while the state has moved on under it. */
  ghost predicate Adrift(x: Account, nonce: nat, f: Tx -> bool, lo: nat, hi: nat) {
    && lo <= nonce && lo <= hi
    && Spans(x.pending, lo, hi) && AllFrom(x.queue, hi)
    && (x.virtual == nonce || x.virtual == hi)
    && (x.virtual > nonce ==> Passes(x.pending, f))
  }

  /** The account after its queue was promoted; top is the end of the run that starts at the state nonce. */
  ghost predicate Lifted(x: Account, nonce: nat, f: Tx -> bool, top: nat) {
    && nonce <= top
    && Spans(From(x.pending, nonce), nonce, top) && AllFrom(x.queue, top)
    && (x.virtual <= nonce || (x.virtual == top && Passes(From(x.pending, nonce), f)))
    && (Abreast(x, nonce) || top == nonce)
  }

  /** The account after outdated and unpayable transactions were dropped. */
  ghost predicate Trimmed(x: Account, nonce: nat, f: Tx -> bool, top: nat) {
    && nonce <= top
    && Spans(x.pending, nonce, top) && AllFrom(x.queue, top) && Passes(x.pending, f)
    && (top == nonce ==> x.virtual <= nonce) && (Abreast(x, nonce) || top == nonce)
  }

  lemma RemoveSettled(x: Account, nonce: nat, f: Tx -> bool, n: nat)
    requires Settled(x, nonce, f)
    ensures Settled(Remove(x, n), nonce, f)
  {
  }

  lemma EnqueueSettled(x: Account, nonce: nat, f: Tx -> bool, tx: Tx)
    requires Settled(x, nonce, f) && tx.nonce >= nonce && tx.nonce !in x.pending
    ensures Settled(Enqueue(x, tx), nonce, f)
  {
  }

  lemma ReplaceSettled(x: Account, nonce: nat, f: Tx -> bool, tx: Tx)
    requires Settled(x, nonce, f) && tx.nonce in x.pending && !f(tx)
    ensures Settled(Replace(x, tx), nonce, f)
  {
  }

  lemma RemoveAdrift(x: Account, nonce: nat, f: Tx -> bool, lo: nat, hi: nat, n: nat)
    requires Adrift(x, nonce, f, lo, hi)
    ensures Adrift(Remove(x, n), nonce, f, lo, if n in x.pending then n else hi)
  {
  }

  lemma EnqueueAdrift(x: Account, nonce: nat, f: Tx -> bool, lo: nat, hi: nat, tx: Tx)
    requires Adrift(x, nonce, f, lo, hi) && tx.nonce >= nonce && tx.nonce !in x.pending
    ensures Adrift(Enqueue(x, tx), nonce, f, lo, hi)
  {
  }

  lemma ReplaceAdrift(x: Account, nonce: nat, f: Tx -> bool, lo: nat, hi: nat, tx: Tx)
    requires Adrift(x, nonce, f, lo, hi) && tx.nonce in x.pending && !f(tx)
    ensures Adrift(Replace(x, tx), nonce, f, lo, hi)
  {
  }

  /** A reset that does not lower the state nonce forgets the virtual nonce. */
  lemma RebaseAdrift(x: Account, nonce: nat, f: Tx -> bool, nonce': nat, f': Tx -> bool)
    requires Settled(x, nonce, f) && nonce <= nonce'
    ensures Adrift(Account(x.pending, x.queue, nonce'), nonce', f', Min(nonce, x.virtual), x.virtual)
  {
  }

  lemma SettledIsAdrift(x: Account, nonce: nat, f: Tx -> bool)
    requires Settled(x, nonce, f)
    ensures Adrift(x, nonce, f, Min(nonce, x.virtual), x.virtual)
  {
  }

  /** The readies are the run of eligible nonces that continues at the virtual nonce. */
  lemma ReadiesRun(x: Account, nonce: nat, f: Tx -> bool) returns (g: nat)
    requires AllFrom(Eligible(x, nonce, f), x.virtual)
    ensures g == Gap(Eligible(x, nonce, f), x.virtual) && Spans(Readies(x, nonce, f), x.virtual, g)
    ensures AllFrom(AfterRun(Eligible(x, nonce, f), x.virtual), g)
  {
    var e := Eligible(x, nonce, f);
    if e == map[] || LeastKey(e) > x.virtual {
      g := x.virtual;
    } else {
      g := Gap(e, x.virtual);
    }
  }

  lemma NothingReady(x: Account, nonce: nat, f: Tx -> bool)
    requires AllFrom(Eligible(x, nonce, f), x.virtual + 1)
    ensures Readies(x, nonce, f) == map[] && AfterRun(Eligible(x, nonce, f), x.virtual) == Eligible(x, nonce, f)
  {
  }

  /** A span of nonces below the machine word limit ends right after its greatest. */
  lemma SpanEnd(m: Items, lo: nat, hi: nat)
    requires Spans(m, lo, hi) && lo < hi && Small(m)
    ensures m != map[] && Next(GreatestKey(m)) == hi
  {
    assert hi - 1 in m;
  }

  lemma PromoteCapped(x: Account, nonce: nat, f: Tx -> bool, cap: Option<nat>, lo: nat)
    requires AllFrom(AfterRun(Eligible(x, nonce, f), x.virtual), lo)
    ensures AllFrom(Promote(x, nonce, f, cap).queue, lo)
  {
    if cap.Some? {
      LowestIsPart(AfterRun(Eligible(x, nonce, f), x.virtual), cap.value);
    }
  }

  /** The run behind the virtual nonce is moved to the pending list, and the virtual nonce behind it. */
  lemma PromoteRun(x: Account, nonce: nat, f: Tx -> bool, cap: Option<nat>) returns (top: nat)
    requires AllFrom(Eligible(x, nonce, f), x.virtual) && Small(Readies(x, nonce, f))
    ensures top == Gap(Eligible(x, nonce, f), x.virtual) && Spans(Readies(x, nonce, f), x.virtual, top)
    ensures Promote(x, nonce, f, cap).virtual == top && AllFrom(Promote(x, nonce, f, cap).queue, top)
  {
    top := ReadiesRun(x, nonce, f);
    PromoteCapped(x, nonce, f, cap, top);
    if top > x.virtual {
      SpanEnd(Readies(x, nonce, f), x.virtual, top);
    } else {
      assert Readies(x, nonce, f).Keys == {};
    }
  }

  lemma PromoteIdle(x: Account, nonce: nat, f: Tx -> bool, cap: Option<nat>, lo: nat)
    requires AllFrom(Eligible(x, nonce, f), lo) && lo > x.virtual
    ensures var y := Promote(x, nonce, f, cap);
            y.pending == x.pending && y.virtual == x.virtual && AllFrom(y.queue, lo)
  {
    NothingReady(x, nonce, f);
    PromoteCapped(x, nonce, f, cap, lo);
  }

  lemma IdleLifts(x: Account, y: Account, nonce: nat, f: Tx -> bool, lo: nat, hi: nat, top: nat)
    requires Adrift(x, nonce, f, lo, hi) && (x.virtual < nonce || x.virtual < hi)
    requires top == if hi > nonce then hi else nonce
    requires y.pending == x.pending && y.virtual == x.virtual && AllFrom(y.queue, top)
    ensures Lifted(y, nonce, f, top)
  {
  }

  lemma RunLifts(x: Account, y: Account, nonce: nat, f: Tx -> bool, lo: nat, hi: nat, readies: Items, top: nat)
    requires Adrift(x, nonce, f, lo, hi) && x.virtual >= nonce && x.virtual >= hi
    requires x.virtual <= top && Spans(readies, x.virtual, top) && Passes(readies, f)
    requires y.pending == x.pending + readies && y.virtual == top && AllFrom(y.queue, top)
    ensures Lifted(y, nonce, f, top)
  {
  }

  lemma PromoteLifts(x: Account, nonce: nat, f: Tx -> bool, cap: Option<nat>, lo: nat, hi: nat) returns (top: nat)
    requires Adrift(x, nonce, f, lo, hi) && Small(Readies(x, nonce, f))
    ensures Lifted(Promote(x, nonce, f, cap), nonce, f, top)
  {
    if x.virtual < nonce || x.virtual < hi {
      top := if hi > nonce then hi else nonce;
      PromoteIdle(x, nonce, f, cap, top);
      IdleLifts(x, Promote(x, nonce, f, cap), nonce, f, lo, hi, top);
    } else {
      top := PromoteRun(x, nonce, f, cap);
      RunLifts(x, Promote(x, nonce, f, cap), nonce, f, lo, hi, Readies(x, nonce, f), top);
    }
  }

  lemma RunSettles(x: Account, y: Account, nonce: nat, f: Tx -> bool, readies: Items, top: nat)
    requires Settled(x, nonce, f) && x.virtual >= nonce
    requires x.virtual <= top && Spans(readies, x.virtual, top) && Passes(readies, f)
    requires y.pending == x.pending + readies && y.virtual == top && AllFrom(y.queue, top)
    ensures Settled(y, nonce, f)
  {
  }

  lemma PromoteSettled(x: Account, nonce: nat, f: Tx -> bool, cap: Option<nat>)
    requires Settled(x, nonce, f) && Small(Readies(x, nonce, f))
    ensures Settled(Promote(x, nonce, f, cap), nonce, f)
  {
    if x.virtual < nonce {
      PromoteIdle(x, nonce, f, cap, nonce);
    } else {
      var top := PromoteRun(x, nonce, f, cap);
      RunSettles(x, Promote(x, nonce, f, cap), nonce, f, Readies(x, nonce, f), top);
    }
  }

  lemma DemoteTrims(x: Account, nonce: nat, f: Tx -> bool, top: nat) returns (cut: nat)
    requires Lifted(x, nonce, f, top)
    ensures Trimmed(Demote(x, nonce, f), nonce, f, cut)
  {
    var current := From(x.pending, nonce);
    cut := ExecutableIsRun(current, f, nonce, top);
    assert cut > nonce ==> nonce in Executable(current, f);
    assert cut == nonce ==> Executable(current, f).Keys == {};
  }

  lemma SettledIsTrimmed(x: Account, nonce: nat, f: Tx -> bool) returns (top: nat)
    requires Settled(x, nonce, f)
    ensures Trimmed(x, nonce, f, top)
  {
    top := if x.virtual < nonce then nonce else x.virtual;
  }

  lemma DropTrimmed(x: Account, nonce: nat, f: Tx -> bool, top: nat)
    requires Trimmed(x, nonce, f, top) && top > nonce + 1
    ensures Trimmed(DropHighest(x), nonce, f, top - 1)
  {
    assert top - 1 in x.pending;
  }

  lemma RefreshSettles(x: Account, nonce: nat, f: Tx -> bool, top: nat)
    requires Trimmed(x, nonce, f, top) && Small(x.pending)
    ensures Settled(Refresh(x), nonce, f)
  {
    if top > nonce {
      SpanEnd(x.pending, nonce, top);
    } else {
      assert x.pending.Keys == {};
    }
  }

  ghost predicate SmallAccount(x: Account) {
    Small(x.pending) && Small(x.queue)
  }

  lemma PromoteSmall(x: Account, nonce: nat, f: Tx -> bool, cap: Option<nat>)
    requires SmallAccount(x)
    ensures SmallAccount(Promote(x, nonce, f, cap)) && Small(Readies(x, nonce, f))
  {
    PromoteParts(x, nonce, f, cap);
  }

  lemma DemoteSmall(x: Account, nonce: nat, f: Tx -> bool)
    requires SmallAccount(x)
    ensures SmallAccount(Demote(x, nonce, f))
  {
  }

  // Where the virtual nonce falls behind the state nonce.

  /**
   No stale nonce, one below the state nonce, becomes pending; and the account stays abreast of the state
   exactly if it was and no stale nonce leaves its pending list.
   */
  ghost predicate Steady(x: Account, y: Account, nonce: nat) {
    && (forall n: nat :: n < nonce && n in y.pending ==> n in x.pending)
    && (Abreast(y, nonce) <==> Abreast(x, nonce) && KeepsStale(x, y, nonce))
  }

  ghost predicate KeepsStale(x: Account, y: Account, nonce: nat) {
    forall n: nat :: n < nonce && n in x.pending ==> n in y.pending
  }

  lemma SteadyThrough(x: Account, y: Account, z: Account, nonce: nat)
    requires Steady(x, y, nonce) && Steady(y, z, nonce)
    ensures Steady(x, z, nonce)
  {
  }

  lemma RemoveSteady(x: Account, nonce: nat, n: nat)
    ensures Steady(x, Remove(x, n), nonce)
  {
  }

  lemma InsertSteady(x: Account, nonce: nat, tx: Tx)
    ensures Steady(x, Enqueue(x, tx), nonce) && (tx.nonce in x.pending ==> Steady(x, Replace(x, tx), nonce))
  {
  }

  /** Promotion moves an account neither behind the state nor back abreast of it. */
  lemma PromoteAbreast(x: Account, nonce: nat, f: Tx -> bool, cap: Option<nat>)
    requires Small(Readies(x, nonce, f))
    ensures Abreast(Promote(x, nonce, f, cap), nonce) <==> Abreast(x, nonce)
  {
    hide AfterRun, Gap, Lowest;
    var readies := Readies(x, nonce, f);
    if !Abreast(x, nonce) {
      NothingReady(x, nonce, f);
    } else if readies != map[] {
      assert GreatestKey(readies) in readies;
    }
  }

  lemma RefreshAbreast(x: Account, nonce: nat, f: Tx -> bool, top: nat)
    requires Trimmed(x, nonce, f, top) && Small(x.pending)
    ensures Abreast(Refresh(x), nonce) <==> Abreast(x, nonce)
  {
    if top > nonce {
      SpanEnd(x.pending, nonce, top);
    } else {
      assert x.pending.Keys == {};
    }
  }

  /**
   A reset that lowers no nonce: the account of x, rebased to its new state nonce, has become y when the run starts.
   It comes to rest abreast of the state exactly if no stale nonce has left its pending list until then.
   */
  lemma RestsAbreastIff(x: Account, y: Account, nonce: nat, f: Tx -> bool, cap: Option<nat>, lo: nat, hi: nat)
    requires x.virtual == nonce && Steady(x, y, nonce) && Adrift(y, nonce, f, lo, hi)
    requires SmallAccount(y)
    ensures var z := Refresh(Demote(Promote(y, nonce, f, cap), nonce, f));
            Settled(z, nonce, f) && (Abreast(z, nonce) <==> KeepsStale(x, y, nonce))
  {
    hide Adrift, Lifted, Trimmed, Settled, Promote, Refresh, Readies, KeepsStale, Small;
    var p := Promote(y, nonce, f, cap);
    PromoteSmall(y, nonce, f, cap);
    DemoteSmall(p, nonce, f);
    PromoteAbreast(y, nonce, f, cap);
    var top := PromoteLifts(y, nonce, f, cap, lo, hi);
    var cut := DemoteTrims(p, nonce, f, top);
    RefreshSettles(Demote(p, nonce, f), nonce, f, cut);
    RefreshAbreast(Demote(p, nonce, f), nonce, f, cut);
  }

  /** An account behind the state promotes nothing: payable transactions stay in its queue. */
  lemma BehindStaysQueued(y: Account, nonce: nat, f: Tx -> bool, n: nat)
    requires !Abreast(y, nonce) && n in y.queue && n >= nonce && !f(y.queue[n]) && From(y.pending, nonce) == map[]
    ensures var z := Refresh(Demote(Promote(y, nonce, f, None), nonce, f));
            z.pending == map[] && z.virtual == y.virtual && n in z.queue
  {
    NothingReady(y, nonce, f);
    var p := Promote(y, nonce, f, None);
    assert p.pending == y.pending && n in p.queue && p.virtual == y.virtual;
  }

  /**
   Whenever the state passes a pending nonce and that transaction is then dropped, the account falls behind: the
   virtual nonce stays at the dropped nonce and a payable transaction that arrives stays in the queue.
   */
  lemma FallsBehind(x: Account, nonce: nat, f: Tx -> bool, n: nat, nonce': nat, f': Tx -> bool, tx: Tx)
    requires Settled(x, nonce, f) && SmallAccount(x) && n in x.pending && n < nonce'
    requires tx.nonce >= nonce' && tx.nonce !in x.pending && tx.nonce + 1 < TWO_64 && !f'(tx)
    ensures var y := Enqueue(Remove(Account(x.pending, x.queue, nonce'), n), tx);
            var z := Refresh(Demote(Promote(y, nonce', f', None), nonce', f'));
            && Settled(z, nonce', f') && !Abreast(z, nonce')
            && z.pending == map[] && z.virtual == n && tx.nonce in z.queue
  {
    hide Promote, Demote, Refresh, Readies, Eligible, Passes;
    var base := Account(x.pending, x.queue, nonce');
    RebaseAdrift(x, nonce, f, nonce', f');
    RemoveAdrift(base, nonce', f', nonce, x.virtual, n);
    EnqueueAdrift(Remove(base, n), nonce', f', nonce, n, tx);
    var y := Enqueue(Remove(base, n), tx);
    assert From(y.pending, nonce') == map[];
    BehindStaysQueued(y, nonce', f', tx.nonce);
    RemoveSteady(base, nonce', n);
    InsertSteady(Remove(base, n), nonce', tx);
    SteadyThrough(base, Remove(base, n), y, nonce');
    RestsAbreastIff(base, y, nonce', f', None, nonce, n);
  }

  function Plain(nonce: nat): Tx {
    Tx(0, nonce, 1, 21000, 0, 1, [], false, 0)
  }

  /**
   An account falls behind: nonces 3 and 4 are pending when the state moves to 5, 3 is dropped to make room, and 5
   arrives. The run leaves 5 in the queue with the virtual nonce at 3.
   */
  lemma FallenBehindExample() returns (x: Account, y: Account, z: Account)
    ensures Settled(x, 3, tx => false) && x.pending.Keys == {3, 4}
    ensures y == Enqueue(Remove(Account(x.pending, x.queue, 5), 3), Plain(5))
    ensures z == Refresh(Demote(Promote(y, 5, tx => false, None), 5, tx => false))
    ensures Settled(z, 5, tx => false) && z.virtual == 3 && z.pending == map[] && 5 in z.queue
  {
    hide Promote, Demote, Refresh, Enqueue, Remove;
    var f: Tx -> bool := tx => false;
    x := Account(map[3 := Plain(3), 4 := Plain(4)], map[], 5);
    y := Enqueue(Remove(Account(x.pending, x.queue, 5), 3), Plain(5));
    z := Refresh(Demote(Promote(y, 5, f, None), 5, f));
    FallsBehind(x, 3, f, 3, 5, f, Plain(5));
  }

  // Where the interval property fails.

  /** Promotion keeps an account settled exactly when it promotes no transaction of the largest nonce. */
  lemma PromoteSettledIff(x: Account, nonce: nat, f: Tx -> bool, cap: Option<nat>)
    requires Settled(x, nonce, f) && forall n: nat :: n in x.queue ==> n < TWO_64
    ensures Settled(Promote(x, nonce, f, cap), nonce, f) <==> TWO_64 - 1 !in Readies(x, nonce, f)
  {
    if TWO_64 - 1 !in Readies(x, nonce, f) {
      PromoteSettled(x, nonce, f, cap);
    } else {
      assert GreatestKey(Readies(x, nonce, f)) == TWO_64 - 1;
      assert Promote(x, nonce, f, cap).virtual == 0;
      assert TWO_64 - 1 in Promote(x, nonce, f, cap).pending;
    }
  }

  /** The largest nonce is promoted and the virtual nonce wraps around to 0. */
  lemma LargestNonceExample() returns (x: Account, y: Account)
    ensures Settled(x, TWO_64 - 1, tx => false) && y == Promote(x, TWO_64 - 1, tx => false, None)
    ensures y.virtual == 0 && TWO_64 - 1 in y.pending && !Settled(y, TWO_64 - 1, tx => false)
  {
    var f: Tx -> bool := tx => false;
    var n: nat := TWO_64 - 1;
    x := Account(map[], map[n := Plain(n)], n);
    y := Promote(x, n, f, None);
    assert n in Eligible(x, n, f);
    var g := ReadiesRun(x, n, f);
    assert n in Readies(x, n, f);
    PromoteSettledIff(x, n, f, None);
    assert GreatestKey(Readies(x, n, f)) == n;
  }

  /** The account of a reset to a lower state nonce: the old pending run lies above it. */
  ghost predicate Lowered(x: Account, nonce: nat, lo: nat, hi: nat) {
    && nonce <= lo < hi && Spans(x.pending, lo, hi)
    && x.virtual == nonce && AllFrom(x.queue, nonce) && x.pending.Keys !! x.queue.Keys
  }

  /** Some transactions are ready, but they do not reach the old pending run, which is payable. */
  predicate LeavesGap(x: Account, nonce: nat, f: Tx -> bool, lo: nat)
    requires lo in x.pending
  {
    nonce < Gap(Eligible(x, nonce, f), nonce) < lo && !f(x.pending[lo])
  }

  /** The account after demotion when a gap stays: a run from the state nonce to top, and more from lo on. */
  ghost predicate Gapped(z: Account, nonce: nat, f: Tx -> bool, top: nat, lo: nat) {
    && nonce < top < lo && lo in z.pending && (forall n: nat :: n < lo ==> (n in z.pending <==> nonce <= n < top))
    && AllFrom(z.queue, top) && Passes(z.pending, f) && Abreast(z, nonce)
  }

  lemma LoweredReadies(x: Account, nonce: nat, f: Tx -> bool, cap: Option<nat>, lo: nat, hi: nat) returns (top: nat)
    requires Lowered(x, nonce, lo, hi) && SmallAccount(x)
    ensures top == Gap(Eligible(x, nonce, f), nonce) && nonce <= top <= lo
    ensures Spans(Readies(x, nonce, f), nonce, top) && Passes(Readies(x, nonce, f), f)
    ensures Promote(x, nonce, f, cap).virtual == top && AllFrom(Promote(x, nonce, f, cap).queue, top)
  {
    PromoteSmall(x, nonce, f, cap);
    top := PromoteRun(x, nonce, f, cap);
    assert lo !in Eligible(x, nonce, f);
  }

  lemma GapStays(x: Account, y: Account, nonce: nat, f: Tx -> bool, lo: nat, hi: nat, readies: Items, top: nat)
    requires Lowered(x, nonce, lo, hi) && nonce < top < lo && !f(x.pending[lo])
    requires Spans(readies, nonce, top) && Passes(readies, f) && y.pending == x.pending + readies && y.virtual == top
    requires AllFrom(y.queue, top)
    ensures Gapped(Demote(y, nonce, f), nonce, f, top, lo)
  {
    var kept := Executable(From(y.pending, nonce), f);
    assert nonce in kept && lo in kept && top !in kept;
  }

  lemma GapCloses(x: Account, y: Account, nonce: nat, f: Tx -> bool, lo: nat, hi: nat, readies: Items, top: nat)
    returns (cut: nat)
    requires Lowered(x, nonce, lo, hi) && nonce <= top <= lo && !(nonce < top < lo && !f(x.pending[lo]))
    requires Spans(readies, nonce, top) && Passes(readies, f) && y.pending == x.pending + readies && y.virtual == top
    requires AllFrom(y.queue, top) && y.queue.Keys !! x.pending.Keys
    ensures Trimmed(Demote(y, nonce, f), nonce, f, cut)
  {
    var current := From(y.pending, nonce);
    if top == lo {
      cut := ExecutableIsRun(current, f, nonce, hi);
      assert cut == nonce ==> top == nonce;
      KeptTrimmed(y, nonce, f, cut);
    } else if nonce < top {
      cut := top;
      CutAtGap(current, f, nonce, top, lo);
      KeptTrimmed(y, nonce, f, top);
    } else {
      cut := nonce;
      assert nonce !in Executable(current, f);
      assert Demote(y, nonce, f).pending == map[];
    }
  }

  lemma CutAtGap(m: Items, f: Tx -> bool, nonce: nat, top: nat, lo: nat)
    requires AllFrom(m, nonce) && (forall n: nat :: n < lo ==> (n in m <==> nonce <= n < top)) && top <= lo
    requires forall n: nat :: nonce <= n < top ==> !f(m[n])
    requires lo in m && f(m[lo])
    ensures Spans(Executable(m, f), nonce, top) && AllFrom(Invalidated(m, f), top)
  {
    forall n: nat | n in m
      ensures NoneUpTo(m, f, n) <==> n < lo
    {
    }
  }

  lemma KeptTrimmed(y: Account, nonce: nat, f: Tx -> bool, cut: nat)
    requires nonce <= cut && Spans(Executable(From(y.pending, nonce), f), nonce, cut) && Abreast(y, nonce)
    requires AllFrom(y.queue, cut) && AllFrom(Invalidated(From(y.pending, nonce), f), cut)
    requires cut == nonce ==> y.virtual <= nonce
    ensures Trimmed(Demote(y, nonce, f), nonce, f, cut)
  {
    var kept := Executable(From(y.pending, nonce), f);
    assert cut > nonce ==> nonce in kept;
    assert cut == nonce ==> kept.Keys == {};
  }

  lemma PromotedKeys(x: Account, nonce: nat, f: Tx -> bool, cap: Option<nat>)
    requires x.pending.Keys !! x.queue.Keys
    ensures var y := Promote(x, nonce, f, cap);
            y.pending == x.pending + Readies(x, nonce, f) && y.queue.Keys !! x.pending.Keys
  {
    PromoteParts(x, nonce, f, cap);
  }

  /** What demotion leaves of such an account: a run with a gap above it, or a payable run from the state nonce on. */
  lemma LoweredDemotes(x: Account, nonce: nat, f: Tx -> bool, cap: Option<nat>, lo: nat, hi: nat) returns (cut: nat)
    requires Lowered(x, nonce, lo, hi) && SmallAccount(x)
    ensures var z := Demote(Promote(x, nonce, f, cap), nonce, f);
            if LeavesGap(x, nonce, f, lo) then Gapped(z, nonce, f, Gap(Eligible(x, nonce, f), nonce), lo)
            else Trimmed(z, nonce, f, cut)
  {
    hide Trimmed, Gapped, Demote, Promote, Readies, Eligible, Gap, SmallAccount, Passes;
    cut := 0;
    var top := LoweredReadies(x, nonce, f, cap, lo, hi);
    var y := Promote(x, nonce, f, cap);
    PromotedKeys(x, nonce, f, cap);
    if LeavesGap(x, nonce, f, lo) {
      GapStays(x, y, nonce, f, lo, hi, Readies(x, nonce, f), top);
    } else {
      cut := GapCloses(x, y, nonce, f, lo, hi, Readies(x, nonce, f), top);
    }
  }

  lemma GappedUnsettled(z: Account, nonce: nat, f: Tx -> bool, top: nat, lo: nat)
    requires Gapped(z, nonce, f, top, lo)
    ensures !Settled(Refresh(z), nonce, f)
  {
    assert lo in Refresh(z).pending && top !in Refresh(z).pending;
  }

  // A reset to a lower nonce reaches exactly such accounts.

  lemma RebaseLowers(x: Account, nonce: nat, f: Tx -> bool, nonce': nat)
    requires Settled(x, nonce, f) && nonce' <= nonce
    ensures var y := Account(x.pending, x.queue, nonce');
            if x.pending != map[] then Lowered(y, nonce', nonce, x.virtual) else Vacant(y, nonce')
  {
    if x.pending != map[] {
      var n :| n in x.pending;
    }
  }

  lemma InsertLowered(x: Account, nonce: nat, lo: nat, hi: nat, tx: Tx)
    requires Lowered(x, nonce, lo, hi) && tx.nonce >= nonce
    ensures Lowered(if tx.nonce in x.pending then Replace(x, tx) else Enqueue(x, tx), nonce, lo, hi)
  {
  }

  lemma RemoveLowered(x: Account, nonce: nat, lo: nat, hi: nat, n: nat)
    requires Lowered(x, nonce, lo, hi)
    ensures if n == lo then Vacant(Remove(x, n), nonce)
            else Lowered(Remove(x, n), nonce, lo, if n in x.pending then n else hi)
  {
    if n == lo {
      assert Below(x.pending, n).Keys == {};
    }
  }

  /** Nothing is pending, so the run settles the account whatever arrives. */
  ghost predicate Vacant(x: Account, nonce: nat) {
    x.pending == map[] && x.virtual == nonce && AllFrom(x.queue, nonce)
  }

  lemma VacantDrifts(x: Account, nonce: nat, f: Tx -> bool)
    requires Vacant(x, nonce)
    ensures Adrift(x, nonce, f, nonce, nonce)
  {
  }

  lemma VacantSettles(x: Account, nonce: nat, f: Tx -> bool, cap: Option<nat>)
    requires Vacant(x, nonce) && Small(x.queue)
    ensures Settled(Refresh(Demote(Promote(x, nonce, f, cap), nonce, f)), nonce, f)
  {
    VacantDrifts(x, nonce, f);
    RestsAbreastIff(x, x, nonce, f, cap, nonce, nonce);
  }

  /**
   After a reset to a lower nonce, and if the pending lists need not be cut, the account settles exactly when promotion
   leaves no gap inside its list.
   */
  lemma LoweredSettlesIff(x: Account, nonce: nat, f: Tx -> bool, cap: Option<nat>, lo: nat, hi: nat)
    requires Lowered(x, nonce, lo, hi) && SmallAccount(x)
    ensures Settled(Refresh(Demote(Promote(x, nonce, f, cap), nonce, f)), nonce, f) <==> !LeavesGap(x, nonce, f, lo)
  {
    hide Trimmed, Gapped, Demote, Promote, Settled, Refresh;
    var z := Demote(Promote(x, nonce, f, cap), nonce, f);
    var cut := LoweredDemotes(x, nonce, f, cap, lo, hi);
    PromoteSmall(x, nonce, f, cap);
    DemoteSmall(Promote(x, nonce, f, cap), nonce, f);
    if LeavesGap(x, nonce, f, lo) {
      GappedUnsettled(z, nonce, f, Gap(Eligible(x, nonce, f), nonce), lo);
    } else {
      RefreshSettles(z, nonce, f, cut);
    }
  }

  /** Nonce 2 is pending when the state is set back to 0, and nonce 0 arrives: the run leaves a gap at 1. */
  lemma LoweredGapExample() returns (x: Account, y: Account)
    ensures Settled(x, 2, tx => false) && y == Enqueue(Account(x.pending, x.queue, 0), Plain(0))
    ensures Lowered(y, 0, 2, 3) && LeavesGap(y, 0, tx => false, 2)
    ensures !Settled(Refresh(Demote(Promote(y, 0, tx => false, None), 0, tx => false)), 0, tx => false)
  {
    var f: Tx -> bool := tx => false;
    x := Account(map[2 := Plain(2)], map[], 3);
    y := Enqueue(Account(x.pending, x.queue, 0), Plain(0));
    RebaseLowers(x, 2, f, 0);
    InsertLowered(Account(x.pending, x.queue, 0), 0, 2, 3, Plain(0));
    assert 0 in Eligible(y, 0, f) && 1 !in Eligible(y, 0, f);
    assert Gap(Eligible(y, 0, f), 0) == 1;
    LoweredSettlesIff(y, 0, f, None, 2, 3);
  }
}
