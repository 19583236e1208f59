/**
 core/tx_pool.go: the transaction pool. The lists of an account are nonce to transaction maps; the price
 heap, the lookup and the virtual nonces are kept beside them.
 */
module TxPool {
  import opened Common
  import opened ChainTree
  import opened TxItems
  import opened TxPriced
  import opened PoolAccount
  import opened PoolBook
  import opened TxLookup
  import opened PoolLevels
  import opened PoolQueueLimit
  import opened PoolLaws
  import opened PoolReset
  import Transition

  const TX_MAX_SIZE := 4 * TX_SLOT_SIZE

  /** The sanitised limits of the pool. */
  datatype Config = Config(accountSlots: nat, globalSlots: nat, accountQueue: nat, globalQueue: nat, priceBump: nat)

  predicate Sanitised(c: Config) {
    c.accountSlots >= 1 && c.globalSlots >= 1 && c.accountQueue >= 1 && c.globalQueue >= 1 && c.priceBump >= 1
  }

  datatype PoolError = AlreadyKnown | OversizedData | NegativeValue | GasLimit | Underpriced | NonceTooLow
    | InsufficientFunds
    | GasUintOverflow | IntrinsicGas | ReplaceUnderpriced

  /** Aborted: the source panics on the size of a scratch buffer. */
  datatype AddResult = Added(replaced: bool) | Rejected(error: PoolError) | Aborted

  /** The first check that a transaction fails, if any. */
  function Validate(tx: Tx, world: World, maxGas: nat, gasPrice: nat, istanbul: bool): Option<PoolError> {
    var intrinsic := Transition.ExactIntrinsicGas(tx.data, tx.creation, true, istanbul);
    if tx.size > TX_MAX_SIZE then Some(OversizedData)
    else if tx.value < 0 then Some(NegativeValue)
    else if maxGas < tx.gas then Some(GasLimit)
    else if tx.price < gasPrice then Some(Underpriced)
    else if NonceOf(world, tx.sender) > tx.nonce then Some(NonceTooLow)
    else if BalanceOf(world, tx.sender) < Cost(tx) then Some(InsufficientFunds)
    else if intrinsic > Transition.MAX_UINT64 as int then Some(GasUintOverflow)
    else if tx.gas < intrinsic then Some(IntrinsicGas)
    else None
  }

  /** What every transaction must satisfy to enter the pool. */
  lemma ValidIff(tx: Tx, b: Book, gasPrice: nat, istanbul: bool)
    ensures Validate(tx, b.world, b.maxGas, gasPrice, istanbul).None? <==>
              && Viable(b, tx) && tx.size <= 131072 && tx.value >= 0 && tx.price >= gasPrice
              && var intrinsic := Transition.ExactIntrinsicGas(tx.data, tx.creation, true, istanbul);
                 intrinsic <= tx.gas && intrinsic <= 0xFFFF_FFFF_FFFF_FFFF
  {
  }

  datatype Rules = Rules(config: Config, gasPrice: nat, istanbul: bool)

  /** The lists and the lookup at one moment. */
  datatype Snap = Snap(book: Book, all: set<Tx>)

  predicate Full(all: set<Tx>, config: Config) {
    |all| >= config.globalSlots + config.globalQueue
  }

  /** The transaction came from a remote account and is no dearer than anything in the pool. */
  ghost predicate TooCheap(s: Snap, tx: Tx, local: bool) {
    !local && tx.sender !in s.book.locals && forall other :: other in s.all ==> tx.price <= other.price
  }

  /** The checks that may refuse a transaction before the pool changes. */
  ghost function Refusal(s: Snap, rules: Rules, tx: Tx, local: bool): Option<PoolError> {
    var invalid := Validate(tx, s.book.world, s.book.maxGas, rules.gasPrice, rules.istanbul);
    if tx in s.all then Some(AlreadyKnown)
    else if invalid.Some? then invalid
    else if Full(s.all, rules.config) && TooCheap(s, tx, local) then Some(Underpriced)
    else None
  }

  /** The slots a full pool would have to free for a transaction. */
  ghost function Excess(all: set<Tx>, config: Config, tx: Tx): int {
    SlotSum(all) - (config.globalSlots + config.globalQueue) + NumSlots(tx)
  }

  /**
   A full pool drops its cheapest remote transactions; otherwise nothing is dropped. The entries are those of the
   price heap: with local accounts present, no more slots are wanted than it has entries of remote ones.
   */
  ghost predicate RoomMade(s: Snap, config: Config, tx: Tx, drop: seq<Tx>, entries: seq<Tx>) {
    if !Full(s.all, config) then drop == []
    else
      && Covers(entries, s.all) && multiset(drop) <= multiset(entries)
      && Discards(drop, s.all, s.book.locals, WantedOf(entries, Excess(s.all, config, tx), s.book.locals))
  }

  /**
   The source sizes a scratch buffer with the heap entries less the slots to free, and panics if that is negative. With
   local accounts present it never is.
   */
  ghost predicate Aborts(s: Snap, config: Config, tx: Tx, entries: seq<Tx>) {
    Full(s.all, config) && s.book.locals == {} && Excess(s.all, config, tx) > |entries|
  }

  /** Unless an entry was dropped twice, there is room then, or no remote transaction or entry is left to count. */
  lemma RoomFits(s: Snap, config: Config, tx: Tx, drop: seq<Tx>, entries: seq<Tx>)
    requires Full(s.all, config) && RoomMade(s, config, tx, drop, entries) && NoRepeats(drop)
    requires forall t :: t in s.all ==> t.size > 0
    ensures var rest := s.all - Members(drop);
            || SlotSum(rest) + NumSlots(tx) <= config.globalSlots + config.globalQueue
            || (forall t :: t in rest ==> t.sender in s.book.locals)
            || (s.book.locals != {} && SlotSum(Members(drop)) >= |Remotes(entries, s.book.locals)|)
  {
    var want := WantedOf(entries, Excess(s.all, config, tx), s.book.locals);
    FreesWantedIff(drop, s.all, s.book.locals, want);
    SlotSumSplit(s.all, Members(drop));
  }

  lemma {:induction false} SlotSumSplit(all: set<Tx>, part: set<Tx>)
    requires part <= all
    ensures SlotSum(all) == SlotSum(part) + SlotSum(all - part)
    decreases |part|
  {
    if part == {} {
      assert all - part == all;
    } else {
      var x :| x in part;
      SlotSumRemove(all, x);
      SlotSumRemove(part, x);
      SlotSumSplit(all - {x}, part - {x});
      assert (all - {x}) - (part - {x}) == all - part;
    }
  }

  /** Everything that can come of adding one transaction. */
  ghost predicate AddStep(s: Snap, s': Snap, rules: Rules, tx: Tx, local: bool, r: AddResult)
    requires Complete(s.book)
  {
    var refusal := Refusal(s, rules, tx, local);
    if refusal.Some? then r == Rejected(refusal.value) && s' == s
    else exists drop: seq<Tx>, entries: seq<Tx> :: AddOutcome(s, s', rules, tx, local, r, drop, entries)
  }

  /** A transaction that passes the checks is added, or refused for its price, unless the pool aborts. */
  ghost predicate AddOutcome(s: Snap, s': Snap, rules: Rules, tx: Tx, local: bool, r: AddResult, drop: seq<Tx>,
                             entries: seq<Tx>)
    requires Complete(s.book)
  {
    && Covers(entries, s.all) && (r.Aborted? <==> Aborts(s, rules.config, tx, entries))
    && if r.Aborted? then s' == s
       else
         && RoomMade(s, rules.config, tx, drop, entries)
         && AddEffect(s.book, s'.book, drop, tx, local, rules.config.priceBump, r)
  }

  /** What an addition does once there is room: the transaction replaces one of its nonce, queues, or is refused. */
  ghost predicate AddEffect(b: Book, b': Book, drop: seq<Tx>, tx: Tx, local: bool, priceBump: nat, r: AddResult)
    requires Complete(b)
  {
    var c := RemoveAll(b, drop);
    var list := TargetOf(c, tx);
    var queued := tx.nonce !in ListOf(c.pending, tx.sender);
    if Accepts(list, tx, priceBump) then
      && r == Added(tx.nonce in list)
      && b' == Insert(c, tx).(locals := if local && queued then c.locals + {tx.sender} else c.locals)
    else r == Rejected(ReplaceUnderpriced) && b' == c
  }

  /** The cheaper goes first, and of equal prices the higher nonce. */
  predicate GoesBefore(d: Tx, tx: Tx) {
    d.price < tx.price || (d.price == tx.price && d.nonce >= tx.nonce)
  }

  /**
   An addition brings in at most its transaction, which is then viable and not below the price limit; only a full pool
   drops others, the cheapest remote ones; and beyond that only one that is outbid leaves.
   */
  ghost predicate AddKeeps(s: Snap, s': Snap, rules: Rules, tx: Tx, r: AddResult, drop: seq<Tx>) {
    && (r.Added? ==> Pooled(s'.book, tx) && !Pooled(s.book, tx) && Viable(s.book, tx) && tx.price >= rules.gasPrice)
    && (forall t :: Pooled(s'.book, t) ==> Pooled(s.book, t) || (r.Added? && t == tx))
    && (forall t :: Pooled(s.book, t) ==>
          Pooled(s'.book, t) || t in drop || (r.Added? && Outbids(tx, t, rules.config.priceBump)))
    && (drop != [] ==> |s.all| >= rules.config.globalSlots + rules.config.globalQueue)
    && (forall d :: d in drop ==> Pooled(s.book, d) && !Pooled(s'.book, d) && d.sender !in s.book.locals)
    && (forall d, t :: d in drop && Pooled(s'.book, t) && t != tx && t.sender !in s.book.locals ==> GoesBefore(d, t))
  }

  lemma AddLaw(s: Snap, s': Snap, rules: Rules, tx: Tx, local: bool, r: AddResult, drop: seq<Tx>, entries: seq<Tx>)
    requires Coherent(s) && Refusal(s, rules, tx, local).None? && !r.Aborted?
    requires RoomMade(s, rules.config, tx, drop, entries)
    requires AddEffect(s.book, s'.book, drop, tx, local, rules.config.priceBump, r)
    ensures AddKeeps(s, s', rules, tx, r, drop)
  {
    hide PoolBook.Insert, RemoveAll, SoundBook, Pooled, Viable, AddEffect, RoomMade, Coherent, GoesBefore, Outbids;
    AdmitsViable(s, rules, tx, local);
    DropsCheapest(s, rules.config, tx, drop, entries);
    PooledIsAll(s);
    forall t
      ensures Pooled(s'.book, t) ==> (Pooled(s.book, t) && t !in drop) || (r.Added? && t == tx)
      ensures Pooled(s.book, t) && t !in drop ==>
                Pooled(s'.book, t) || (r.Added? && Outbids(tx, t, rules.config.priceBump))
    {
      AddPools(s, s', rules.config.priceBump, tx, local, r, drop, t);
    }
    AddPools(s, s', rules.config.priceBump, tx, local, r, drop, tx);
  }

  lemma AdmitsViable(s: Snap, rules: Rules, tx: Tx, local: bool)
    requires Refusal(s, rules, tx, local).None?
    ensures tx !in s.all && Viable(s.book, tx) && tx.price >= rules.gasPrice
  {
    ValidIff(tx, s.book, rules.gasPrice, rules.istanbul);
  }

  /** What is dropped is pooled and remote, and goes before all that stays and is remote. */
  lemma DropsCheapest(s: Snap, config: Config, tx: Tx, drop: seq<Tx>, entries: seq<Tx>)
    requires RoomMade(s, config, tx, drop, entries)
    ensures drop != [] ==> |s.all| >= config.globalSlots + config.globalQueue
    ensures forall d :: d in drop ==> d in s.all && d.sender !in s.book.locals
    ensures forall d, t :: d in drop && t in s.all && t !in drop && t.sender !in s.book.locals ==> GoesBefore(d, t)
  {
  }

  /** What becomes of one transaction. */
  lemma AddPools(s: Snap, s': Snap, priceBump: nat, tx: Tx, local: bool, r: AddResult, drop: seq<Tx>, t: Tx)
    requires Coherent(s) && AddEffect(s.book, s'.book, drop, tx, local, priceBump, r)
    ensures r.Added? ==> Pooled(s'.book, tx)
    ensures Pooled(s'.book, t) ==> (Pooled(s.book, t) && t !in drop) || (r.Added? && t == tx)
    ensures Pooled(s.book, t) && t !in drop ==> Pooled(s'.book, t) || (r.Added? && Outbids(tx, t, priceBump))
  {
    hide PoolBook.Insert, RemoveAll, Pooled, Outbids, Accepts, Agrees;
    var b, c := s.book, RemoveAll(s.book, drop);
    RemoveAllKeeps(b, drop);
    RemoveAllPooled(b, drop, t);
    TargetAccepts(c, tx, priceBump, t);
    InsertPooled(c, tx, t);
    InsertPooled(c, tx, tx);
    PooledLocals(PoolBook.Insert(c, tx), s'.book.locals, t);
    PooledLocals(PoolBook.Insert(c, tx), s'.book.locals, tx);
  }

  lemma NothingAdded(s: Snap, rules: Rules, tx: Tx)
    ensures forall r: AddResult :: !r.Added? ==> AddKeeps(s, s, rules, tx, r, [])
  {
  }

  lemma PooledIsAll(s: Snap)
    requires Coherent(s)
    ensures forall t :: t in s.all <==> Pooled(s.book, t)
  {
  }

  lemma PooledLocals(b: Book, locals: set<Address>, t: Tx)
    ensures Pooled(b.(locals := locals), t) <==> Pooled(b, t)
  {
  }

  lemma InsertPooled(b: Book, tx: Tx, t: Tx)
    requires SoundBook(b)
    ensures Pooled(Insert(b, tx), t) <==> t == tx || (Pooled(b, t) && !(t.sender == tx.sender && t.nonce == tx.nonce))
  {
    assert Sound(tx.sender, Get(b, tx.sender));
    if tx.nonce in ListOf(b.pending, tx.sender) {
      InsertPending(b, tx);
    } else {
      InsertQueued(b, tx);
    }
  }

  lemma TargetAccepts(b: Book, tx: Tx, priceBump: nat, t: Tx)
    requires SoundBook(b)
    ensures Accepts(TargetOf(b, tx), tx, priceBump) && Pooled(b, t) && t.sender == tx.sender && t.nonce == tx.nonce ==>
              Outbids(tx, t, priceBump)
  {
    assert Sound(tx.sender, Get(b, tx.sender));
    AcceptsIff(TargetOf(b, tx), tx, priceBump);
  }

  /** Without local accounts, and unless an entry is dropped twice, additions never fill the pool beyond its limit. */
  lemma AddCapacity(s: Snap, s': Snap, rules: Rules, tx: Tx, r: AddResult, drop: seq<Tx>, entries: seq<Tx>)
    requires Coherent(s) && Coherent(s') && Sanitised(rules.config) && s.book.locals == {} && NoRepeats(drop)
    requires RoomMade(s, rules.config, tx, drop, entries) && AddKeeps(s, s', rules, tx, r, drop)
    requires tx.size > 0 && forall t :: t in s.all ==> t.size > 0
    ensures r.Added? ==> |s'.all| <= rules.config.globalSlots + rules.config.globalQueue
  {
    hide RoomMade, Coherent, Pooled, GoesBefore, Outbids, Viable;
    PooledIsAll(s);
    PooledIsAll(s');
    var rest := s.all - Members(drop);
    forall t | t in s'.all
      ensures t in rest + {tx}
    {
    }
    SubsetSize(s'.all, rest + {tx});
    assert |rest + {tx}| <= |rest| + 1;
    if Full(s.all, rules.config) {
      RoomFits(s, rules.config, tx, drop, entries);
      SlotSumBound(rest);
      SlotsNeeded(tx);
      assert (forall t :: t in rest ==> t.sender in s.book.locals) ==> rest == {};
    } else {
      SubsetSize(rest, s.all);
    }
  }

  /** Machine integers and encodings that every received transaction respects. */
  predicate Encoded(tx: Tx) {
    tx.size > 0 && |tx.data| <= Transition.MAX_UINT64 as int
  }

  /** The second book keeps the nonce intervals and standings of the first, between runs and during a reset. */
  ghost predicate Preserves(b: Book, b': Book) {
    && Complete(b) && Complete(b') && b'.world == b.world && b'.maxGas == b.maxGas
    && (SettledBook(b) ==> SettledBook(b'))
    && (AdriftBook(b) ==> AdriftBook(b'))
    && (LooseBook(b) ==> LooseBook(b'))
    && SteadyBook(b, b')
  }

  lemma EffectAfterRoom(b: Book, c: Book, b': Book, drop: seq<Tx>, tx: Tx, local: bool, priceBump: nat, r: AddResult)
    requires Complete(b) && c == RemoveAll(b, drop) && AddEffect(c, b', [], tx, local, priceBump, r)
    ensures AddEffect(b, b', drop, tx, local, priceBump, r)
  {
  }

  /** Each entry of the trace is what adding the next transaction made of the one before. */
  ghost predicate Additions(trace: seq<Snap>, results: seq<AddResult>, txs: seq<Tx>, local: bool, rules: Rules) {
    && |trace| == |results| + 1 && |results| <= |txs|
    && (forall i :: 0 <= i < |trace| ==> Coherent(trace[i]))
    && forall i :: 0 <= i < |results| ==> AddStep(trace[i], trace[i + 1], rules, txs[i], local, results[i])
  }

  /** The lookup is the disjoint union of the lists. */
  ghost predicate Coherent(s: Snap) {
    SoundBook(s.book) && Agrees(s.book, s.all, {})
  }

  lemma AdditionsStart(s: Snap, txs: seq<Tx>, local: bool, rules: Rules)
    requires Coherent(s)
    ensures Additions([s], [], txs, local, rules)
  {
  }

  lemma AdditionsGrow(trace: seq<Snap>, results: seq<AddResult>, txs: seq<Tx>, local: bool, rules: Rules, s: Snap,
      r: AddResult)
    requires Additions(trace, results, txs, local, rules) && |results| < |txs| && Coherent(s)
    requires AddStep(trace[|results|], s, rules, txs[|results|], local, r)
    ensures |trace| == |results| + 1
    ensures Additions(trace + [s], results + [r], txs, local, rules)
  {
    hide AddStep, Coherent;
  }

  /** The senders of the transactions that were added without replacing another one. */
  ghost predicate Gained(dirty: set<Address>, results: seq<AddResult>, txs: seq<Tx>) {
    && |results| <= |txs|
    && forall a :: a in dirty <==> exists k :: 0 <= k < |results| && results[k] == Added(false) && txs[k].sender == a
  }

  lemma GainedGrows(dirty: set<Address>, results: seq<AddResult>, txs: seq<Tx>, r: AddResult)
    requires |results| < |txs| && Gained(dirty, results, txs)
    ensures Gained(if r == Added(false) then dirty + {txs[|results|].sender} else dirty, results + [r], txs)
  {
    var results' := results + [r];
    assert results'[|results|] == r && forall k :: 0 <= k < |results| ==> results'[k] == results[k];
  }

  lemma LocalsIrrelevant(b: Book, locals: set<Address>)
    requires Complete(b)
    ensures Preserves(b, b.(locals := locals)) && (SmallBook(b) ==> SmallBook(b.(locals := locals)))
  {
    var c := b.(locals := locals);
    forall a: Address
      ensures Get(c, a) == Get(b, a) && FilterOf(c, a) == FilterOf(b, a) && SteadyAt(b, c, a)
    {
    }
    if SettledBook(b) {
      forall a: Address
        ensures Settled(Get(c, a), NonceOf(c.world, a), FilterOf(c, a))
      {
        assert Settled(Get(b, a), NonceOf(b.world, a), FilterOf(b, a));
      }
    }
    if AdriftBook(b) {
      forall a: Address
        ensures IsAdrift(Get(c, a), NonceOf(c.world, a), FilterOf(c, a))
      {
        var lo, hi := BookAdrift(b, a);
      }
    }
    if LooseBook(b) {
      forall a: Address
        ensures IsLoose(Get(c, a), NonceOf(c.world, a), FilterOf(c, a))
      {
        assert IsLoose(Get(b, a), NonceOf(b.world, a), FilterOf(b, a));
      }
    }
    if SmallBook(b) {
      forall a: Address
        ensures Small(Get(c, a).pending) && Small(Get(c, a).queue)
      {
        assert Small(Get(b, a).pending) && Small(Get(b, a).queue);
      }
    }
  }

  /** An addition, with the removals that made room for it, keeps the nonce intervals. */
  lemma AddPreserves(b: Book, b': Book, drop: seq<Tx>, tx: Tx, local: bool, priceBump: nat, r: AddResult)
    requires SoundBook(b) && AddEffect(b, b', drop, tx, local, priceBump, r)
    requires tx.nonce >= NonceOf(b.world, tx.sender) && !FilterOf(b, tx.sender)(tx)
    ensures Preserves(b, b') && (SmallBook(b) && tx.nonce + 1 < TWO_64 ==> SmallBook(b'))
  {
    hide PoolBook.Insert, SteadyBook, SettledBook, AdriftBook, SmallBook, LooseBook;
    var c := RemoveAll(b, drop);
    RemoveAllKeeps(b, drop);
    InsertKeeps(c, tx);
    InsertSound(c, tx);
    if Accepts(TargetOf(c, tx), tx, priceBump) {
      assert Insert(c, tx).world == c.world && Insert(c, tx).maxGas == c.maxGas && Insert(c, tx).locals == c.locals by {
        InsertWorld(c, tx);
      }
      LocalsIrrelevant(Insert(c, tx), b'.locals);
      SteadyBooks(b, c, Insert(c, tx));
      SteadyBooks(b, Insert(c, tx), b');
    }
  }

  lemma InsertWorld(b: Book, tx: Tx)
    requires Complete(b)
    ensures Insert(b, tx).world == b.world && Insert(b, tx).maxGas == b.maxGas && Insert(b, tx).locals == b.locals
  {
  }

  lemma ValidFits(tx: Tx, b: Book, gasPrice: nat, istanbul: bool)
    requires Validate(tx, b.world, b.maxGas, gasPrice, istanbul).None?
    ensures tx.nonce >= NonceOf(b.world, tx.sender) && !FilterOf(b, tx.sender)(tx)
  {
  }

  /** A request to follow the chain head, with what the chain answers: its blocks, and the state if it can be read. */
  datatype ResetRequest = ResetRequest(blocks: set<Hash>, oldHead: Option<Hash>, newHead: Hash, world: Option<World>,
                                       maxGas: nat, istanbul: bool)

  ghost predicate Answerable(q: ResetRequest) {
    && WellFormed(q.newHead) && q.newHead in q.blocks && (q.oldHead.Some? ==> WellFormed(q.oldHead.value))
    && (q.oldHead.Some? ==> forall c: nat, tx :: tx in TxsDown(q.oldHead.value, c) ==> Encoded(tx))
  }

  /** The new state lowers no account's nonce. */
  ghost predicate Advances(old': World, q: ResetRequest) {
    q.world.Some? ==> forall a: Address :: NonceOf(old', a) <= NonceOf(q.world.value, a)
  }

  /** No transaction that the reset may pool again has the largest nonce. */
  ghost predicate SmallBranch(q: ResetRequest) {
    q.oldHead.Some? ==> forall c: nat, tx :: tx in TxsDown(q.oldHead.value, c) ==> tx.nonce + 1 < TWO_64
  }

  /**
   What a reset does: it is given up without effect, or the state is replaced, the virtual nonces are forgotten and
   the transactions taken back by a reorganisation are added one by one.
   */
  ghost predicate ResetEffect(s: Snap, rules: Rules, q: ResetRequest, s': Snap, istanbul: bool, r: Option<seq<Tx>>,
                              trace: seq<Snap>, results: seq<AddResult>)
    requires q.newHead.HashOf?
  {
    && Reinjected(q.blocks, q.oldHead, q.newHead, r)
    && if r.None? || q.world.None? then s' == s && istanbul == rules.istanbul
       else
         && istanbul == q.istanbul
         && |trace| == |results| + 1 && Additions(trace, results, r.value, false, rules)
         && (|results| < |r.value| ==> results != [] && results[|results| - 1].Aborted?)
         && trace[0] == s.(book := s.book.(world := q.world.value, maxGas := q.maxGas,
             virtual := StateNonces(q.world.value)))
         && trace[|results|] == s'
  }

  /** The reset is not given up: the branches can be walked to their fork point and the state can be read. */
  ghost predicate Effective(q: ResetRequest) {
    q.newHead.HashOf? && q.world.Some? && !Reinjected(q.blocks, q.oldHead, q.newHead, None)
  }

  /** After a reset an account is abreast of the state exactly if it lost no stale pending transaction in it. */
  ghost predicate ResetStanding(q: ResetRequest, b: Book, b': Book) {
    if Effective(q) then forall a: Address {:trigger AbreastIn(b', a)} :: AbreastIn(b', a) <==> !LosesStale(b, b', a)
    else b' == b
  }

  /** A reset can leave the pool with these lists. */
  ghost predicate ResetsTo(s: Snap, rules: Rules, q: ResetRequest, b: Book, istanbul: bool)
    requires q.newHead.HashOf?
  {
    exists s': Snap, r, trace, results :: s'.book == b && ResetEffect(s, rules, q, s', istanbul, r, trace, results)
  }

  lemma ResetsToThis(s: Snap, rules: Rules, q: ResetRequest, s': Snap, istanbul: bool, r: Option<seq<Tx>>,
                     trace: seq<Snap>, results: seq<AddResult>)
    requires q.newHead.HashOf? && ResetEffect(s, rules, q, s', istanbul, r, trace, results)
    ensures ResetsTo(s, rules, q, s'.book, istanbul)
  {
    hide ResetEffect;
  }

  /** What is pooled again was on the abandoned branch. */
  lemma ReinjectedTxs(q: ResetRequest, txs: seq<Tx>)
    requires Answerable(q) && Reinjected(q.blocks, q.oldHead, q.newHead, Some(txs))
    ensures forall tx :: tx in txs ==> Encoded(tx)
    ensures SmallBranch(q) ==> forall tx :: tx in txs ==> tx.nonce + 1 < TWO_64
  {
    if txs != [] {
      var c: nat :| Meets(q.blocks, q.oldHead.value, q.newHead, c)
                    && txs == Difference(TxsDown(q.oldHead.value, c), TxsDown(q.newHead, c));
      assert forall tx :: tx in txs ==> tx in TxsDown(q.oldHead.value, c);
    }
  }

  /** What the pool is asked to do, each with the clock reading of that moment. */
  datatype Event =
    | Submit(now: nat, txs: seq<Tx>, local: bool)
    | Run(now: nat, reset: Option<ResetRequest>, dirty: set<Address>)
    | Price(now: nat, price: nat)
    | Expire(now: nat, lifetime: nat)

  /** What the network and the chain guarantee of an event. */
  ghost predicate Acceptable(e: Event) {
    match e
    case Submit(_, txs, _) => forall tx :: tx in txs ==> Encoded(tx)
    case Run(_, reset, _) => reset.Some? ==> Answerable(reset.value)
    case _ => true
  }

  /** No transaction of the largest nonce is offered. */
  ghost predicate SmallEvent(e: Event) {
    match e
    case Submit(_, txs, _) => forall tx :: tx in txs ==> tx.nonce + 1 < TWO_64
    case Run(_, reset, _) => reset.Some? ==> SmallBranch(reset.value)
    case _ => true
  }

  ghost predicate SmallEvents(events: seq<Event>) {
    forall i :: 0 <= i < |events| ==> SmallEvent(events[i])
  }

  ghost predicate Harmless(world: World, e: Event) {
    SmallEvent(e) && (e.Run? && e.reset.Some? ==> Advances(world, e.reset.value))
  }

  /** The event brings this state. */
  ghost predicate Brings(e: Event, w: World) {
    e.Run? && e.reset.Some? && e.reset.value.world == Some(w)
  }

  /** No state lowers a nonce of the first one or of one before it. */
  ghost predicate Monotone(w: World, events: seq<Event>) {
    && (forall i :: 0 <= i < |events| && events[i].Run? && events[i].reset.Some? ==> Advances(w, events[i].reset.value))
    && forall i, j, v :: 0 <= i < j < |events| && Brings(events[i], v) && events[j].Run? && events[j].reset.Some? ==>
                           Advances(v, events[j].reset.value)
  }

  /** The current state is the first one or was brought by an event so far. */
  ghost predicate Current(w: World, events: seq<Event>, i: nat, current: World)
    requires i <= |events|
  {
    current == w || exists k :: 0 <= k < i && Brings(events[k], current)
  }

  lemma NextAdvances(w: World, events: seq<Event>, i: nat, current: World)
    requires i < |events| && Monotone(w, events) && SmallEvents(events) && Current(w, events, i, current)
    ensures Harmless(current, events[i])
  {
  }

  ghost predicate Resets(e: Event) {
    e.Run? && e.reset.Some? && Effective(e.reset.value)
  }

  /** How an event changes standings; start is the book after the reset it may contain. */
  ghost predicate EventStanding(e: Event, b: Book, start: Book, b': Book) {
    if Resets(e) then forall a: Address {:trigger AbreastIn(b', a)} :: AbreastIn(b', a) <==> !LosesStale(b, start, a)
    else SameStanding(b, b')
  }

  /** The pool between two events, with its price limit, fork rule and heartbeats. */
  datatype Moment = Moment(snap: Snap, gasPrice: nat, istanbul: bool, beats: map<Address, nat>)

  ghost predicate Sensible(m: Moment) {
    Coherent(m.snap) && m.snap.book.queue.Keys <= m.beats.Keys
  }

  ghost function RulesAt(m: Moment, config: Config): Rules {
    Rules(config, m.gasPrice, m.istanbul)
  }

  /** All transactions have been added in order, up to a possible abort. */
  ghost predicate Submitted(s: Snap, s': Snap, rules: Rules, txs: seq<Tx>, local: bool, trace: seq<Snap>,
                            results: seq<AddResult>) {
    && Additions(trace, results, txs, local, rules) && trace[0] == s && trace[|results|] == s'
    && (|results| < |txs| ==> results != [] && results[|results| - 1].Aborted?)
  }

  /** A run from the book after a possible reset; st shows its stages. */
  ghost predicate RanTo(m: Moment, reset: Option<ResetRequest>, dirty: set<Address>, start: Book, m': Moment,
                        config: Config, st: Stages) {
    && st.start == start && st.end == m'.snap.book && m'.gasPrice == m.gasPrice
    && if reset.None? then m'.istanbul == m.istanbul && start == m.snap.book && RunSteps(st, dirty, false, config)
       else
         && reset.value.newHead.HashOf? && RunSteps(st, start.queue.Keys, true, config)
         && ResetsTo(m.snap, RulesAt(m, config), reset.value, start, m'.istanbul)
  }

  ghost predicate Repriced(s: Snap, s': Snap, price: nat, drop: seq<Tx>)
    requires Complete(s.book)
  {
    && s' == Snap(RemoveAll(s.book, drop), s.all - Members(drop))
    && forall tx :: tx in drop <==> tx in s.all && tx.sender !in s.book.locals && tx.price < price
  }

  /** What each event does to the pool; start is the book after the reset that a run may contain. */
  ghost predicate EventEffect(e: Event, m: Moment, start: Book, m': Moment, config: Config) {
    Sensible(m) && Sensible(m') &&
    match e
    case Submit(_, txs, local) =>
      && m'.gasPrice == m.gasPrice && m'.istanbul == m.istanbul
      && exists trace, results :: Submitted(m.snap, m'.snap, RulesAt(m, config), txs, local, trace, results)
    case Run(_, reset, dirty) => exists st :: RanTo(m, reset, dirty, start, m', config, st)
    case Price(_, price) =>
      m'.gasPrice == price && m'.istanbul == m.istanbul && exists drop :: Repriced(m.snap, m'.snap, price, drop)
    case Expire(now, lifetime) =>
      var b := m.snap.book;
      && m'.gasPrice == m.gasPrice && m'.istanbul == m.istanbul
      && m'.snap.book == b.(queue := b.queue - Expired(b.queue, m.beats, b.locals, now, lifetime))
  }

  /** The moments are what the events made of each other, starts the books after their resets. */
  ghost predicate History(events: seq<Event>, trace: seq<Moment>, starts: seq<Book>, config: Config) {
    && |trace| == |starts| + 1 && |starts| <= |events|
    && forall i :: 0 <= i < |starts| ==> EventEffect(events[i], trace[i], starts[i], trace[i + 1], config)
  }

  lemma HistoryGrows(events: seq<Event>, trace: seq<Moment>, starts: seq<Book>, config: Config, start: Book, m: Moment)
    requires History(events, trace, starts, config) && |starts| < |events|
    requires EventEffect(events[|starts|], trace[|starts|], start, m, config)
    ensures History(events, trace + [m], starts + [start], config)
  {
    hide EventEffect;
  }

  /**
   Whether the history of the first i events leaves an account abreast of the state: the last reset took no stale
   transaction from its pending list or, without a reset, it was abreast at first.
   */
  ghost predicate EndsAbreast(events: seq<Event>, trace: seq<Moment>, starts: seq<Book>, i: nat, a: Address)
    requires i <= |events| && |trace| > i && |starts| >= i
  {
    if i == 0 then AbreastIn(trace[0].snap.book, a)
    else if Resets(events[i - 1]) then !LosesStale(trace[i - 1].snap.book, starts[i - 1], a)
    else EndsAbreast(events, trace, starts, i - 1, a)
  }

  /** Every account's standing after i events is as the history says. */
  ghost predicate Standing(events: seq<Event>, trace: seq<Moment>, starts: seq<Book>, i: nat) {
    && i <= |events| && |trace| > i && |starts| >= i
    && forall a: Address {:trigger AbreastIn(trace[i].snap.book, a)} ::
         AbreastIn(trace[i].snap.book, a) <==> EndsAbreast(events, trace, starts, i, a)
  }

  lemma StandingStarts(events: seq<Event>, m: Moment)
    ensures Standing(events, [m], [], 0)
  {
  }

  lemma StandingStep(events: seq<Event>, trace: seq<Moment>, starts: seq<Book>, i: nat, start: Book, m: Moment)
    requires i < |events| && |trace| == i + 1 && |starts| == i && Standing(events, trace, starts, i)
    requires EventStanding(events[i], trace[i].snap.book, start, m.snap.book)
    ensures Standing(events, trace + [m], starts + [start], i + 1)
  {
    var b := m.snap.book;
    forall a: Address
      ensures AbreastIn(b, a) <==> EndsAbreast(events, trace + [m], starts + [start], i + 1, a)
    {
      assert AbreastIn(trace[i].snap.book, a) <==> EndsAbreast(events, trace, starts, i, a);
      HistoryStays(events, trace, starts, i, a, m, start);
    }
  }

  lemma StandingStays(events: seq<Event>, trace: seq<Moment>, starts: seq<Book>, i: nat, m: Moment, start: Book)
    requires Standing(events, trace, starts, i)
    ensures Standing(events, trace + [m], starts + [start], i)
  {
    forall a: Address
      ensures AbreastIn(trace[i].snap.book, a) <==> EndsAbreast(events, trace + [m], starts + [start], i, a)
    {
      HistoryStays(events, trace, starts, i, a, m, start);
    }
  }

  lemma {:induction false} HistoryStays(events: seq<Event>, trace: seq<Moment>, starts: seq<Book>, i: nat, a: Address,
                                        m: Moment, start: Book)
    requires i <= |events| && |trace| > i && |starts| >= i
    ensures EndsAbreast(events, trace + [m], starts + [start], i, a) <==> EndsAbreast(events, trace, starts, i, a)
  {
    if i > 0 {
      HistoryStays(events, trace, starts, i - 1, a, m, start);
    }
  }

  /** The new head descends from the old one. */
  ghost predicate Onward(q: ResetRequest) {
    q.oldHead.Some? ==> Num(q.oldHead.value) <= Num(q.newHead) && At(q.newHead, Num(q.oldHead.value)) == q.oldHead.value
  }

  /** Then nothing is pooled again. */
  lemma OnwardReinjects(q: ResetRequest, txs: seq<Tx>)
    requires q.newHead.HashOf? && Onward(q) && Reinjected(q.blocks, q.oldHead, q.newHead, Some(txs))
    ensures txs == []
  {
    if q.oldHead.Some? {
      var g := q.oldHead.value;
      forall c: nat | Meets(q.blocks, g, q.newHead, c)
        ensures TxsDown(g, c) == []
      {
        assert At(g, Num(g)) == g;
      }
    }
  }

  /** A reset to a descendant takes nothing from a pending list. */
  lemma OnwardKeeps(s: Snap, rules: Rules, q: ResetRequest, b: Book, istanbul: bool, a: Address)
    requires Effective(q) && Onward(q) && ResetsTo(s, rules, q, b, istanbul)
    ensures !LosesStale(s.book, b, a)
  {
    var s': Snap, r, trace, results :| s'.book == b && ResetEffect(s, rules, q, s', istanbul, r, trace, results);
    if r.Some? {
      OnwardReinjects(q, r.value);
    }
  }

  /** In a history whose resets all move to descendants, every account stays abreast of the state. */
  lemma {:induction false} NeverBehind(events: seq<Event>, trace: seq<Moment>, starts: seq<Book>, config: Config,
                                       i: nat, a: Address)
    requires History(events, trace, starts, config) && i <= |starts| && AbreastIn(trace[0].snap.book, a)
    requires forall k :: 0 <= k < i && Resets(events[k]) ==> Onward(events[k].reset.value)
    ensures EndsAbreast(events, trace, starts, i, a)
  {
    hide Onward, LosesStale, Resets, ResetsTo, RunSteps;
    if i > 0 {
      NeverBehind(events, trace, starts, config, i - 1, a);
      if Resets(events[i - 1]) {
        ResetKeeps(events[i - 1], trace[i - 1], starts[i - 1], trace[i], config, a);
      }
    }
  }

  lemma ResetKeeps(e: Event, m: Moment, start: Book, m': Moment, config: Config, a: Address)
    requires EventEffect(e, m, start, m', config) && Resets(e) && Onward(e.reset.value)
    ensures !LosesStale(m.snap.book, start, a)
  {
    hide RunSteps, LosesStale, Onward, ResetsTo, Effective;
    var st :| RanTo(m, e.reset, e.dirty, start, m', config, st);
    OnwardKeeps(m.snap, RulesAt(m, config), e.reset.value, start, m'.istanbul, a);
  }

  ghost predicate AllOnward(events: seq<Event>) {
    forall i :: 0 <= i < |events| && Resets(events[i]) ==> Onward(events[i].reset.value)
  }

  lemma OnwardAbreast(events: seq<Event>, trace: seq<Moment>, starts: seq<Book>, config: Config, i: nat)
    requires History(events, trace, starts, config) && i <= |starts| && Standing(events, trace, starts, i)
    requires AbreastBook(trace[0].snap.book) && AllOnward(events)
    ensures AbreastBook(trace[i].snap.book)
  {
    hide History;
    forall a: Address
      ensures AbreastIn(trace[i].snap.book, a)
    {
      assert AbreastIn(trace[0].snap.book, a);
      NeverBehind(events, trace, starts, config, i, a);
    }
  }

  lemma SameBeat(beats: map<Address, nat>, a: Address, now: nat)
    ensures beats[a := now][a := now] == beats[a := now]
  {
  }

  /** Promoting a transaction is a sign of life; an account that has nothing queued is forgotten. */
  function Beaten(beats: map<Address, nat>, a: Address, promotes: bool, queued: bool, now: nat): map<Address, nat> {
    if !queued then beats - {a} else if promotes then beats[a := now] else beats
  }

  lemma BeatenSteps(beats: map<Address, nat>, mid: map<Address, nat>, a: Address, promotes: bool, queued: bool,
                    now: nat)
    requires mid == if promotes then beats[a := now] else beats
    ensures (if queued then mid else mid - {a}) == Beaten(beats, a, promotes, queued, now)
  {
  }

  /** The accounts whose queues have gone without a heartbeat for longer than the lifetime. */
  function Expired(queue: Lists, beats: map<Address, nat>, locals: set<Address>, now: nat, lifetime: nat): set<Address>
    requires queue.Keys <= beats.Keys
  {
    set a | a in queue && a !in locals && now - beats[a] > lifetime
  }

  /** Exactly the queued transactions of remote accounts without a heartbeat for longer than the lifetime leave. */
  ghost predicate EvictKeeps(b: Book, b': Book, beats: map<Address, nat>, now: nat, lifetime: nat) {
    forall tx :: Pooled(b', tx) <==>
                   Pooled(b, tx) && !(InLists(b.queue, tx) && tx.sender !in b.locals && tx.sender in beats
                                      && now > beats[tx.sender] + lifetime)
  }

  lemma EvictLaw(b: Book, beats: map<Address, nat>, now: nat, lifetime: nat)
    requires SoundBook(b) && b.queue.Keys <= beats.Keys
    ensures EvictKeeps(b, b.(queue := b.queue - Expired(b.queue, beats, b.locals, now, lifetime)), beats, now, lifetime)
  {
    forall tx
      ensures InLists(b.queue, tx) ==> tx.sender in beats && !InLists(b.pending, tx)
    {
      assert Sound(tx.sender, Get(b, tx.sender));
    }
  }

  lemma ExpiredQueued(queue: Lists, beats: map<Address, nat>, locals: set<Address>, now: nat, lifetime: nat)
    requires queue.Keys <= beats.Keys
    ensures Expired(queue, beats, locals, now, lifetime) <= queue.Keys
  {
  }

  lemma PreservesSame(b: Book)
    requires Complete(b)
    ensures Preserves(b, b)
  {
    SteadySame(b);
  }

  lemma PreservesThrough(b: Book, c: Book, d: Book)
    requires Preserves(b, c) && Preserves(c, d)
    ensures Preserves(b, d) && Complete(d)
  {
    hide SettledBook, AdriftBook, SteadyBook, LooseBook;
    SteadyBooks(b, c, d);
  }

  lemma DropPreserves(b: Book, a: Address)
    requires SoundBook(b)
    ensures var c := b.(queue := SetList(b.queue, a, map[]));
            Preserves(b, c) && (SmallBook(b) ==> SmallBook(c))
  {
    var y := Account(ListOf(b.pending, a), map[], b.virtual[a]);
    PutQueue(b, a, map[]);
    PutSteady(b, a, y);
    if LooseBook(b) {
      assert IsLoose(Get(b, a), NonceOf(b.world, a), FilterOf(b, a));
      EmptyLoose(Get(b, a), NonceOf(b.world, a), FilterOf(b, a));
      PutLoose(b, a, y);
    }
    if SettledBook(b) {
      assert Settled(Get(b, a), NonceOf(b.world, a), FilterOf(b, a));
      PutSettled(b, a, y);
    }
    if AdriftBook(b) {
      var lo, hi := BookAdrift(b, a);
      PutAdrift(b, a, y, lo, hi);
    }
    if SmallBook(b) {
      assert Small(Get(b, a).pending);
      PutSmall(b, a, y);
    }
  }

  /** The pool after each part of a run. */
  datatype Stages = Stages(start: Book, promoted: Book, demoted: Book, levelled: Book, limited: Book, end: Book)

  ghost predicate Promotion(b: Book, b': Book, accounts: set<Address>, accountQueue: nat) {
    Complete(b) && PromotedRound(b, b', accounts, accountQueue)
  }

  ghost predicate Demotion(b: Book, b': Book) {
    Complete(b) && DemotedRound(b, b', b.pending.Keys)
  }

  ghost predicate Truncation(b: Book, b': Book, config: Config) {
    Complete(b) && if Count(b.pending) <= config.globalSlots then b' == b
                   else exists level: nat :: WaterLevel(b, b', level, config.accountSlots, config.globalSlots)
  }

  ghost predicate QueueLimit(b: Book, b': Book, config: Config) {
    if Count(b.queue) <= config.globalQueue then b' == b
    else exists order: seq<Address> :: RemoteOrder(b, order)
                                       && b' == b.(queue := CutQueues(b.queue, order,
                                           Count(b.queue) - config.globalQueue))
  }

  /** The order names every remote account with a queue once. */
  ghost predicate RemoteOrder(b: Book, order: seq<Address>) {
    Distinct(order) && forall a :: a in order <==> a in b.queue && a !in b.locals
  }

  ghost predicate Refreshment(b: Book, b': Book) {
    Complete(b) && RefreshedRound(b, b', b.pending.Keys)
  }

  /** A run from the book after a possible reset to its end. */
  ghost predicate RunSteps(st: Stages, accounts: set<Address>, demotes: bool, config: Config) {
    && Promotion(st.start, st.promoted, accounts, config.accountQueue)
    && (if demotes then Demotion(st.promoted, st.demoted) else st.demoted == st.promoted)
    && Truncation(st.demoted, st.levelled, config)
    && QueueLimit(st.levelled, st.limited, config)
    && Refreshment(st.limited, st.end)
  }

  // Why a run may drop a transaction.

  /** Pending transactions exceeded the limit, and enough lower ones of the remote sender are still pending. */
  ghost predicate LevelledOut(st: Stages, config: Config, tx: Tx) {
    && Count(st.demoted.pending) > config.globalSlots && tx.sender !in st.start.locals
    && InLists(st.demoted.pending, tx)
    && LowerLeft(ListOf(st.levelled.pending, tx.sender), tx, config.accountSlots)
  }

  /** Queued transactions exceeded the limit, and only lower ones of the remote sender are still queued. */
  ghost predicate QueueLimitedOut(st: Stages, config: Config, tx: Tx) {
    && Count(st.levelled.queue) > config.globalQueue && tx.sender !in st.start.locals
    && InLists(st.levelled.queue, tx) && LowerLeft(ListOf(st.limited.queue, tx.sender), tx, 0)
  }

  /** Why the transaction may leave in a run. */
  ghost predicate Excused(st: Stages, config: Config, tx: Tx) {
    || !Viable(st.start, tx) || CrowdedOut(st.promoted, tx, config.accountQueue)
    || LevelledOut(st, config, tx) || QueueLimitedOut(st, config, tx)
  }

  /** A run adds nothing, drops nothing without an excuse, and after a reset leaves current transactions only. */
  ghost predicate RunKeeps(st: Stages, demotes: bool, config: Config) {
    && (forall tx {:trigger Pooled(st.end, tx)} :: Pooled(st.end, tx) ==>
          Pooled(st.start, tx) && (demotes ==> Viable(st.end, tx)))
    && (forall tx {:trigger Pooled(st.start, tx)} :: Pooled(st.start, tx) ==>
          Pooled(st.end, tx) || Excused(st, config, tx))
  }

  lemma RunLaw(st: Stages, accounts: set<Address>, demotes: bool, config: Config)
    requires SoundBook(st.start) && RunSteps(st, accounts, demotes, config)
    requires demotes ==> accounts == st.start.queue.Keys
    ensures RunKeeps(st, demotes, config)
  {
    hide RunSteps, Pooled, CrowdedOut, LevelledOut, QueueLimitedOut;
    forall tx
      ensures Pooled(st.end, tx) ==> Pooled(st.start, tx) && (demotes ==> Viable(st.end, tx))
      ensures Pooled(st.start, tx) ==> Pooled(st.end, tx) || Excused(st, config, tx)
    {
      FrontLaw(st, accounts, demotes, config, tx);
      LimitsLaw(st, accounts, demotes, config, tx);
    }
  }

  /** Promotion and demotion. */
  lemma FrontLaw(st: Stages, accounts: set<Address>, demotes: bool, config: Config, tx: Tx)
    requires SoundBook(st.start) && RunSteps(st, accounts, demotes, config)
    requires demotes ==> accounts == st.start.queue.Keys
    ensures SameWorld(st.start, st.demoted)
    ensures Pooled(st.demoted, tx) ==> Pooled(st.start, tx) && (demotes ==> Viable(st.start, tx))
    ensures Pooled(st.start, tx) && !Pooled(st.demoted, tx) ==>
              !Viable(st.start, tx) || CrowdedOut(st.promoted, tx, config.accountQueue)
  {
    hide Truncation, QueueLimit, Refreshment, PromotedRound, DemotedRound;
    PromotionLaw(st.start, st.promoted, accounts, config.accountQueue, tx);
    if demotes {
      var all := accounts + {tx.sender};
      PromotionWidens(st, accounts, config.accountQueue, tx.sender);
      PromotionClears(st.start, st.promoted, all, config.accountQueue, tx);
      DemotionLaw(st.promoted, st.demoted, tx);
    }
  }

  /** Promoting an account without a queue as well makes no difference. */
  lemma PromotionWidens(st: Stages, accounts: set<Address>, accountQueue: nat, a: Address)
    requires SoundBook(st.start) && Promotion(st.start, st.promoted, accounts, accountQueue)
    requires a in accounts || a !in st.start.queue
    ensures PromotedRound(st.start, st.promoted, accounts + {a}, accountQueue)
  {
    if a !in accounts {
      PromotedNone(st.start, a, accountQueue);
      forall c: Address
        ensures PromotedAt(st.start, st.promoted, accounts + {a}, accountQueue, c)
      {
        assert PromotedAt(st.start, st.promoted, accounts, accountQueue, c);
      }
    } else {
      assert accounts + {a} == accounts;
    }
  }

  /** The limits. */
  lemma LimitsLaw(st: Stages, accounts: set<Address>, demotes: bool, config: Config, tx: Tx)
    requires SoundBook(st.start) && RunSteps(st, accounts, demotes, config) && SameWorld(st.start, st.demoted)
    ensures SameWorld(st.start, st.end)
    ensures Pooled(st.end, tx) ==> Pooled(st.demoted, tx)
    ensures Pooled(st.demoted, tx) && !Pooled(st.end, tx) ==>
              LevelledOut(st, config, tx) || QueueLimitedOut(st, config, tx)
  {
    hide Promotion, Demotion, Truncation, QueueLimit, Refreshment, Pooled;
    TruncationLaw(st.demoted, st.levelled, config, tx);
    QueueLimitLaw(st.levelled, st.limited, config, tx);
    RefreshLaw(st.limited, st.end, tx);
  }

  lemma TruncationLaw(b: Book, b': Book, config: Config, tx: Tx)
    requires Truncation(b, b', config)
    ensures SameWorld(b, b') && Complete(b') && (Pooled(b', tx) ==> Pooled(b, tx))
    ensures Pooled(b, tx) && !Pooled(b', tx) ==>
              && Count(b.pending) > config.globalSlots && tx.sender !in b.locals && InLists(b.pending, tx)
              && LowerLeft(ListOf(b'.pending, tx.sender), tx, config.accountSlots)
  {
    hide LevelTotal, NoneFitsAbove, Levelling;
    if Count(b.pending) > config.globalSlots {
      var level: nat :| WaterLevel(b, b', level, config.accountSlots, config.globalSlots);
      LevelLaw(b, b', level, tx);
    }
  }

  lemma QueueLimitLaw(b: Book, b': Book, config: Config, tx: Tx)
    requires Complete(b) && QueueLimit(b, b', config)
    ensures SameWorld(b, b') && (Pooled(b', tx) ==> Pooled(b, tx))
    ensures Pooled(b, tx) && !Pooled(b', tx) ==>
              && Count(b.queue) > config.globalQueue && tx.sender !in b.locals && InLists(b.queue, tx)
              && LowerLeft(ListOf(b'.queue, tx.sender), tx, 0)
  {
    hide CutQueues, Count, Distinct;
    if Count(b.queue) > config.globalQueue {
      var order: seq<Address> :| RemoteOrder(b, order)
        && b' == b.(queue := CutQueues(b.queue, order, Count(b.queue) - config.globalQueue));
      CutLaw(b, order, Count(b.queue) - config.globalQueue, tx);
    }
  }

  lemma RefreshLaw(b: Book, b': Book, tx: Tx)
    requires Refreshment(b, b')
    ensures SameWorld(b, b') && (Pooled(b', tx) <==> Pooled(b, tx))
  {
    assert RefreshedAt(b, b', b.pending.Keys, tx.sender);
  }

  // What a run makes of each account, whatever its reset did to the state nonces.

  /** The level the account's list is cut to in a run, if it is. */
  ghost predicate LevelFor(st: Stages, config: Config, a: Address, level: Option<nat>)
    requires Complete(st.demoted)
  {
    if Count(st.demoted.pending) <= config.globalSlots || a in st.demoted.locals then level == None
    else level.Some? && WaterLevel(st.demoted, st.levelled, level.value, config.accountSlots, config.globalSlots)
  }

  /** The account is left with a gap that promotion did not fill and the truncation did not cut away. */
  ghost predicate StuckIn(st: Stages, config: Config, a: Address)
    requires Complete(st.start) && Complete(st.demoted)
  {
    exists level: Option<nat> :: LevelFor(st, config, a, level)
      && Stuck(Get(st.start, a), NonceOf(st.start.world, a), FilterOf(st.start, a), level)
  }

  ghost predicate SettledIn(b: Book, a: Address)
    requires Complete(b)
  {
    Settled(Get(b, a), NonceOf(b.world, a), FilterOf(b, a))
  }

  ghost predicate SettlesUnlessStuck(st: Stages, config: Config) {
    && Complete(st.start) && Complete(st.demoted) && Complete(st.end)
    && forall a: Address {:trigger SettledIn(st.end, a)} :: SettledIn(st.end, a) <==> !StuckIn(st, config, a)
  }

  ghost function DemotedOf(b: Book, a: Address, accountQueue: nat): Account
    requires Complete(b)
  {
    Demote(PromotedAccount(b, a, accountQueue), NonceOf(b.world, a), FilterOf(b, a))
  }

  lemma PromotedNone(b: Book, a: Address, accountQueue: nat)
    requires SoundBook(b) && a !in b.queue
    ensures PromotedAccount(b, a, accountQueue) == Get(b, a)
  {
    PromoteNothing(b, a, accountQueue);
    GetPut(b, a, PromotedAccount(b, a, accountQueue), a);
  }

  lemma DemotedStage(st: Stages, config: Config, a: Address)
    requires SoundBook(st.start) && Promotion(st.start, st.promoted, st.start.queue.Keys, config.accountQueue)
    requires Demotion(st.promoted, st.demoted)
    ensures Complete(st.demoted) && Get(st.demoted, a) == DemotedOf(st.start, a, config.accountQueue)
    ensures SameWorld(st.start, st.demoted)
  {
    hide PromotedAccount, Demote;
    assert PromotedAt(st.start, st.promoted, st.start.queue.Keys, config.accountQueue, a);
    assert DemotedAt(st.promoted, st.demoted, st.promoted.pending.Keys, a);
    if a !in st.start.queue {
      PromotedNone(st.start, a, config.accountQueue);
    }
    assert Get(st.promoted, a) == PromotedAccount(st.start, a, config.accountQueue);
    assert FilterOf(st.promoted, a) == FilterOf(st.start, a);
    if a !in st.promoted.pending {
      DemoteNothing(st.promoted, a);
    }
  }

  lemma LimitedStage(st: Stages, config: Config, a: Address) returns (level: Option<nat>)
    requires Complete(st.demoted) && Sanitised(config) && Truncation(st.demoted, st.levelled, config)
    requires QueueLimit(st.levelled, st.limited, config)
    ensures LevelFor(st, config, a, level) && (level.Some? ==> level.value > 0) && Complete(st.limited)
    ensures var z, x := CapTo(Get(st.demoted, a), level), Get(st.limited, a);
            && x.pending == z.pending && x.virtual == z.virtual && forall n: nat :: n in x.queue ==> n in z.queue
    ensures SameWorld(st.demoted, st.limited)
  {
    hide CapAccount, Levelling, QueueLimit, LevelTotal, NoneFitsAbove, Count;
    level := None;
    if Count(st.demoted.pending) > config.globalSlots {
      var l: nat :| WaterLevel(st.demoted, st.levelled, l, config.accountSlots, config.globalSlots);
      LevelledAt(st.demoted, st.levelled, l, a);
      if a !in st.demoted.locals {
        level := Some(l);
      }
    }
    LimitedQueue(st.levelled, st.limited, config, a);
  }

  lemma LimitedQueue(b: Book, b': Book, config: Config, a: Address)
    requires QueueLimit(b, b', config)
    ensures b' == b.(queue := b'.queue) && forall n: nat :: n in ListOf(b'.queue, a) ==> n in ListOf(b.queue, a)
  {
    hide CutQueues, Count, Distinct;
    if Count(b.queue) > config.globalQueue {
      var order: seq<Address> :| RemoteOrder(b, order)
        && b' == b.(queue := CutQueues(b.queue, order, Count(b.queue) - config.globalQueue));
      CutPart(b.queue, order, Count(b.queue) - config.globalQueue, a);
    }
  }

  lemma LevelledAt(b0: Book, b: Book, level: nat, a: Address)
    requires Complete(b0) && level > 0 && Levelled(b0, b, level)
    ensures Complete(b) && SameWorld(b0, b) && Get(b, a) == LevelAccount(b0, a, level)
  {
    assert LevelAt(b0, b, {}, level, a);
  }

  /**
   From any state after a reset, whether nonces were raised or lowered, a run ends with an account settled exactly if it
   is not left with a gap.
   */
  lemma RunSettlesIff(st: Stages, config: Config)
    requires SoundBook(st.start) && LooseBook(st.start) && SmallBook(st.start) && Sanitised(config)
    requires RunSteps(st, st.start.queue.Keys, true, config)
    ensures SettlesUnlessStuck(st, config)
  {
    hide Promotion, Demotion, Truncation, QueueLimit, LevelFor, Stuck, CapTo, Settled, LooseBook;
    forall a: Address
      ensures Complete(st.demoted) && Complete(st.end) && (SettledIn(st.end, a) <==> !StuckIn(st, config, a))
    {
      AccountSettlesIff(st, config, a);
    }
    AccountSettlesIff(st, config, 0);
  }

  lemma AccountSettlesIff(st: Stages, config: Config, a: Address)
    requires SoundBook(st.start) && LooseBook(st.start) && SmallBook(st.start) && Sanitised(config)
    requires RunSteps(st, st.start.queue.Keys, true, config)
    ensures Complete(st.demoted) && Complete(st.end)
    ensures SettledIn(st.end, a) <==> !StuckIn(st, config, a)
  {
    hide Promotion, Demotion, Truncation, QueueLimit, LevelFor, Stuck, CapTo, Settled, Demote, IsLoose, Refresh;
    var nonce, f, cap := NonceOf(st.start.world, a), FilterOf(st.start, a), CapOf(st.start, a, config.accountQueue);
    var x := Get(st.start, a);
    DemotedStage(st, config, a);
    var level := LimitedStage(st, config, a);
    var w := Get(st.limited, a);
    assert IsLoose(x, nonce, f);
    assert Small(x.pending) && Small(x.queue);
    LooseSettlesIff(x, nonce, f, cap, level, w.queue);
    RefreshedStage(st.limited, st.end, a);
    assert w == Account(w.pending, w.queue, w.virtual);
    LevelUnique(st, config, a, level);
  }

  lemma RefreshedStage(b: Book, b': Book, a: Address)
    requires Refreshment(b, b')
    ensures Complete(b') && SameWorld(b, b') && Get(b', a) == Refresh(Get(b, a))
  {
    assert RefreshedAt(b, b', b.pending.Keys, a);
  }

  lemma LevelUnique(st: Stages, config: Config, a: Address, level: Option<nat>)
    requires Complete(st.start) && Complete(st.demoted) && LevelFor(st, config, a, level)
    ensures StuckIn(st, config, a) <==>
            Stuck(Get(st.start, a), NonceOf(st.start.world, a), FilterOf(st.start, a), level)
  {
    hide Stuck, WaterLevel;
    forall other: Option<nat> | LevelFor(st, config, a, other)
      ensures other == level
    {
      if level.Some? && other.Some? {
        WaterLevelUnique(st.demoted, st.levelled, st.levelled, level.value, other.value, config.accountSlots,
                         config.globalSlots);
      }
    }
  }

  class TxPool {
    const config: Config
    const lookup: Lookup
    const noncer: Noncer
    const priced: PricedList
    var pending: Lists
    var queue: Lists
    var beats: map<Address, nat>
    var world: World
    var maxGas: nat
    var gasPrice: nat
    var istanbul: bool
    var locals: set<Address>

    constructor (config: Config, locals: set<Address>, gasPrice: nat, world: World, maxGas: nat, istanbul: bool)
      requires Sanitised(config)
      ensures Valid() && SettledBook(View()) && SmallBook(View()) && AbreastBook(View()) && lookup.all == {}
      ensures this.config == config && this.world == world && this.maxGas == maxGas && this.locals == locals
      ensures fresh(lookup) && fresh(noncer) && fresh(priced) && priced.items == []
      ensures this.gasPrice == gasPrice && this.istanbul == istanbul && queue == map[] && pending == map[]
    {
      this.config, this.locals, this.gasPrice := config, locals, gasPrice;
      this.world, this.maxGas, this.istanbul := world, maxGas, istanbul;
      pending, queue, beats := map[], map[], map[];
      lookup := new Lookup();
      noncer := new Noncer(world);
      priced := new PricedList();
    }

    ghost function View(): Book
      reads this, noncer
    {
      Book(pending, queue, noncer.Virtual(), world, maxGas, locals)
    }

    /** Everything but the price heap agrees, up to transactions on their way between lists. */
    ghost predicate Listed(extra: set<Tx>)
      reads this, lookup, noncer
    {
      && Sanitised(config)
      && SoundBook(View()) && lookup.Valid() && Agrees(View(), lookup.all, extra)
      && noncer.fallback == world
      && queue.Keys <= beats.Keys
    }

    ghost predicate Valid()
      reads this, lookup, noncer, priced
    {
      Listed({}) && priced.Valid(lookup.all)
    }

    /**
     Puts a transaction into the queue unless a better one of its nonce is there. A transaction that is
     already known, on its way from another list, is not recorded again.
     */
    method EnqueueTx(tx: Tx, now: nat, ghost extra: set<Tx>) returns (ok: bool, replaced: bool)
      requires Listed(extra) && tx.size > 0 && tx.nonce !in ListOf(pending, tx.sender)
      requires tx in lookup.all ==> tx in extra
      requires tx !in lookup.all || tx.nonce in ListOf(queue, tx.sender) ==> priced.Valid(lookup.all)
      modifies `queue, `beats, lookup, priced
      ensures ok <==> Accepts(ListOf(old(queue), tx.sender), tx, config.priceBump)
      ensures replaced <==> ok && tx.nonce in ListOf(old(queue), tx.sender)
      ensures queue == if ok then FileTx(old(queue), tx) else old(queue)
      ensures Listed(if ok then extra - {tx} else extra)
      ensures old(tx !in lookup.all || tx.nonce in ListOf(queue, tx.sender)) ==> priced.Valid(lookup.all)
      ensures old(tx in lookup.all && tx.nonce !in ListOf(queue, tx.sender)) ==> unchanged(lookup) && unchanged(priced)
      ensures |priced.items| <= |old(priced.items)| + 1
      ensures beats == if ok && tx.sender !in old(beats) then old(beats)[tx.sender := now] else old(beats)
    {
      var from := tx.sender;
      var list: Items := ListOf(queue, from);
      ok, replaced := Accepts(list, tx, config.priceBump), false;
      if !ok {
        return;
      }
      EnqueueAgrees(View(), lookup.all, extra, tx);
      Record(tx, Present(queue, tx), 0);
      queue := FileTx(queue, tx);
      replaced := tx.nonce in list;
      if from !in beats {
        beats := beats[from := now];
      }
    }

    /** A transaction enters the lookup and the price heap, after the one it replaces has left. */
    method Record(tx: Tx, replaced: Option<Tx>, ghost unreported: nat)
      requires lookup.Valid() && tx.size > 0
      requires replaced.Some? ==> replaced.value in lookup.all && replaced.value != tx
      requires tx !in lookup.all || replaced.Some? ==> priced.Owes(lookup.all, unreported)
      modifies lookup, priced
      ensures lookup.Valid()
      ensures lookup.all == Recorded(old(lookup.all), replaced, tx)
      ensures old(tx !in lookup.all) || replaced.Some? ==> priced.Owes(lookup.all, unreported)
      ensures old(tx in lookup.all) && replaced.None? ==> unchanged(lookup) && unchanged(priced)
      ensures |priced.items| <= |old(priced.items)| + 1
    {
      if replaced.Some? {
        lookup.Remove(replaced.value);
        priced.Removed(1, lookup.all, unreported);
      }
      if tx !in lookup.all {
        ghost var known := lookup.all;
        lookup.Add(tx);
        priced.Put(tx, known, unreported);
      }
    }

    /** Puts known transactions back into the account's queue. None is refused, as their nonces are free. */
    method Requeue(a: Address, m: Items, now: nat, ghost extra: set<Tx>)
      requires Listed(extra) && Requeueable(queue, a, m, extra) && m.Keys !! ListOf(pending, a).Keys
      modifies `queue, `beats, lookup, priced
      ensures Listed(extra - Txs(m)) && unchanged(lookup) && unchanged(priced)
      ensures queue == SetList(old(queue), a, ListOf(old(queue), a) + m)
    {
      var todo := m.Keys;
      ghost var left := extra;
      RequeueStarts(queue, a, m, extra);
      while todo != {}
        invariant Listed(left) && unchanged(lookup) && unchanged(priced)
        invariant Requeued(old(queue), queue, a, m, todo, extra, left)
        decreases todo
      {
        var n :| n in todo;
        var tx := m[n];
        RequeueStep(old(queue), queue, a, m, todo, extra, left, n);
        assert !Pooled(View(), tx) && tx in lookup.all;
        var ok, replaced := EnqueueTx(tx, now, left);
        left := left - {tx};
        todo := todo - {n};
      }
      RequeueEnds(old(queue), queue, a, m, extra, left);
    }

    /** Removes a transaction from the pool, moving pending ones above it back to the queue. */
    method RemoveTx(tx: Tx, outOfBound: bool, now: nat)
      requires Listed({}) && (outOfBound ==> priced.Valid(lookup.all))
      modifies `pending, `queue, `beats, lookup, noncer, priced
      ensures Listed({}) && View() == PoolBook.RemoveTx(old(View()), tx)
      ensures lookup.all == old(lookup.all) - {tx}
      ensures if outOfBound then priced.Valid(lookup.all) else unchanged(priced)
    {
      if tx !in lookup.all {
        return;
      }
      lookup.Remove(tx);
      if outOfBound {
        priced.Removed(1, lookup.all, 0);
      }
      assert lookup.all + {tx} == old(lookup.all);
      if tx.nonce in ListOf(pending, tx.sender) {
        RemovePending(tx, now);
      } else {
        RemoveQueued(tx);
      }
    }

    /** The lookup has lost a transaction that is still in its list. */
    ghost predicate Losing(tx: Tx)
      reads this, lookup, noncer
    {
      && Sanitised(config)
      && SoundBook(View()) && lookup.Valid() && tx !in lookup.all && Agrees(View(), lookup.all + {tx}, {})
      && noncer.fallback == world
      && queue.Keys <= beats.Keys
    }

    method RemovePending(tx: Tx, now: nat)
      requires Losing(tx) && tx.nonce in ListOf(pending, tx.sender)
      modifies `pending, `queue, `beats, lookup, noncer, priced
      ensures Listed({}) && View() == PoolBook.RemoveTx(old(View()), tx) && unchanged(lookup) && unchanged(priced)
    {
      hide PoolBook.RemoveTx, SetList, Below, From, Requeueable;
      ghost var b := View();
      var a, n := tx.sender, tx.nonce;
      var p := ListOf(pending, a);
      LosesPending(b, lookup.all, tx);
      CutAgrees(b, lookup.all + {tx}, tx);
      pending := SetList(pending, a, Below(p, n));
      Requeue(a, From(p, n + 1), now, Txs(From(p, n + 1)));
      ghost var c := b.(pending := pending, queue := queue);
      assert View() == c;
      assert Txs(From(p, n + 1)) - Txs(From(p, n + 1)) == {};
      VirtualAgrees(c, lookup.all, {}, a, Min(b.virtual[a], n));
      noncer.SetIfLower(a, n);
    }

    method RemoveQueued(tx: Tx)
      requires Losing(tx) && tx.nonce !in ListOf(pending, tx.sender)
      modifies `queue, `beats
      ensures Listed({}) && View() == PoolBook.RemoveTx(old(View()), tx)
    {
      QueuedAgrees(View(), lookup.all + {tx}, tx);
      var a := tx.sender;
      if a in queue {
        queue := SetList(queue, a, queue[a] - {tx.nonce});
        if a !in queue {
          beats := beats - {a};
        }
      }
    }

    /** Drops transactions that were taken off their list from the lookup. */
    method Forget(m: Items, ghost extra: set<Tx>, ghost unreported: nat)
      requires Listed(extra) && Filed(m) && Txs(m) <= extra && priced.Owes(lookup.all, unreported)
      modifies lookup
      ensures Listed(extra - Txs(m)) && lookup.all == old(lookup.all) - Txs(m)
      ensures priced.Owes(lookup.all, unreported + |m|)
    {
      ForgetAgrees(View(), lookup.all, extra, Txs(m));
      TxsSize(m);
      Shrinks(lookup.all, Txs(m));
      lookup.RemoveAll(Txs(m));
    }

    method ValidateTx(tx: Tx) returns (r: Option<PoolError>)
      requires |tx.data| <= Transition.MAX_UINT64 as int
      ensures r == Validate(tx, world, maxGas, gasPrice, istanbul)
    {
      if tx.size > TX_MAX_SIZE {
        return Some(OversizedData);
      }
      if tx.value < 0 {
        return Some(NegativeValue);
      }
      if maxGas < tx.gas {
        return Some(GasLimit);
      }
      if tx.price < gasPrice {
        return Some(Underpriced);
      }
      if NonceOf(world, tx.sender) > tx.nonce {
        return Some(NonceTooLow);
      }
      if BalanceOf(world, tx.sender) < Cost(tx) {
        return Some(InsufficientFunds);
      }
      var intrinsic := Transition.IntrinsicGas(tx.data, tx.creation, true, istanbul);
      if intrinsic.None? {
        return Some(GasUintOverflow);
      }
      if tx.gas < intrinsic.value as int {
        return Some(IntrinsicGas);
      }
      r := None;
    }

    /** Removes transactions one by one that the price heap has already given up. */
    method RemoveDropped(drop: seq<Tx>, now: nat)
      requires Listed({}) && priced.Valid(lookup.all - Members(drop))
      modifies `pending, `queue, `beats, lookup, noncer, priced
      ensures Valid() && View() == RemoveAll(old(View()), drop)
      ensures lookup.all == old(lookup.all) - Members(drop) && unchanged(priced)
    {
      hide PoolBook.RemoveTx, RemoveAll, Members, SoundBook, Agrees, Accounts;
      ghost var b, all := View(), lookup.all;
      NoneRemovedYet(b, drop);
      for i := 0 to |drop|
        invariant Listed({}) && View() == RemoveAll(b, drop[..i])
        invariant lookup.all == all - Members(drop[..i]) && unchanged(priced)
      {
        RemoveAllStep(b, drop, i);
        MembersStep(drop, i);
        RemoveTx(drop[i], false, now);
      }
    }

    /** Drops the cheapest remote transactions to make room in a full pool. */
    method MakeRoom(tx: Tx, now: nat) returns (ok: bool, drop: seq<Tx>)
      requires Valid() && Full(lookup.all, config)
      modifies `pending, `queue, `beats, lookup, noncer, priced
      ensures Valid()
      ensures ok <==> old(locals != {} || Excess(lookup.all, config, tx) <= |priced.items|)
      ensures ok ==>
                && Discards(drop, old(lookup.all), locals,
                            WantedOf(old(priced.items), Excess(old(lookup.all), config, tx), locals))
                && multiset(drop) <= multiset(old(priced.items))
      ensures !ok ==> drop == [] && View() == old(View())
      ensures View() == RemoveAll(old(View()), drop) && lookup.all == old(lookup.all) - Members(drop)
      ensures |priced.items| <= |old(priced.items)|
    {
      hide RemoveAll, Discards, Parts, WantedOf, Accounts, Covers;
      SlotSumBound(lookup.all);
      NoneRemovedYet(View(), []);
      var want := lookup.slots - (config.globalSlots + config.globalQueue) + NumSlots(tx);
      ok, drop := locals != {} || want <= |priced.items|, [];
      if ok {
        ghost var entries := priced.items;
        drop := priced.Discard(want, lookup.all, locals);
        DiscardsPooled(drop, lookup.all, locals, entries, priced.items, WantedOf(entries, want, locals));
        RemoveDropped(drop, now);
      }
    }

    /** Lets a new transaction replace the pending one of its nonce. */
    method ReplacePending(tx: Tx, now: nat)
      requires Valid() && tx !in lookup.all && tx.size > 0 && tx.nonce in ListOf(pending, tx.sender)
      modifies `pending, `beats, lookup, priced
      ensures Valid() && View() == Insert(old(View()), tx) && |priced.items| <= |old(priced.items)| + 1
      ensures beats == old(beats)[tx.sender := now]
    {
      hide PoolBook.Insert;
      InsertPending(View(), tx);
      ReplaceAgrees(View(), lookup.all, tx);
      Record(tx, Present(pending, tx), 0);
      pending := FileTx(pending, tx);
      beats := beats[tx.sender := now];
    }

    /** Lets a new transaction join the queue, and makes its account local if it came in locally. */
    method InsertQueue(tx: Tx, local: bool, now: nat) returns (ok: bool, replaced: bool)
      requires Valid() && tx !in lookup.all && tx.size > 0 && tx.nonce !in ListOf(pending, tx.sender)
      modifies `queue, `beats, `locals, lookup, priced
      ensures Valid()
      ensures ok <==> Accepts(ListOf(old(queue), tx.sender), tx, config.priceBump)
      ensures replaced <==> ok && tx.nonce in ListOf(old(queue), tx.sender)
      ensures View() ==
              if ok then Insert(old(View()), tx).(locals := if local then old(locals) + {tx.sender} else old(locals))
                        else old(View())
      ensures |priced.items| <= |old(priced.items)| + 1
    {
      hide PoolBook.Insert;
      InsertQueued(View(), tx);
      ok, replaced := EnqueueTx(tx, now, {});
      assert {} - {tx} == {};
      if ok && local {
        SameListsAgree(View(), View().(locals := locals + {tx.sender}), lookup.all, {});
        locals := locals + {tx.sender};
      }
    }

    /** Lets a new transaction replace one of its nonce or join the queue. */
    method InsertTx(tx: Tx, local: bool, now: nat) returns (r: AddResult)
      requires Valid() && tx !in lookup.all && tx.size > 0
      modifies `pending, `queue, `beats, `locals, lookup, priced
      ensures Valid() && AddEffect(old(View()), View(), [], tx, local, config.priceBump, r)
      ensures !r.Aborted? && |priced.items| <= |old(priced.items)| + 1
    {
      hide PoolBook.Insert;
      NoneRemovedYet(View(), []);
      if tx.nonce in ListOf(pending, tx.sender) {
        if !Accepts(ListOf(pending, tx.sender), tx, config.priceBump) {
          return Rejected(ReplaceUnderpriced);
        }
        ReplacePending(tx, now);
        return Added(true);
      }
      var ok, replaced := InsertQueue(tx, local, now);
      r := if ok then Added(replaced) else Rejected(ReplaceUnderpriced);
    }

    ghost function Snapshot(): Snap
      reads this, lookup, noncer
    {
      Snap(View(), lookup.all)
    }

    ghost function Terms(): Rules
      reads this
    {
      Rules(config, gasPrice, istanbul)
    }

    /** Checks a transaction and, while the pool is full, its price. */
    method CheckTx(tx: Tx, local: bool) returns (r: Option<PoolError>)
      requires Valid() && |tx.data| <= Transition.MAX_UINT64 as int
      modifies priced
      ensures Valid() && r == Refusal(Snapshot(), Terms(), tx, local) && (r.None? ==> tx !in lookup.all)
      ensures |priced.items| <= |old(priced.items)|
    {
      if tx in lookup.all {
        return Some(AlreadyKnown);
      }
      r := ValidateTx(tx);
      if r.None? && |lookup.all| >= config.globalSlots + config.globalQueue && !local {
        var cheap := priced.Underpriced(tx, lookup.all, locals);
        if cheap {
          r := Some(Underpriced);
        }
      }
    }

    /** Makes room for a transaction if the pool is full. */
    method EnsureRoom(tx: Tx, now: nat) returns (ok: bool, drop: seq<Tx>, ghost entries: seq<Tx>)
      requires Valid()
      modifies `pending, `queue, `beats, lookup, noncer, priced
      ensures Valid()
      ensures ok ==> RoomMade(old(Snapshot()), config, tx, drop, entries)
      ensures View() == RemoveAll(old(View()), drop) && lookup.all == old(lookup.all) - Members(drop)
      ensures !ok ==> Snapshot() == old(Snapshot()) && drop == []
      ensures entries == old(priced.items) && Covers(entries, old(lookup.all)) && |priced.items| <= |entries|
      ensures !ok <==> Aborts(old(Snapshot()), config, tx, entries)
    {
      hide Discards, RemoveAll;
      NoneRemovedYet(View(), []);
      assert Members([]) == {};
      ok, drop, entries := true, [], priced.items;
      if |lookup.all| >= config.globalSlots + config.globalQueue {
        CoverSize(priced.items, lookup.all);
        ok, drop := MakeRoom(tx, now);
      }
    }

    /**
     Adds a transaction. In a full pool the cheapest remote transactions make room first; a transaction that is
     itself no dearer than all others is refused.
     */
    method Add(tx: Tx, local: bool, now: nat) returns (r: AddResult, drop: seq<Tx>, ghost entries: seq<Tx>)
      requires Valid() && Encoded(tx)
      modifies `pending, `queue, `beats, `locals, lookup, noncer, priced
      ensures Valid()
      ensures var refusal := Refusal(old(Snapshot()), Terms(), tx, local);
              && (refusal.Some? ==> r == Rejected(refusal.value) && Snapshot() == old(Snapshot()))
              && (refusal.None? && !r.Aborted? ==>
                    && RoomMade(old(Snapshot()), config, tx, drop, entries)
                    && AddEffect(old(View()), View(), drop, tx, local, config.priceBump, r))
      ensures r.Aborted? <==> Refusal(old(Snapshot()), Terms(), tx, local).None?
                              && Aborts(old(Snapshot()), config, tx, entries)
      ensures r.Aborted? ==> Snapshot() == old(Snapshot())
      ensures Refusal(old(Snapshot()), Terms(), tx, local).None? ==> Covers(entries, old(lookup.all))
      ensures AddKeeps(old(Snapshot()), Snapshot(), Terms(), tx, r, drop)
      ensures |entries| <= |old(priced.items)| && |priced.items| <= |old(priced.items)| + 1
    {
      hide AddEffect, RoomMade, Refusal, RemoveAll, Excess, Aborts, Covers, AddKeeps;
      ghost var b := View();
      drop, entries := [], [];
      ghost var s := Snapshot();
      NothingAdded(s, Terms(), tx);
      var refusal := CheckTx(tx, local);
      if refusal.Some? {
        return Rejected(refusal.value), [], [];
      }
      var ok;
      ok, drop, entries := EnsureRoom(tx, now);
      if !ok {
        return Aborted, drop, entries;
      }
      ghost var c := View();
      r := InsertTx(tx, local, now);
      EffectAfterRoom(b, c, View(), drop, tx, local, config.priceBump, r);
      AddLaw(s, Snapshot(), Terms(), tx, local, r, drop, entries);
    }

    /** Drops a transaction that is on no list from the lookup. */
    method Unrecord(tx: Tx, ghost extra: set<Tx>, ghost unreported: nat)
      requires Listed(extra) && tx in extra && priced.Owes(lookup.all, unreported)
      modifies lookup, priced
      ensures Listed(extra - {tx}) && priced.Owes(lookup.all, unreported)
    {
      hide SoundBook, Agrees;
      ForgetAgrees(View(), lookup.all, extra, {tx});
      lookup.Remove(tx);
      priced.Removed(1, lookup.all, unreported);
    }

    /** Makes a transaction executable, unless a better one of its nonce is; the worse of the two leaves the pool. */
    method PromoteTx(a: Address, tx: Tx, now: nat, ghost extra: set<Tx>, ghost unreported: nat) returns (ok: bool)
      requires Listed(extra) && tx.sender == a && tx.size > 0 && tx.nonce !in ListOf(queue, a)
      requires tx in lookup.all ==> tx in extra
      requires Accepts(ListOf(pending, a), tx, config.priceBump) || tx in lookup.all
      requires priced.Owes(lookup.all, unreported)
      modifies `pending, `beats, lookup, noncer, priced
      ensures ok <==> Accepts(ListOf(old(pending), a), tx, config.priceBump)
      ensures beats == if ok then old(beats)[a := now] else old(beats)
      ensures View() == if ok then old(View()).(pending := FileTx(old(pending), tx),
                                                virtual := old(View()).virtual[a := Next(tx.nonce)]) else old(View())
      ensures Listed(extra - {tx}) && priced.Owes(lookup.all, unreported)
    {
      hide Accepts, FileTx, SetList, SoundBook, Agrees, Accounts;
      var list: Items := ListOf(pending, a);
      ok := Accepts(list, tx, config.priceBump);
      if !ok {
        Unrecord(tx, extra, unreported);
        return;
      }
      PromoteAgrees(View(), lookup.all, extra, tx, Next(tx.nonce));
      Record(tx, Present(pending, tx), unreported);
      pending := FileTx(pending, tx);
      noncer.Set(a, Next(tx.nonce));
      beats := beats[a := now];
    }

    /** Makes an account's ready transactions pending, lowest nonce first. */
    method PromoteReadies(a: Address, readies: Items, now: nat, ghost extra: set<Tx>, ghost unreported: nat)
      returns (promoted: seq<Tx>)
      requires Listed(extra) && priced.Owes(lookup.all, unreported) && a !in queue
      requires Own(a, readies) && Txs(readies) <= extra && readies.Keys !! ListOf(pending, a).Keys
      modifies `pending, `beats, lookup, noncer, priced
      ensures beats == if readies == map[] then old(beats) else old(beats)[a := now]
      ensures Listed(extra - Txs(readies)) && priced.Owes(lookup.all, unreported)
      ensures Promoting(old(View()), View(), a, readies, extra, extra - Txs(readies))
      ensures promoted == Flat(readies)
    {
      ghost var b := View();
      ghost var left := extra;
      var flat := Flat(readies);
      promoted := [];
      SameBeat(beats, a, now);
      PromotingStarts(b, a, extra);
      LowestEnds(readies);
      for i := 0 to |flat|
        invariant Listed(left) && priced.Owes(lookup.all, unreported)
        invariant Promoting(b, View(), a, Lowest(readies, i), extra, left)
        invariant promoted == flat[..i] && beats == if i == 0 then old(beats) else old(beats)[a := now]
      {
        PromoteNext(b, a, readies, i, flat[i], now, extra, left, unreported);
        PrefixGrows(flat, i);
        promoted := promoted + [flat[i]];
        left := left - {flat[i]};
      }
    }

    method PromoteNext(ghost b: Book, a: Address, ghost readies: Items, ghost i: nat, tx: Tx, now: nat,
                       ghost extra: set<Tx>, ghost left: set<Tx>, ghost unreported: nat)
      requires Listed(left) && priced.Owes(lookup.all, unreported) && a !in queue
      requires Own(a, readies) && Txs(readies) <= extra && i < |readies| && tx == Flat(readies)[i]
      requires Complete(b) && Promoting(b, View(), a, Lowest(readies, i), extra, left)
      requires readies.Keys !! ListOf(b.pending, a).Keys
      modifies `pending, `beats, lookup, noncer, priced
      ensures beats == old(beats)[a := now]
      ensures Listed(left - {tx}) && priced.Owes(lookup.all, unreported)
      ensures Promoting(b, View(), a, Lowest(readies, i + 1), extra, left - {tx})
    {
      PromoteOne(b, View(), a, readies, i, extra, left);
      assert !Pooled(View(), tx) && tx in lookup.all;
      var ok := PromoteTx(a, tx, now, left, unreported);
    }

    /** Drops what is not kept of a list from the lookup. */
    method Retain(list: Items, keep: Items, ghost unreported: nat) returns (gone: nat)
      requires Listed(Txs(list)) && Filed(list) && priced.Owes(lookup.all, unreported)
      requires forall n: nat :: n in keep ==> n in list && keep[n] == list[n]
      modifies lookup
      ensures Listed(Txs(keep)) && priced.Owes(lookup.all, unreported + gone)
    {
      var out := list - keep.Keys;
      TxsPart(list, keep, out);
      Forget(out, Txs(list), unreported);
      gone := |out|;
    }

    /** Takes an account's queue out and drops what is outdated or unpayable from the lookup. */
    method CleanQueue(a: Address) returns (eligible: Items, gone: nat)
      requires Valid() && a in queue
      modifies `queue, lookup
      ensures queue == old(queue) - {a}
      ensures eligible == Eligible(Get(old(View()), a), NonceOf(world, a), FilterOf(old(View()), a))
      ensures Listed(Txs(eligible)) && priced.Owes(lookup.all, gone)
      ensures Own(a, eligible) && eligible.Keys !! ListOf(pending, a).Keys
    {
      TakeQueue(View(), lookup.all, a);
      assert Sound(a, Get(View(), a));
      var list: Items := queue[a];
      queue := queue - {a};
      var current := From(list, NonceOf(world, a));
      var forwards := Retain(list, current, 0);
      eligible := Without(current, Unaffordable(BalanceOf(world, a), maxGas));
      var drops := Retain(current, eligible, forwards);
      gone := forwards + drops;
    }

    /** Cuts an account's remaining queue to the limit, unless it is local. */
    method CapQueue(a: Address, rest: Items, ghost gone: nat) returns (kept: Items, capped: nat)
      requires Listed(Txs(rest)) && Filed(rest) && priced.Owes(lookup.all, gone)
      modifies lookup
      ensures kept == if a in locals then rest else Lowest(rest, config.accountQueue)
      ensures forall n: nat :: n in kept ==> n in rest && kept[n] == rest[n]
      ensures Listed(Txs(kept)) && priced.Owes(lookup.all, gone + capped)
    {
      kept, capped := rest, 0;
      if a !in locals {
        kept := Lowest(rest, config.accountQueue);
        LowestIsPart(rest, config.accountQueue);
        capped := Retain(rest, kept, gone);
      }
    }

    /** Promotes the run of eligible transactions that continues the pending ones. */
    method PromoteReady(a: Address, eligible: Items, now: nat, ghost gone: nat) returns (promoted: seq<Tx>, rest: Items)
      requires Listed(Txs(eligible)) && priced.Owes(lookup.all, gone) && a !in queue
      requires Own(a, eligible) && eligible.Keys !! ListOf(pending, a).Keys
      modifies `pending, `beats, lookup, noncer, priced
      ensures beats == if promoted == [] then old(beats) else old(beats)[a := now]
      ensures Listed(Txs(rest)) && priced.Owes(lookup.all, gone)
      ensures rest == AfterRun(eligible, old(View()).virtual[a]) && promoted == Flat(eligible - rest.Keys)
      ensures Promoting(old(View()), View(), a, eligible - rest.Keys, Txs(eligible), Txs(rest))
      ensures rest.Keys !! ListOf(pending, a).Keys
    {
      var start := noncer.Get(a);
      rest := AfterRun(eligible, start);
      var readies := eligible - rest.Keys;
      TxsPart(eligible, rest, readies);
      promoted := PromoteReadies(a, readies, now, Txs(eligible), gone);
      SetTwice(old(pending), a, ListOf(old(pending), a) + readies, map[]);
    }

    /** Puts an account's queue back and reports all that was dropped. */
    method ReturnKept(a: Address, kept: Items, gone: nat)
      requires Listed(Txs(kept)) && priced.Owes(lookup.all, gone) && a !in queue
      requires Own(a, kept) && kept.Keys !! ListOf(pending, a).Keys && a in beats
      modifies `queue, `beats, priced
      ensures Valid() && queue == SetList(old(queue), a, kept)
      ensures beats == if kept == map[] then old(beats) - {a} else old(beats)
    {
      priced.Removed(gone, lookup.all, 0);
      ReturnQueue(View(), lookup.all, a, kept);
      queue := SetList(queue, a, kept);
      if kept == map[] {
        beats := beats - {a};
      }
    }

    /** Takes an account's queue out, cleans it and promotes its executable front. */
    method PromoteFront(a: Address, now: nat) returns (promoted: seq<Tx>, rest: Items, gone: nat)
      requires Valid() && a in queue
      modifies `pending, `queue, `beats, lookup, noncer, priced
      ensures Listed(Txs(rest)) && priced.Owes(lookup.all, gone) && a !in queue && a in beats
      ensures promoted == Flat(ReadiesOf(old(View()), a)) && rest == RestOf(old(View()), a)
      ensures beats == if promoted == [] then old(beats) else old(beats)[a := now]
      ensures Promoting(old(View()).(queue := old(queue) - {a}), View(), a, ReadiesOf(old(View()), a),
                        Txs(EligibleOf(old(View()), a)), Txs(rest))
      ensures Own(a, rest) && rest.Keys !! ListOf(pending, a).Keys
    {
      ghost var b := View();
      var eligible;
      eligible, gone := CleanQueue(a);
      assert View() == b.(queue := b.queue - {a});
      promoted, rest := PromoteReady(a, eligible, now, gone);
    }

    /** Caps what is left of the queue and puts it back. */
    method PromoteBack(a: Address, rest: Items, gone: nat) returns (kept: Items)
      requires Listed(Txs(rest)) && priced.Owes(lookup.all, gone) && a !in queue && a in beats
      requires Own(a, rest) && rest.Keys !! ListOf(pending, a).Keys
      modifies `queue, `beats, lookup, priced
      ensures kept == if a in locals then rest else Lowest(rest, config.accountQueue)
      ensures Valid() && queue == SetList(old(queue), a, kept)
      ensures beats == if a in queue then old(beats) else old(beats) - {a}
    {
      var capped;
      kept, capped := CapQueue(a, rest, gone);
      ReturnKept(a, kept, gone + capped);
    }

    /** Promotes what has become executable in one account's queue; the rest is cleaned and capped. */
    method PromoteQueue(a: Address, now: nat) returns (promoted: seq<Tx>)
      requires Valid() && a in queue
      modifies `pending, `queue, `beats, lookup, noncer, priced
      ensures Valid() && View() == PromoteIn(old(View()), a, config.accountQueue)
      ensures promoted == Flat(ReadiesOf(old(View()), a))
      ensures beats == Beaten(old(beats), a, promoted != [], a in queue, now)
    {
      hide PromoteIn, RestOf, ReadiesOf, EligibleOf, Lowest, Flat, Beaten;
      ghost var b := View();
      var rest, gone;
      promoted, rest, gone := PromoteFront(a, now);
      ghost var c, mid := View(), beats;
      var kept := PromoteBack(a, rest, gone);
      BeatenSteps(old(beats), mid, a, promoted != [], a in queue, now);
      PromoteInSteps(b, c, a, config.accountQueue, ReadiesOf(b, a), rest, kept, Txs(EligibleOf(b, a)), Txs(rest));
    }

    /** One round of promoteExecutables; an account without a queue is skipped. */
    method PromoteAccount(a: Address, now: nat) returns (promoted: seq<Tx>)
      requires Valid()
      modifies `pending, `queue, `beats, lookup, noncer, priced
      ensures Valid() && View() == PromoteIn(old(View()), a, config.accountQueue)
      ensures promoted == Flat(ReadiesOf(old(View()), a))
      ensures PromotionKeeps(old(View()), View(), {a}, config.accountQueue)
      ensures beats == if a in old(queue) then Beaten(old(beats), a, promoted != [], a in queue, now) else old(beats)
    {
      hide PromotionKeeps, PromoteIn;
      PromoteKeeps(View(), a, config.accountQueue);
      if a !in queue {
        PromoteNothing(View(), a, config.accountQueue);
        NoneReady(View(), a);
        promoted := [];
      } else {
        promoted := PromoteQueue(a, now);
      }
    }

    /** Drops what is outdated or unpayable of a pending list from the pool. */
    method RetainExecutable(list: Items, nonce: nat, filter: Tx -> bool) returns (kept: Items, invalids: Items)
      requires Listed(Txs(list)) && Filed(list) && priced.Valid(lookup.all)
      modifies lookup, priced
      ensures kept == Executable(From(list, nonce), filter) && invalids == Invalidated(From(list, nonce), filter)
      ensures Listed(Txs(kept) + Txs(invalids)) && priced.Valid(lookup.all)
    {
      var current := From(list, nonce);
      var olds := Retain(list, current, 0);
      kept, invalids := Executable(current, filter), Invalidated(current, filter);
      TxsUnion(kept, invalids);
      var drops := Retain(current, kept + invalids, olds);
      priced.Removed(olds + drops, lookup.all, 0);
    }

    /** Takes an account's pending list out and drops what is outdated or unpayable from the pool. */
    method CleanPending(a: Address) returns (kept: Items, invalids: Items)
      requires Valid() && a in pending
      modifies `pending, lookup, priced
      ensures pending == old(pending) - {a}
      ensures kept == KeptOf(old(View()), a) && invalids == InvalidOf(old(View()), a)
      ensures Listed(Txs(kept) + Txs(invalids)) && priced.Valid(lookup.all)
      ensures Own(a, kept) && Own(a, invalids) && kept.Keys !! invalids.Keys
      ensures ListOf(queue, a).Keys !! kept.Keys && ListOf(queue, a).Keys !! invalids.Keys
    {
      ghost var b := View();
      TakePending(b, lookup.all, a);
      assert Sound(a, Get(b, a));
      var list: Items := pending[a];
      pending := pending - {a};
      kept, invalids := RetainExecutable(list, NonceOf(world, a), Unaffordable(BalanceOf(world, a), maxGas));
      DemoteParts(b, a);
    }

    /** Puts the executable part of a pending list back, unless it starts with a gap, and the rest into the queue. */
    method PlaceDemoted(a: Address, kept: Items, invalids: Items, now: nat)
      requires Listed(Txs(kept) + Txs(invalids)) && priced.Valid(lookup.all) && a !in pending
      requires Own(a, kept) && Own(a, invalids) && kept.Keys !! invalids.Keys
      requires ListOf(queue, a).Keys !! kept.Keys && ListOf(queue, a).Keys !! invalids.Keys
      modifies `pending, `queue, `beats, lookup, priced
      ensures Valid()
      ensures var gapped := kept != map[] && NonceOf(world, a) !in kept;
              && pending == SetList(old(pending), a, if gapped then map[] else kept)
              && queue == SetList(old(queue), a, ListOf(old(queue), a) + invalids + if gapped then kept else map[])
    {
      var list: Items := ListOf(queue, a) + invalids;
      PostponeTwice(queue, a, list, kept);
      Postpone(a, invalids, now, kept);
      if kept != map[] && NonceOf(world, a) !in kept {
        RemoveAbsent(pending, a);
        Postpone(a, kept, now, map[]);
      } else {
        ReturnPending(View(), lookup.all, a, kept);
        pending := SetList(pending, a, kept);
      }
    }

    /** Drops outdated and unpayable pending transactions of one account and postpones those behind a gap. */
    method DemoteAccount(a: Address, now: nat)
      requires Valid() && a in pending
      modifies `pending, `queue, `beats, lookup, priced
      ensures Valid() && View() == DemoteIn(old(View()), a)
    {
      ghost var b := View();
      var kept, invalids := CleanPending(a);
      PlaceDemoted(a, kept, invalids, now);
      DemoteInSteps(b, a, queue, if kept != map[] && NonceOf(world, a) !in kept then map[] else kept);
    }

    /** Moves transactions of an account whose pending list was taken out to its queue. */
    method Postpone(a: Address, m: Items, now: nat, ghost others: Items)
      requires Listed(Txs(others) + Txs(m)) && Own(a, m) && Own(a, others) && m.Keys !! others.Keys
      requires m.Keys !! ListOf(queue, a).Keys && a !in pending
      modifies `queue, `beats, lookup, priced
      ensures Listed(Txs(others)) && unchanged(lookup) && unchanged(priced)
      ensures queue == SetList(old(queue), a, ListOf(old(queue), a) + m)
    {
      TxsDisjoint(others, m);
      Requeue(a, m, now, Txs(others) + Txs(m));
    }

    /** Drops an account's highest pending transaction. */
    method DropLast(a: Address)
      requires Valid() && a in pending
      modifies `pending, lookup, noncer, priced
      ensures Valid() && View() == Put(old(View()), a, DropHighest(Get(old(View()), a)))
    {
      assert Filled(pending, a);
      DropAgrees(View(), lookup.all, a);
      var list: Items := pending[a];
      var n := GreatestKey(list);
      lookup.Remove(list[n]);
      pending := SetList(pending, a, list - {n});
      noncer.SetIfLower(a, n);
      priced.Removed(1, lookup.all, 0);
    }

    /** One round of the reduction: every offender loses its highest transaction. */
    method DropRound(targets: seq<Address>, count0: nat, ghost b0: Book, ghost level: nat) returns (count: nat)
      requires Valid() && count0 == Count(pending)
      requires SoundBook(b0) && level > 1 && Levelled(b0, View(), level) && Cuttable(b0, targets, level)
      modifies `pending, lookup, noncer, priced
      ensures Valid() && count == Count(pending) && Levelling(b0, View(), Taken(targets, |targets|), level)
    {
      count := count0;
      assert Taken(targets, 0) == {};
      for i := 0 to |targets|
        invariant Valid() && count == Count(pending) && Levelling(b0, View(), Taken(targets, i), level)
      {
        NextCut(b0, View(), targets, i, level);
        CountDrop(View(), targets[i]);
        CountsOne(pending, targets[i]);
        ghost var b := View();
        DropLast(targets[i]);
        LevelStep(b0, b, Taken(targets, i), level, targets[i]);
        count := count - 1;
      }
    }

    /** The spammer with the most pending transactions. */
    method PopLargest(spammers: set<Address>) returns (a: Address)
      requires spammers != {} && spammers <= pending.Keys
      ensures a in spammers && forall c :: c in spammers ==> |pending[c]| <= |pending[a]|
    {
      a :| a in spammers;
      var todo := spammers - {a};
      while todo != {}
        invariant todo <= spammers && a in spammers
        invariant forall c :: c in spammers - todo ==> |pending[c]| <= |pending[a]|
        decreases todo
      {
        var c :| c in todo;
        if |pending[c]| > |pending[a]| {
          a := c;
        }
        todo := todo - {c};
      }
    }

    /** Lowers the level of some offenders round by round until the limit or the floor is reached. */
    method LowerTo(targets: seq<Address>, floor: nat, count0: nat, ghost b0: Book, ghost level0: nat)
      returns (count: nat, ghost level: nat)
      requires Valid() && count0 == Count(pending) && SoundBook(b0) && targets != []
      requires Lowering(b0, View(), targets, floor, level0, config.globalSlots)
      modifies `pending, lookup, noncer, priced
      ensures Valid() && count == Count(pending) && level <= level0
      ensures Lowering(b0, View(), targets, floor, level, config.globalSlots)
      ensures count <= config.globalSlots || level == floor
    {
      hide Levelling, Cuttable, Reaches, NoneFitsAbove, Count;
      count, level := count0, level0;
      var last := targets[|targets| - 1];
      LoweringSize(b0, View(), targets, floor, level, config.globalSlots, last);
      while count > config.globalSlots && |ListOf(pending, last)| > floor
        invariant Valid() && count == Count(pending) && level <= level0
        invariant Lowering(b0, View(), targets, floor, level, config.globalSlots)
        invariant |ListOf(pending, last)| == level
        decreases level
      {
        ghost var b := View();
        count := DropRound(targets, count, b0, level);
        LoweringStep(b0, b, View(), targets, floor, level, config.globalSlots);
        level := level - 1;
        LoweringSize(b0, View(), targets, floor, level, config.globalSlots, last);
      }
    }

    /** Adds the next spammer to the offenders, after bringing those down to its size. */
    method Meet(offender: Address, offenders: seq<Address>, ghost spammers: set<Address>, count0: nat, ghost b0: Book,
                ghost level0: nat) returns (count: nat, ghost level: nat)
      requires Valid() && count0 == Count(pending) > config.globalSlots && SoundBook(b0)
      requires Meeting(b0, View(), offenders, spammers, level0, config.accountSlots, config.globalSlots)
      requires offender in spammers
      requires forall c :: c in spammers ==> |ListOf(b0.pending, c)| <= |ListOf(b0.pending, offender)|
      modifies `pending, lookup, noncer, priced
      ensures Valid() && count == Count(pending)
      ensures Meeting(b0, View(), offenders + [offender], spammers - {offender}, level, config.accountSlots,
              config.globalSlots)
    {
      hide Levelling, Cuttable, Reaches, NoneFitsAbove, Count, LevelTotal;
      count, level := count0, level0;
      if |offenders| == 0 {
        MeetFirst(b0, View(), spammers, level, config.accountSlots, config.globalSlots, offender);
        assert offenders + [offender] == [offender];
      } else {
        MeetNext(b0, View(), offenders, spammers, level, config.accountSlots, config.globalSlots, offender);
        LevelSizes(b0, View(), level, offender);
        count, level := LowerTo(offenders, |ListOf(pending, offender)|, count, b0, level);
        MeetingStep(b0, View(), offenders, spammers, level0, level, config.accountSlots, config.globalSlots, offender);
      }
    }

    /** Meets the spammers from the largest down, until the limit is reached or all are at the same level. */
    method MeetSpammers(count0: nat) returns (count: nat, offenders: seq<Address>, ghost level: nat)
      requires Valid() && count0 == Count(pending) > config.globalSlots
      modifies `pending, lookup, noncer, priced
      ensures Valid() && count == Count(pending)
      ensures count <= config.globalSlots || offenders == [] ==>
                WaterLevel(old(View()), View(), level, config.accountSlots, config.globalSlots)
      ensures count > config.globalSlots ==>
                Lowering(old(View()), View(), offenders, config.accountSlots, level, config.globalSlots)
    {
      hide Levelling, Cuttable, Reaches, NoneFitsAbove, Count, LevelTotal;
      ghost var b0 := View();
      var spammers := set a | a in pending && Spams(pending, locals, config.accountSlots, a);
      count, offenders := count0, [];
      level := MeetingStarts(b0, spammers, config.accountSlots, config.globalSlots);
      while count > config.globalSlots && spammers != {}
        invariant Valid() && count == Count(pending)
        invariant Meeting(b0, View(), offenders, spammers, level, config.accountSlots, config.globalSlots)
        decreases spammers
      {
        SpammersUntouched(b0, View(), offenders, spammers, level, config.accountSlots, config.globalSlots);
        var offender := PopLargest(spammers);
        count, level := Meet(offender, offenders, spammers, count, b0, level);
        offenders, spammers := offenders + [offender], spammers - {offender};
      }
      MeetingEnds(b0, View(), offenders, spammers, level, config.accountSlots, config.globalSlots);
    }

    /**
     Cuts the pending lists when they hold more than the limit together. Offenders lose their highest transactions
     in whole rounds, the largest first, down to a common level that is as high as the limit allows.
     */
    method TruncatePending() returns (ghost level: nat)
      requires Valid()
      modifies `pending, lookup, noncer, priced
      ensures Valid()
      ensures if Count(old(pending)) <= config.globalSlots then View() == old(View())
              else WaterLevel(old(View()), View(), level, config.accountSlots, config.globalSlots)
    {
      hide Levelling, Cuttable, Reaches, NoneFitsAbove, Count, LevelTotal;
      ghost var b0 := View();
      var count := CountLists(pending);
      level := 0;
      if count <= config.globalSlots {
        return;
      }
      var offenders;
      count, offenders, level := MeetSpammers(count);
      if count > config.globalSlots && |offenders| > 0 {
        count, level := LowerTo(offenders, config.accountSlots, count, b0, level);
        LoweringEnds(b0, View(), offenders, level, config.accountSlots, config.globalSlots);
      }
    }

    /** Removes one queued transaction from the pool. */
    method DropQueued(a: Address, tx: Tx, now: nat)
      requires Valid() && Holds(ListOf(queue, a), tx)
      modifies `pending, `queue, `beats, lookup, noncer, priced
      ensures Valid() && View() == old(View()).(queue := SetList(old(queue), a, ListOf(old(queue), a) - {tx.nonce}))
    {
      hide PoolBook.RemoveTx;
      RemoveQueuedIs(View(), a, tx.nonce);
      RemoveTx(tx, true, now);
    }

    /** Removes an account's whole queue from the pool. */
    method DropQueue(a: Address, now: nat)
      requires Valid() && a in queue
      modifies `pending, `queue, `beats, lookup, noncer, priced
      ensures Valid() && View() == old(View()).(queue := SetList(old(queue), a, map[]))
    {
      hide Flat;
      ghost var b := View();
      assert Sound(a, Get(b, a));
      var txs := Flat(queue[a]);
      ghost var left: Items := queue[a];
      SetSame(queue, a);
      for i := 0 to |txs|
        invariant Valid() && View() == b.(queue := SetList(b.queue, a, left))
        invariant Filed(left) && Flat(left) == txs[i..]
      {
        ListingFront(left, txs, i);
        SetTwice(b.queue, a, left, left - {txs[i].nonce});
        DropQueued(a, txs[i], now);
        left := left - {txs[i].nonce};
      }
      ListingEmpty(left);
    }

    /** Removes the highest transactions of an account's queue from the pool. */
    method DropQueueTail(a: Address, drop: nat, now: nat)
      requires Valid() && a in queue && drop <= |queue[a]|
      modifies `pending, `queue, `beats, lookup, noncer, priced
      ensures Valid()
      ensures View() == old(View()).(queue := SetList(old(queue), a, Lowest(old(queue)[a], |old(queue)[a]| - drop)))
    {
      hide Flat, Lowest;
      ghost var b := View();
      assert Sound(a, Get(b, a));
      ghost var list: Items := queue[a];
      var txs := Flat(queue[a]);
      LowestEnds(list);
      SetSame(queue, a);
      var i, left := |txs|, drop;
      while i > 0 && left > 0
        invariant 0 <= left <= i <= |txs| && |txs| - i == drop - left
        invariant Valid() && View() == b.(queue := SetList(b.queue, a, Lowest(list, i)))
      {
        i, left := i - 1, left - 1;
        LowestBack(list, i);
        SetTwice(b.queue, a, Lowest(list, i + 1), Lowest(list, i));
        DropQueued(a, txs[i], now);
      }
    }

    /** The accounts ordered by their heartbeats, oldest first. */
    method OrderByBeat(accounts: set<Address>) returns (order: seq<Address>)
      requires accounts <= beats.Keys
      ensures Distinct(order) && forall a :: a in order <==> a in accounts
      ensures forall i, j :: 0 <= i < j < |order| ==> beats[order[i]] <= beats[order[j]]
    {
      order := [];
      var todo := accounts;
      while todo != {}
        invariant todo <= accounts && Distinct(order) && forall a :: a in accounts <==> a in order || a in todo
        invariant forall a :: a in order ==> a !in todo
        invariant forall i, j :: 0 <= i < j < |order| ==> beats[order[i]] <= beats[order[j]]
        invariant forall a, c :: a in order && c in todo ==> beats[a] <= beats[c]
        decreases todo
      {
        var a := Oldest(todo);
        order, todo := order + [a], todo - {a};
      }
    }

    method Oldest(accounts: set<Address>) returns (a: Address)
      requires accounts != {} && accounts <= beats.Keys
      ensures a in accounts && forall c :: c in accounts ==> beats[a] <= beats[c]
    {
      a :| a in accounts;
      var todo := accounts - {a};
      while todo != {}
        invariant todo <= accounts && a in accounts
        invariant forall c :: c in accounts - todo ==> beats[a] <= beats[c]
        decreases todo
      {
        var c :| c in todo;
        if beats[c] < beats[a] {
          a := c;
        }
        todo := todo - {c};
      }
    }

    /** Drops from the queue of one account: all of it, or its highest nonces if the excess is smaller. */
    method DropFrom(a: Address, drop: nat, now: nat) returns (left: nat)
      requires Valid() && a in queue && drop > 0
      modifies `pending, `queue, `beats, lookup, noncer, priced
      ensures Valid() && left == if |old(queue)[a]| <= drop then drop - |old(queue)[a]| else 0
      ensures View() == old(View()).(queue := SetList(old(queue), a,
                          if |old(queue)[a]| <= drop then map[] else Lowest(old(queue)[a], |old(queue)[a]| - drop)))
    {
      hide Lowest, SetList;
      if |queue[a]| <= drop {
        left := drop - |queue[a]|;
        DropQueue(a, now);
      } else {
        left := 0;
        DropQueueTail(a, drop, now);
      }
    }

    /**
     Drops queued transactions of remote accounts when the queues hold more than the limit together, from the
     account of the latest heartbeat on.
     */
    method TruncateQueue(now: nat) returns (order: seq<Address>)
      requires Valid()
      modifies `pending, `queue, `beats, lookup, noncer, priced
      ensures Valid()
      ensures if Count(old(queue)) <= config.globalQueue then View() == old(View()) && order == []
              else View() == old(View()).(queue := CutQueues(old(queue), order, Count(old(queue)) - config.globalQueue))
      ensures Distinct(order) && forall a :: a in order ==> a in old(queue) && a !in locals
      ensures Count(old(queue)) > config.globalQueue ==> forall a :: a in old(queue) && a !in locals ==> a in order
      ensures old(queue).Keys <= old(beats).Keys
      ensures forall i, j :: 0 <= i < j < |order| ==> old(beats)[order[i]] <= old(beats)[order[j]]
    {
      hide Count, CutQueues;
      order := [];
      var queued := CountLists(queue);
      if queued <= config.globalQueue {
        return;
      }
      order := OrderByBeat(set a | a in queue && a !in locals);
      CutInOrderOf(order, queued - config.globalQueue, now);
    }

    /** Drops from the end of the order until the excess is gone. */
    method CutInOrderOf(order: seq<Address>, excess: nat, now: nat)
      requires Valid() && Distinct(order) && forall a :: a in order ==> a in queue
      modifies `pending, `queue, `beats, lookup, noncer, priced
      ensures Valid() && View() == old(View()).(queue := CutQueues(old(queue), order, excess))
    {
      hide Lowest, SetList, CutQueues, Distinct;
      var addresses, drop := order, excess;
      while drop > 0 && addresses != []
        invariant Valid() && View() == old(View()).(queue := queue)
        invariant Distinct(addresses) && forall a :: a in addresses ==> a in queue
        invariant CutQueues(queue, addresses, drop) == CutQueues(old(queue), order, excess)
        decreases |addresses|
      {
        var a, rest := addresses[|addresses| - 1], addresses[..|addresses| - 1];
        CutUnfold(queue, addresses, drop);
        InitDistinct(addresses);
        ghost var q := queue;
        drop := DropFrom(a, drop, now);
        CutOne(q, queue, a, rest);
        CutUnfold(queue, rest, drop);
        addresses := rest;
      }
      CutUnfold(queue, addresses, drop);
    }

    /** Promotes the queues of the given accounts. */
    method PromoteExecutables(accounts: set<Address>, now: nat)
      requires Valid()
      modifies `pending, `queue, `beats, lookup, noncer, priced
      ensures Valid() && PromotedRound(old(View()), View(), accounts, config.accountQueue)
      ensures PromotionKeeps(old(View()), View(), accounts, config.accountQueue)
    {
      hide PromotedRound, PromoteIn, ReadiesOf, Flat, PromotionKeeps;
      ghost var b := View();
      var todo := accounts;
      PromotedRoundStarts(b, config.accountQueue);
      assert accounts - todo == {};
      while todo != {}
        invariant Valid() && todo <= accounts && PromotedRound(b, View(), accounts - todo, config.accountQueue)
        decreases todo
      {
        var a :| a in todo;
        PromotedRoundStep(b, View(), accounts - todo, config.accountQueue, a);
        var promoted := PromoteAccount(a, now);
        assert accounts - todo + {a} == accounts - (todo - {a});
        todo := todo - {a};
      }
      assert accounts - todo == accounts;
      PromotionHolds(b, View(), accounts, config.accountQueue);
    }

    /** Drops or postpones what can no longer be executed in the pending lists. */
    method DemoteUnexecutables(now: nat)
      requires Valid()
      modifies `pending, `queue, `beats, lookup, priced
      ensures Valid() && DemotedRound(old(View()), View(), old(pending).Keys) && DemotionKeeps(old(View()), View())
    {
      hide DemotedRound, DemoteIn, DemotionKeeps;
      ghost var b := View();
      var accounts := pending.Keys;
      var todo := accounts;
      DemotedRoundStarts(b);
      assert accounts - todo == {};
      while todo != {}
        invariant Valid() && todo <= accounts && DemotedRound(b, View(), accounts - todo)
        decreases todo
      {
        var a :| a in todo;
        DemotedRoundStep(b, View(), accounts - todo, a);
        StillPending(b, View(), accounts - todo, a);
        DemoteAccount(a, now);
        assert accounts - todo + {a} == accounts - (todo - {a});
        todo := todo - {a};
      }
      assert accounts - todo == accounts;
      DemotionHolds(b, View());
    }

    /** Sets every virtual nonce behind the pending list of its account. */
    method RefreshNonces()
      requires Valid()
      modifies noncer
      ensures Valid() && RefreshedRound(old(View()), View(), pending.Keys)
    {
      hide RefreshedRound;
      ghost var b := View();
      var todo := pending.Keys;
      RefreshedRoundStarts(b);
      assert pending.Keys - todo == {};
      while todo != {}
        invariant Valid() && todo <= pending.Keys && RefreshedRound(b, View(), pending.Keys - todo)
        decreases todo
      {
        var a :| a in todo;
        assert Filled(pending, a);
        var n := Next(GreatestKey(pending[a]));
        RefreshedRoundStep(b, View(), pending.Keys - todo, a);
        VirtualAgrees(View(), lookup.all, {}, a, n);
        noncer.Set(a, n);
        assert pending.Keys - todo + {a} == pending.Keys - (todo - {a});
        todo := todo - {a};
      }
      assert pending.Keys - todo == pending.Keys;
    }

    /** Adds a transaction; whatever comes of it, the nonce intervals are kept. */
    method AddOne(tx: Tx, local: bool, now: nat) returns (r: AddResult)
      requires Valid() && Encoded(tx)
      modifies `pending, `queue, `beats, `locals, lookup, noncer, priced
      ensures Valid() && AddStep(old(Snapshot()), Snapshot(), Terms(), tx, local, r)
      ensures Preserves(old(View()), View())
      ensures SmallBook(old(View())) && tx.nonce + 1 < TWO_64 ==> SmallBook(View())
    {
      hide AddEffect, RoomMade, Aborts, Covers, SettledBook, AdriftBook, SmallBook, LooseBook;
      ghost var b := View();
      ghost var refusal := Refusal(Snapshot(), Terms(), tx, local);
      if Validate(tx, world, maxGas, gasPrice, istanbul).None? {
        ValidFits(tx, b, gasPrice, istanbul);
      }
      PreservesSame(b);
      var drop;
      ghost var entries;
      r, drop, entries := Add(tx, local, now);
      if refusal.None? {
        assert AddOutcome(old(Snapshot()), Snapshot(), Terms(), tx, local, r, drop, entries);
        if !r.Aborted? {
          AddPreserves(b, View(), drop, tx, local, config.priceBump, r);
        }
      }
    }

    /**
     Adds transactions in order; the accounts that gained one without replacement are due for promotion. The
     trace shows the pool before and after each addition.
     */
    method AddTxs(txs: seq<Tx>, local: bool, now: nat)
      returns (results: seq<AddResult>, dirty: set<Address>, ghost trace: seq<Snap>)
      requires Valid() && forall tx :: tx in txs ==> Encoded(tx)
      modifies `pending, `queue, `beats, `locals, lookup, noncer, priced
      ensures Valid() && Preserves(old(View()), View())
      ensures SmallBook(old(View())) && (forall tx :: tx in txs ==> tx.nonce + 1 < TWO_64) ==> SmallBook(View())
      ensures |results| <= |txs| && (|results| < |txs| ==> results != [] && results[|results| - 1].Aborted?)
      ensures |trace| == |results| + 1 && Additions(trace, results, txs, local, Terms())
      ensures trace[0] == old(Snapshot()) && trace[|results|] == Snapshot()
      ensures Gained(dirty, results, txs)
    {
      hide AddStep, Additions, SettledBook, AdriftBook, SmallBook, LooseBook;
      results, dirty, trace := [], {}, [Snapshot()];
      ghost var b := View();
      AdditionsStart(Snapshot(), txs, local, Terms());
      PreservesSame(b);
      assert Gained({}, [], txs);
      hide Listed, Preserves, Gained;
      for i := 0 to |txs|
        invariant Valid() && Preserves(b, View())
        invariant SmallBook(b) && (forall tx :: tx in txs ==> tx.nonce + 1 < TWO_64) ==> SmallBook(View())
        invariant |results| == i && forall k :: 0 <= k < i ==> !results[k].Aborted?
        invariant |trace| == i + 1 && Additions(trace, results, txs, local, Terms())
                  && trace[0] == old(Snapshot()) && trace[i] == Snapshot()
        invariant Gained(dirty, results, txs)
      {
        ghost var c := View();
        var r := AddOne(txs[i], local, now);
        PreservesThrough(b, c, View());
        AdditionsGrow(trace, results, txs, local, Terms(), Snapshot(), r);
        GainedGrows(dirty, results, txs, r);
        results, trace := results + [r], trace + [Snapshot()];
        if r == Added(false) {
          dirty := dirty + {txs[i].sender};
        }
        if r.Aborted? {
          return;
        }
      }
    }

    /** Makes another state the current one and forgets the virtual nonces. */
    method Rebase(world: World, maxGas: nat)
      requires Valid()
      modifies `world, `maxGas, noncer
      ensures Valid()
      ensures View() == old(View()).(world := world, maxGas := maxGas, virtual := StateNonces(world))
    {
      SameListsAgree(View(), View().(world := world, maxGas := maxGas, virtual := StateNonces(world)), lookup.all, {});
      this.world, this.maxGas := world, maxGas;
      noncer.Rebase(world);
    }

    /** Moves to a new chain head and pools again what a reorganisation has taken back. */
    method Reset(q: ResetRequest, now: nat) returns (ghost r: Option<seq<Tx>>, ghost trace: seq<Snap>,
        ghost results: seq<AddResult>)
      requires Valid() && Answerable(q)
      modifies `pending, `queue, `beats, `locals, `world, `maxGas, `istanbul, lookup, noncer, priced
      ensures Valid() && ResetEffect(old(Snapshot()), old(Terms()), q, Snapshot(), istanbul, r, trace, results)
      ensures world == old(world) || q.world == Some(world)
      ensures SettledBook(old(View())) && Advances(old(world), q) ==> AdriftBook(View())
      ensures SmallBook(old(View())) && SmallBranch(q) ==> SmallBook(View())
      ensures ResetStanding(q, old(View()), View())
      ensures SettledBook(old(View())) ==> LooseBook(View())
    {
      hide SettledBook, AdriftBook, SmallBook, LooseBook, Additions, LosesStale, AbreastIn;
      trace, results := [], [];
      var reinject := Reinject(q.blocks, q.oldHead, q.newHead);
      r := reinject;
      if reinject.None? || q.world.None? {
        if SettledBook(View()) {
          SettledDrifts(View());
          SettledLoose(View());
        }
        return;
      }
      ReinjectedTxs(q, r.value);
      assert Effective(q);
      trace, results := ResetTo(q, q.world.value, reinject.value, now);
    }

    method RebaseTo(q: ResetRequest, world: World)
      requires Valid() && q.world == Some(world)
      modifies `world, `maxGas, noncer
      ensures Valid()
      ensures View() == old(View()).(world := world, maxGas := q.maxGas, virtual := StateNonces(world))
      ensures SettledBook(old(View())) && Advances(old(this.world), q) ==> AdriftBook(View())
      ensures SmallBook(old(View())) ==> SmallBook(View())
      ensures SettledBook(old(View())) ==> LooseBook(View())
    {
      hide SettledBook, AdriftBook, SmallBook, LooseBook;
      if SettledBook(View()) {
        ResetLoosens(View(), world, q.maxGas);
        if Advances(this.world, q) {
          ResetDrifts(View(), world, q.maxGas);
        }
      }
      RebaseSmall(View(), world, q.maxGas);
      Rebase(world, q.maxGas);
    }

    /** The effective part of a reset. */
    method ResetTo(q: ResetRequest, world: World, reinject: seq<Tx>, now: nat)
      returns (ghost trace: seq<Snap>, ghost results: seq<AddResult>)
      requires Valid() && q.world == Some(world) && forall tx :: tx in reinject ==> Encoded(tx)
      modifies `pending, `queue, `beats, `locals, `world, `maxGas, `istanbul, lookup, noncer, priced
      ensures Valid() && istanbul == q.istanbul && this.world == world
      ensures |trace| == |results| + 1 && Additions(trace, results, reinject, false, old(Terms()))
      ensures |results| < |reinject| ==> results != [] && results[|results| - 1].Aborted?
      ensures trace[0] == old(Snapshot()).(book := old(View()).(world := world, maxGas := q.maxGas,
              virtual := StateNonces(world)))
      ensures trace[|results|] == Snapshot()
      ensures SettledBook(old(View())) && Advances(old(this.world), q) ==> AdriftBook(View())
      ensures SmallBook(old(View())) && (forall tx :: tx in reinject ==> tx.nonce + 1 < TWO_64) ==> SmallBook(View())
      ensures forall a: Address {:trigger AbreastIn(View(), a)} ::
                AbreastIn(View(), a) <==> !LosesStale(old(View()), View(), a)
      ensures SettledBook(old(View())) ==> LooseBook(View())
    {
      hide SettledBook, AdriftBook, SmallBook, LooseBook, Additions, Advances, SteadyBook, LosesStale, AbreastIn;
      RebaseTo(q, world);
      ghost var c := View();
      var outcomes, dirty;
      outcomes, dirty, trace := AddTxs(reinject, false, now);
      RebasedStanding(old(View()), c, View());
      results := outcomes;
      istanbul := q.istanbul;
    }

    /**
     One background run: an optional reset, promotion of the queues, demotion after a reset, and the limits. If the
     reset lowers no nonce, all accounts are settled again afterwards.
     */
    method RunReorg(reset: Option<ResetRequest>, dirty: set<Address>, now: nat) returns (ghost st: Stages)
      requires Valid() && (reset.Some? ==> Answerable(reset.value))
      modifies `pending, `queue, `beats, `locals, `world, `maxGas, `istanbul, lookup, noncer, priced
      ensures Valid() && st.end == View()
      ensures world == old(world) || (reset.Some? && reset.value.world == Some(world))
      ensures reset.None? ==> st.start == old(View()) && RunSteps(st, dirty, false, config) && istanbul == old(istanbul)
                              && RunKeeps(st, false, config)
      ensures reset.Some? ==>
                && RunSteps(st, st.start.queue.Keys, true, config)
                && RunKeeps(st, true, config)
                && ResetsTo(old(Snapshot()), old(Terms()), reset.value, st.start, istanbul)
                && ResetStanding(reset.value, old(View()), st.start)
      ensures SettledBook(old(View())) && SmallBook(old(View()))
              && (reset.Some? ==> Advances(old(world), reset.value) && SmallBranch(reset.value)) ==>
                SettledBook(View()) && SmallBook(View()) && SameStanding(st.start, View())
      ensures reset.Some? && SettledBook(old(View())) && SmallBook(old(View())) && SmallBranch(reset.value) ==>
                SettlesUnlessStuck(st, config)
    {
      hide *;
      st := RunPhases(reset, dirty, now);
      RunLaw(st, if reset.Some? then st.start.queue.Keys else dirty, reset.Some?, config);
    }

    /** The phases of a run, and what they make of the nonce intervals. */
    method RunPhases(reset: Option<ResetRequest>, dirty: set<Address>, now: nat) returns (ghost st: Stages)
      requires Valid() && (reset.Some? ==> Answerable(reset.value))
      modifies `pending, `queue, `beats, `locals, `world, `maxGas, `istanbul, lookup, noncer, priced
      ensures Valid() && st.end == View() && SoundBook(st.start)
      ensures world == old(world) || (reset.Some? && reset.value.world == Some(world))
      ensures reset.None? ==> st.start == old(View()) && RunSteps(st, dirty, false, config) && istanbul == old(istanbul)
      ensures reset.Some? ==>
                && RunSteps(st, st.start.queue.Keys, true, config)
                && ResetsTo(old(Snapshot()), old(Terms()), reset.value, st.start, istanbul)
                && ResetStanding(reset.value, old(View()), st.start)
      ensures SettledBook(old(View())) && SmallBook(old(View()))
              && (reset.Some? ==> Advances(old(world), reset.value) && SmallBranch(reset.value)) ==>
                SettledBook(View()) && SmallBook(View()) && SameStanding(st.start, View())
      ensures reset.Some? && SettledBook(old(View())) && SmallBook(old(View())) && SmallBranch(reset.value) ==>
                SettlesUnlessStuck(st, config)
    {
      hide SettledBook, AdriftBook, SmallBook, LooseBook, TrimmedBook, ResetEffect, ResetsTo, Promotion, Demotion,
           Truncation, QueueLimit, Refreshment, ResetStanding, SameStanding, SettlesUnlessStuck, SoundBook, Agrees,
           Accounts;
      ghost var fine := SettledBook(View()) && SmallBook(View())
                        && (reset.Some? ==> Advances(world, reset.value) && SmallBranch(reset.value));
      ghost var start, promoted, demoted, levelled, limited;
      if reset.Some? {
        ghost var r, trace, results := Reset(reset.value, now);
        start := View();
        ResetsToThis(old(Snapshot()), old(Terms()), reset.value, Snapshot(), istanbul, r, trace, results);
        promoted := RunReset(now, fine);
      } else {
        start := View();
        RunDirty(dirty, now, fine);
        promoted := View();
      }
      demoted := View();
      levelled, limited := RunLimits(now, fine);
      if fine {
        StandingThrough(start, demoted, View());
      }
      st := Stages(start, promoted, demoted, levelled, limited, View());
      if reset.Some? && SettledBook(old(View())) && SmallBook(old(View())) && SmallBranch(reset.value) {
        RunSettlesIff(st, config);
      }
    }

    /** The part of a run that promotes some accounts. */
    method RunDirty(dirty: set<Address>, now: nat, ghost fine: bool)
      requires Valid() && (fine ==> SettledBook(View()) && SmallBook(View()))
      modifies `pending, `queue, `beats, lookup, noncer, priced
      ensures Valid() && Promotion(old(View()), View(), dirty, config.accountQueue)
      ensures fine ==> TrimmedBook(View()) && SmallBook(View()) && SameStanding(old(View()), View())
    {
      hide SettledBook, SmallBook, TrimmedBook, PromotedRound, SameStanding;
      ghost var b := View();
      PromoteExecutables(dirty, now);
      if fine {
        RoundSettled(b, View(), dirty, config.accountQueue);
        RoundPromotedSmall(b, View(), dirty, config.accountQueue);
        RoundPromotedStanding(b, View(), dirty, config.accountQueue);
        SettledTrims(View());
      }
    }

    /** The part of a run after a reset: all queues are promoted and all pending lists checked. */
    method RunReset(now: nat, ghost fine: bool) returns (ghost promoted: Book)
      requires Valid() && (fine ==> AdriftBook(View()) && SmallBook(View()))
      modifies `pending, `queue, `beats, lookup, noncer, priced
      ensures Valid() && Promotion(old(View()), promoted, old(queue).Keys, config.accountQueue)
              && Demotion(promoted, View())
      ensures fine ==> TrimmedBook(View()) && SmallBook(View()) && SameStanding(old(View()), View())
    {
      hide AdriftBook, SmallBook, TrimmedBook, LiftedBook, PromotedRound, DemotedRound, SameStanding;
      ghost var b := View();
      var accounts := queue.Keys;
      PromoteExecutables(accounts, now);
      promoted := View();
      if fine {
        RoundLifts(b, promoted, accounts, config.accountQueue);
        RoundPromotedSmall(b, promoted, accounts, config.accountQueue);
        RoundPromotedStanding(b, promoted, accounts, config.accountQueue);
      }
      DemoteUnexecutables(now);
      if fine {
        RoundTrims(promoted, View());
        RoundDemotedSmall(promoted, View(), promoted.pending.Keys);
        RoundDemotedStanding(promoted, View(), promoted.pending.Keys);
        StandingThrough(b, promoted, View());
      }
    }

    /** Both limits are enforced. */
    method RunTruncation(now: nat, ghost fine: bool) returns (ghost levelled: Book)
      requires Valid() && (fine ==> TrimmedBook(View()) && SmallBook(View()))
      modifies `pending, `queue, `beats, lookup, noncer, priced
      ensures Valid() && Truncation(old(View()), levelled, config) && QueueLimit(levelled, View(), config)
      ensures fine ==> TrimmedBook(View()) && SmallBook(View()) && SameStanding(old(View()), View())
    {
      hide SmallBook, TrimmedBook, Levelling, Count, CutQueues, LevelTotal, Distinct, AbreastIn;
      ghost var b := View();
      ghost var level := TruncatePending();
      levelled := View();
      if fine && Count(b.pending) > config.globalSlots {
        LevelledTrimmed(b, levelled, level);
        LevelledSmall(b, levelled, level);
      }
      var order := TruncateQueue(now);
      if Count(levelled.queue) > config.globalQueue {
        assert RemoteOrder(levelled, order);
        if fine {
          CutKeeps(levelled, order, Count(levelled.queue) - config.globalQueue);
        }
      }
    }

    /** The end of a run: both limits are enforced and the virtual nonces set. */
    method RunLimits(now: nat, ghost fine: bool) returns (ghost levelled: Book, ghost limited: Book)
      requires Valid() && (fine ==> TrimmedBook(View()) && SmallBook(View()))
      modifies `pending, `queue, `beats, lookup, noncer, priced
      ensures Valid() && Truncation(old(View()), levelled, config) && QueueLimit(levelled, limited, config)
      ensures Refreshment(limited, View())
      ensures fine ==> SettledBook(View()) && SmallBook(View()) && SameStanding(old(View()), View())
    {
      hide SettledBook, SmallBook, TrimmedBook, RefreshedRound, Truncation, QueueLimit, SameStanding;
      ghost var b := View();
      levelled := RunTruncation(now, fine);
      limited := View();
      RefreshNonces();
      if fine {
        RoundSettles(limited, View());
        RoundRefreshedSmall(limited, View(), limited.pending.Keys);
        RoundRefreshedStanding(limited, View());
        StandingThrough(b, limited, View());
      }
    }

    /** Raises or lowers the price limit; remote transactions below it leave the pool. */
    method SetGasPrice(price: nat, now: nat) returns (drop: seq<Tx>)
      requires Valid()
      modifies `gasPrice, `pending, `queue, `beats, lookup, noncer, priced
      ensures Valid() && Preserves(old(View()), View()) && (SmallBook(old(View())) ==> SmallBook(View()))
      ensures gasPrice == price && View() == RemoveAll(old(View()), drop)
      ensures forall tx :: tx in drop <==> tx in old(lookup.all) && tx.sender !in locals && tx.price < price
      ensures lookup.all == old(lookup.all) - Members(drop)
    {
      hide SettledBook, AdriftBook, SmallBook, RemoveAll;
      gasPrice := price;
      drop := priced.Cap(price, lookup.all, locals);
      RemoveAllKeeps(View(), drop);
      RemoveDropped(drop, now);
    }

    /** Drops the queues of remote accounts whose heartbeat is older than the lifetime. */
    method Evict(now: nat, lifetime: nat)
      requires Valid()
      modifies `pending, `queue, `beats, lookup, noncer, priced
      ensures Valid() && Preserves(old(View()), View()) && (SmallBook(old(View())) ==> SmallBook(View()))
      ensures old(queue).Keys <= old(beats).Keys
      ensures View() == old(View()).(queue := old(queue) - Expired(old(queue), old(beats), locals, now, lifetime))
      ensures EvictKeeps(old(View()), View(), old(beats), now, lifetime)
    {
      hide SettledBook, AdriftBook, SmallBook, LooseBook, SteadyBook, Expired, Preserves, EvictKeeps;
      EvictLaw(View(), beats, now, lifetime);
      ghost var b, gone := View(), {};
      var accounts := Expired(queue, beats, locals, now, lifetime);
      assert accounts <= queue.Keys by { ExpiredQueued(queue, beats, locals, now, lifetime); }
      var todo := accounts;
      PreservesSame(b);
      assert b.queue - gone == b.queue;
      while todo != {}
        invariant Valid() && todo <= accounts && gone == accounts - todo && View() == b.(queue := b.queue - gone)
        invariant Preserves(b, View()) && (SmallBook(b) ==> SmallBook(View()))
        decreases todo
      {
        var a :| a in todo;
        assert b.queue - (gone + {a}) == (b.queue - gone) - {a};
        ghost var c := View();
        DropPreserves(c, a);
        DropQueue(a, now);
        PreservesThrough(b, c, View());
        todo, gone := todo - {a}, gone + {a};
      }
    }

    ghost function Now(): Moment
      reads this, lookup, noncer
    {
      Moment(Snapshot(), gasPrice, istanbul, beats)
    }

    /**
     Serves submissions, runs, price changes and evictions in any order. The trace shows the pool before and after each
     event, which did what EventEffect says. Whatever they are, the lookup, the lists and the price heap agree
     afterwards. If no state lowers a nonce, every account is settled after every event, and abreast of the state as the
     history says; and if the resets all move to descendants, every account is abreast after every event.
     */
    method Serve(events: seq<Event>) returns (ghost trace: seq<Moment>, ghost starts: seq<Book>)
      requires Valid() && forall e :: e in events ==> Acceptable(e)
      modifies this, lookup, noncer, priced
      ensures Valid() && |starts| == |events| && |trace| == |events| + 1 && History(events, trace, starts, config)
      ensures trace[0] == old(Now()) && trace[|events|] == Now()
      ensures SettledBook(old(View())) && SmallBook(old(View())) && Monotone(old(world), events)
              && SmallEvents(events) ==>
                forall k :: 0 <= k <= |events| ==> Peaceful(events, trace, starts, k)
      ensures SettledBook(old(View())) && SmallBook(old(View())) && Monotone(old(world), events)
              && SmallEvents(events) && AbreastBook(old(View())) && AllOnward(events) ==>
                forall k :: 0 <= k <= |events| ==> AbreastBook(trace[k].snap.book)
    {
      hide SettledBook, AdriftBook, SmallBook, Standing, EventStanding, History, EventEffect, AllOnward, AbreastBook,
           Peaceful;
      ghost var fine := SettledBook(View()) && SmallBook(View()) && Monotone(world, events) && SmallEvents(events);
      trace, starts := [Now()], [];
      HistoryStarts(events, Now(), config);
      if fine {
        PeaceStarts(events, Now());
      }
      for i := 0 to |events|
        invariant Valid() && (fine ==> SettledBook(View()) && SmallBook(View()))
        invariant Current(old(world), events, i, world)
        invariant |starts| == i && |trace| == i + 1 && History(events, trace, starts, config)
        invariant trace[0] == old(Now()) && trace[i] == Now()
        invariant fine ==> forall k :: 0 <= k <= i ==> Peaceful(events, trace, starts, k)
      {
        if fine {
          NextAdvances(old(world), events, i, world);
        }
        ghost var start := ServeOne(events[i], fine);
        HistoryGrows(events, trace, starts, config, start, Now());
        if fine {
          PeaceGrows(events, trace, starts, start, Now());
        }
        trace, starts := trace + [Now()], starts + [start];
      }
      if fine && AbreastBook(old(View())) && AllOnward(events) {
        PeaceAbreast(events, trace, starts, config);
      }
    }

    method ServeOne(e: Event, ghost fine: bool) returns (ghost start: Book)
      requires Valid() && Acceptable(e)
      requires fine ==> SettledBook(View()) && SmallBook(View()) && Harmless(world, e)
      modifies this, lookup, noncer, priced
      ensures Valid() && (fine ==> SettledBook(View()) && SmallBook(View()))
      ensures EventEffect(e, old(Now()), start, Now(), config)
      ensures fine ==> EventStanding(e, old(View()), start, View())
      ensures world == old(world) || (e.Run? && e.reset.Some? && e.reset.value.world == Some(world))
    {
      hide SettledBook, AdriftBook, SmallBook, LooseBook, RunSteps, Additions, SteadyBook, Effective, LosesStale,
           AbreastIn, RemoveAll, ResetsTo, Expired, EventStanding, SoundBook, Agrees, SettlesUnlessStuck, ResetStanding;
      start := View();
      ghost var m, b := Now(), View();
      match e {
        case Submit(now, txs, local) =>
          ghost var trace;
          var results, dirty;
          results, dirty, trace := AddTxs(txs, local, now);
          assert Submitted(m.snap, Snapshot(), RulesAt(m, config), txs, local, trace, results);
        case Run(now, reset, dirty) =>
          ghost var st := RunReorg(reset, dirty, now);
          start := st.start;
          assert reset.Some? ==> reset.value.newHead.HashOf?;
          assert RanTo(m, reset, dirty, start, Now(), config, st);
          if fine {
            RunStanding(e, b, st);
          }
        case Price(now, price) =>
          var drop := SetGasPrice(price, now);
          assert Repriced(m.snap, Snapshot(), price, drop);
        case Expire(now, lifetime) =>
          Evict(now, lifetime);
      }
      if fine && !e.Run? {
        SettledStanding(b, View());
        QuietStanding(e, b, start, View());
      }
    }
  }

  lemma QuietStanding(e: Event, b: Book, start: Book, b': Book)
    requires !e.Run? && SameStanding(b, b')
    ensures EventStanding(e, b, start, b')
  {
  }

  lemma RunStanding(e: Event, b: Book, st: Stages)
    requires e.Run? && SameStanding(st.start, st.end)
    requires if e.reset.Some? then ResetStanding(e.reset.value, b, st.start) else st.start == b
    ensures EventStanding(e, b, st.start, st.end)
  {
    hide AbreastIn, LosesStale, Effective;
    if Resets(e) {
      forall a: Address
        ensures AbreastIn(st.end, a) <==> !LosesStale(b, st.start, a)
      {
        assert AbreastIn(st.end, a) <==> AbreastIn(st.start, a);
      }
    }
  }

  /** All accounts are settled after k events, and abreast of the state as the history says. */
  ghost predicate Peaceful(events: seq<Event>, trace: seq<Moment>, starts: seq<Book>, k: nat) {
    && Standing(events, trace, starts, k) && Complete(trace[k].snap.book)
    && SettledBook(trace[k].snap.book) && SmallBook(trace[k].snap.book)
  }

  lemma HistoryStarts(events: seq<Event>, m: Moment, config: Config)
    ensures History(events, [m], [], config)
  {
  }

  lemma PeaceStarts(events: seq<Event>, m: Moment)
    requires Complete(m.snap.book) && SettledBook(m.snap.book) && SmallBook(m.snap.book)
    ensures Peaceful(events, [m], [], 0)
  {
    StandingStarts(events, m);
  }

  lemma PeaceGrows(events: seq<Event>, trace: seq<Moment>, starts: seq<Book>, start: Book, m: Moment)
    requires |starts| < |events| && |trace| == |starts| + 1
    requires forall k :: 0 <= k <= |starts| ==> Peaceful(events, trace, starts, k)
    requires EventStanding(events[|starts|], trace[|starts|].snap.book, start, m.snap.book)
    requires Complete(m.snap.book) && SettledBook(m.snap.book) && SmallBook(m.snap.book)
    ensures forall k :: 0 <= k <= |starts| + 1 ==> Peaceful(events, trace + [m], starts + [start], k)
  {
    hide SettledBook, SmallBook, EventStanding, Standing, Complete;
    forall k | 0 <= k <= |starts| + 1
      ensures Peaceful(events, trace + [m], starts + [start], k)
    {
      if k <= |starts| {
        assert Peaceful(events, trace, starts, k);
        StandingStays(events, trace, starts, k, m, start);
      } else {
        assert Peaceful(events, trace, starts, |starts|);
        StandingStep(events, trace, starts, |starts|, start, m);
      }
    }
  }

  lemma PeaceAbreast(events: seq<Event>, trace: seq<Moment>, starts: seq<Book>, config: Config)
    requires History(events, trace, starts, config) && AllOnward(events)
    requires forall k :: 0 <= k <= |starts| ==> Peaceful(events, trace, starts, k)
    requires |trace| == |starts| + 1 && AbreastBook(trace[0].snap.book)
    ensures forall k :: 0 <= k <= |starts| ==> AbreastBook(trace[k].snap.book)
  {
    hide SettledBook, SmallBook, Standing, History, AllOnward, AbreastBook;
    forall k | 0 <= k <= |starts|
      ensures AbreastBook(trace[k].snap.book)
    {
      assert Peaceful(events, trace, starts, k);
      OnwardAbreast(events, trace, starts, config, k);
    }
  }

  /** A transaction of the largest size, which fills four slots. */
  function Big(sender: Address, price: nat): Tx {
    Tx(sender, 0, price, 30000, 0, TX_MAX_SIZE, [], false, 0)
  }

  /**
   A pool with room for two transactions holds two of the largest size. A dearer one of that size asks for ten slots to
   be freed, more than there are entries, and the pool aborts.
   */
  method AbortExample() returns (pool: TxPool, r: AddResult)
    ensures r.Aborted? && pool.Valid()
  {
    hide Refusal, SoundBook, Agrees, Accounts, Big, Full, Encoded, Excess;
    pool := TwoBigPool();
    BigDiffer();
    BigPasses(pool.Snapshot(), pool.Terms(), 2, 2);
    TwoBig(pool.Snapshot(), pool.config);
    r := AbortsOn(pool, Big(2, 2));
  }

  method AbortsOn(pool: TxPool, tx: Tx) returns (r: AddResult)
    requires pool.Valid() && Encoded(tx) && Refusal(pool.Snapshot(), pool.Terms(), tx, false) == None
    requires Full(pool.lookup.all, pool.config) && pool.locals == {}
    requires Excess(pool.lookup.all, pool.config, tx) > |pool.priced.items|
    modifies pool, pool.lookup, pool.noncer, pool.priced
    ensures r.Aborted? && pool.Valid() && pool.Snapshot() == old(pool.Snapshot())
  {
    hide Refusal, SoundBook, Agrees, Accounts, Full, Encoded, Excess, AddEffect, RoomMade;
    var drop;
    ghost var entries;
    r, drop, entries := pool.Add(tx, false, 0);
  }

  method TwoBigPool() returns (pool: TxPool)
    ensures fresh(pool) && fresh(pool.lookup) && fresh(pool.noncer) && fresh(pool.priced)
    ensures pool.Valid() && pool.lookup.all == {Big(0, 1), Big(1, 1)} && |pool.priced.items| <= 2 && pool.locals == {}
    ensures pool.Terms() == Rules(Config(1, 1, 1, 1, 1), 0, false)
    ensures pool.maxGas == 30000 && 2 in pool.world && pool.world[2] == Funds(0, 100000)
  {
    hide Refusal, SoundBook, Agrees, Accounts, SettledBook, SmallBook, AbreastBook, Full, Encoded, PoolBook.Insert;
    var world: World := map[0 := Funds(0, 100000), 1 := Funds(0, 100000), 2 := Funds(0, 100000)];
    pool := new TxPool(Config(1, 1, 1, 1, 1), {}, 0, world, 30000, false);
    NotFull({}, Big(0, 1), pool.config);
    BigPasses(pool.Snapshot(), pool.Terms(), 0, 1);
    AddFirst(pool, Big(0, 1));
    assert pool.lookup.all == {Big(0, 1)};
    NotFull({Big(0, 1)}, Big(0, 1), pool.config);
    BigPasses(pool.Snapshot(), pool.Terms(), 1, 1);
    AddFirst(pool, Big(1, 1));
    assert pool.lookup.all == {Big(0, 1), Big(1, 1)};
  }

  lemma NotFull(all: set<Tx>, tx: Tx, config: Config)
    requires all <= {tx} && config.globalSlots + config.globalQueue == 2
    ensures !Full(all, config)
  {
    SubsetSize(all, {tx});
  }

  lemma BigPasses(s: Snap, rules: Rules, sender: Address, price: nat)
    requires rules.gasPrice == 0 && !rules.istanbul && s.book.maxGas == 30000 && 0 < price <= 2
    requires sender in s.book.world && s.book.world[sender] == Funds(0, 100000) && Big(sender, price) !in s.all
    ensures Encoded(Big(sender, price))
    ensures !Full(s.all, rules.config) || (exists other :: other in s.all && other.price < price) ==>
              Refusal(s, rules, Big(sender, price), false) == None
  {
    assert Transition.ExactIntrinsicGas([], false, true, false) == 21000;
  }

  lemma BigDiffer()
    ensures Big(2, 2) !in {Big(0, 1), Big(1, 1)} && Big(0, 1).price < 2
  {
  }

  lemma BigSlots(sender: Address, price: nat)
    ensures NumSlots(Big(sender, price)) == 4
  {
  }

  lemma TwoBig(s: Snap, config: Config)
    requires s.all == {Big(0, 1), Big(1, 1)} && config.globalSlots + config.globalQueue == 2
    ensures Full(s.all, config) && Big(0, 1) in s.all && Excess(s.all, config, Big(2, 2)) == 10
  {
    var a, b := Big(0, 1), Big(1, 1);
    assert a != b && |s.all| == 2;
    BigSlots(0, 1);
    BigSlots(1, 1);
    BigSlots(2, 2);
    SlotSumRemove(s.all, a);
    assert s.all - {a} == {b};
    SlotSumRemove({b}, b);
    assert {b} - {b} == {};
  }

  /** Adds the first transaction of an account to a pool that is not full. */
  method AddFirst(pool: TxPool, tx: Tx)
    requires pool.Valid() && Encoded(tx) && tx.sender !in pool.queue && tx.sender !in pool.pending
    requires Refusal(pool.Snapshot(), pool.Terms(), tx, false) == None && !Full(pool.lookup.all, pool.config)
    modifies pool, pool.lookup, pool.noncer, pool.priced
    ensures pool.Valid() && pool.lookup.all == old(pool.lookup.all) + {tx}
    ensures pool.View() == Insert(old(pool.View()), tx) && pool.Terms() == old(pool.Terms())
    ensures pool.queue.Keys == old(pool.queue.Keys) + {tx.sender} && pool.pending == old(pool.pending)
    ensures pool.world == old(pool.world) && pool.maxGas == old(pool.maxGas) && pool.locals == old(pool.locals)
    ensures |pool.priced.items| <= |old(pool.priced.items)| + 1
  {
    ghost var b := pool.View();
    var r, drop;
    ghost var entries;
    r, drop, entries := pool.Add(tx, false, 0);
    FirstQueued(b, pool.View(), old(pool.lookup.all), pool.lookup.all, drop, tx, pool.config.priceBump, r);
  }

  lemma FirstQueued(b: Book, b': Book, all: set<Tx>, all': set<Tx>, drop: seq<Tx>, tx: Tx, priceBump: nat, r: AddResult)
    requires SoundBook(b) && Agrees(b, all, {}) && Agrees(b', all', {}) && drop == []
    requires tx.sender !in b.queue && tx.sender !in b.pending
    requires AddEffect(b, b', drop, tx, false, priceBump, r)
    ensures b' == Insert(b, tx) && all' == all + {tx}
    ensures b'.queue.Keys == b.queue.Keys + {tx.sender} && b'.pending == b.pending
  {
    assert RemoveAll(b, drop) == b;
    assert b' == Insert(b, tx).(locals := b.locals) == Insert(b, tx);
    InsertQueued(b, tx);
    forall t
      ensures t in all' <==> t in all + {tx}
    {
      var before, after := Pooled(b, t), Pooled(b', t);
      PutPooled(b, tx.sender, Enqueue(Get(b, tx.sender), tx), t);
    }
  }

  lemma DiscardsPooled(drop: seq<Tx>, all: set<Tx>, locals: set<Address>, items: seq<Tx>, items': seq<Tx>, want: int)
    requires Discards(drop, all, locals, want) && Parts(items, items', drop, all, locals)
    ensures multiset(drop) <= multiset(items)
  {
    PartsBound(items, items', drop, all, locals);
  }

  /** Adds up the lengths of the lists. */
  method CountLists(m: Lists) returns (count: nat)
    ensures count == Count(m)
  {
    count := 0;
    var todo := m.Keys;
    while todo != {}
      invariant todo <= m.Keys && count + SumUp(todo, SizeOf(m)) == Count(m)
      decreases todo
    {
      var a :| a in todo;
      SumRemove(todo, SizeOf(m), a);
      count := count + |m[a]|;
      todo := todo - {a};
    }
  }

  lemma NoneRemovedYet(b: Book, txs: seq<Tx>)
    requires Complete(b)
    ensures RemoveAll(b, txs[..0]) == b && Members(txs[..0]) == {} && txs[..|txs|] == txs
  {
  }

  lemma MembersStep(txs: seq<Tx>, i: nat)
    requires i < |txs|
    ensures Members(txs[..i + 1]) == Members(txs[..i]) + {txs[i]}
  {
    PrefixGrows(txs, i);
  }

  lemma PrefixGrows(txs: seq<Tx>, i: nat)
    requires i < |txs|
    ensures txs[..i] + [txs[i]] == txs[..i + 1]
  {
  }

  lemma Shrinks(all: set<Tx>, gone: set<Tx>)
    requires gone <= all
    ensures |all - gone| == |all| - |gone|
  {
    assert all == (all - gone) + gone;
  }
}
