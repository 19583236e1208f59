/**
 core/state_processor.go: the transactions of a block are applied in order against one gas pool; system
 transactions are set aside for the consensus engine, which finalises the block afterwards.
 */
module Processor {
  import opened Common
  import opened Transition

  /** A block transaction as the engine and the signer classify it. */
  datatype BlockTx = SystemTx | EngineError | BadSignature | Ordinary(msg: Message)

  datatype Receipt = Receipt(failed: bool, cumulativeGas: nat, gasUsed: uint64)

  /** What has been accumulated after some of the transactions. */
  datatype Progress = Progress(world: World, pool: uint64, usedGas: nat, receipts: seq<Receipt>, common: seq<nat>,
                               system: seq<nat>)

  ghost function Next(p: Progress, i: nat, tx: BlockTx, rules: Rules, evm: Evm): Option<Progress>
    requires EvmSound(evm)
  {
    match tx
    case SystemTx => Some(p.(system := p.system + [i]))
    case EngineError => None
    case BadSignature => None
    case Ordinary(msg) =>
      match Apply(p.world, p.pool, msg, rules, evm)
      case Rejected(_, _, _) => None
      case Executed(world, pool, gas, failed) =>
        var usedGas := p.usedGas + gas as nat;
        Some(Progress(world, pool, usedGas, p.receipts + [Receipt(failed, usedGas, gas)], p.common + [i], p.system))
  }

  ghost function Fold(p: Progress, txs: seq<BlockTx>, i: nat, rules: Rules, evm: Evm): Option<Progress>
    requires EvmSound(evm) && i <= |txs|
    decreases |txs| - i
  {
    if i == |txs| then Some(p)
    else
      var next := Next(p, i, txs[i], rules, evm);
      if next.None? then None else Fold(next.value, txs, i + 1, rules, evm)
  }

  /** The progress after the first i transactions. */
  ghost function After(w: World, gasLimit: uint64, txs: seq<BlockTx>, i: nat, rules: Rules, evm: Evm): Option<Progress>
    requires EvmSound(evm) && i <= |txs|
  {
    if i == 0 then Some(Start(w, gasLimit))
    else
      var p := After(w, gasLimit, txs, i - 1, rules, evm);
      if p.None? then None else Next(p.value, i - 1, txs[i - 1], rules, evm)
  }

  /** What the virtual machine moved to an account in the first i transactions. */
  ghost function Moved(w: World, gasLimit: uint64, txs: seq<BlockTx>, i: nat, rules: Rules, evm: Evm, a: Address): int
    requires EvmSound(evm) && i <= |txs|
  {
    if i == 0 then 0
    else
      var p := After(w, gasLimit, txs, i - 1, rules, evm);
      Moved(w, gasLimit, txs, i - 1, rules, evm, a)
      + if p.Some? && txs[i - 1].Ordinary? then MachineMove(p.value.world, txs[i - 1].msg, rules, evm, a) else 0
  }

  /** The fee of a receipt, if the given payer, or whoever it is, paid it. */
  ghost function FeeAt(receipt: Receipt, tx: BlockTx, payer: Option<Address>): nat {
    if tx.Ordinary? && (payer.None? || tx.msg.from == payer.value) then receipt.gasUsed as nat * tx.msg.gasPrice else 0
  }

  /** The fees of the receipts, charged gas times gas price, all of them or those of one payer. */
  ghost function Fees(receipts: seq<Receipt>, common: seq<nat>, txs: seq<BlockTx>, payer: Option<Address>): nat
    requires |receipts| == |common| && forall k :: 0 <= k < |common| ==> common[k] < |txs|
  {
    if receipts == [] then 0
    else
      var last := |receipts| - 1;
      Fees(receipts[..last], common[..last], txs, payer) + FeeAt(receipts[last], txs[common[last]], payer)
  }

  /** An account has what the machine moved to it, less its fees, and all fees if it is their recipient. */
  ghost predicate BalanceAt(p: Progress, w: World, gasLimit: uint64, txs: seq<BlockTx>, i: nat, rules: Rules, evm: Evm,
                            a: Address)
    requires EvmSound(evm) && i <= |txs|
    requires |p.receipts| == |p.common| && forall k :: 0 <= k < |p.common| ==> p.common[k] < |txs|
  {
    BalanceOf(p.world.balances, a) ==
    BalanceOf(w.balances, a) + Moved(w, gasLimit, txs, i, rules, evm, a)
    + (if a == (if rules.sonium then rules.feeRecorder else rules.coinbase) then Fees(p.receipts, p.common, txs, None)
       else 0)
    - Fees(p.receipts, p.common, txs, Some(a))
  }

  ghost function Start(w: World, gasLimit: uint64): Progress {
    Progress(w, gasLimit, 0, [], [], [])
  }

  /** Positions below i of the transactions that are, or are not, system transactions. */
  ghost function Positions(txs: seq<BlockTx>, i: nat, system: bool): seq<nat>
    requires i <= |txs|
  {
    if i == 0 then []
    else if txs[i - 1].SystemTx? == system then Positions(txs, i - 1, system) + [i - 1]
    else Positions(txs, i - 1, system)
  }

  /** Each receipt's cumulative gas is that of its predecessor plus its own; the last one is the gas of the block. */
  ghost predicate ReceiptsAddUp(receipts: seq<Receipt>, usedGas: nat)
    decreases |receipts|
  {
    if receipts == [] then usedGas == 0
    else
      var last := receipts[|receipts| - 1];
      && last.cumulativeGas == usedGas && last.gasUsed as nat <= usedGas
      && ReceiptsAddUp(receipts[..|receipts| - 1], usedGas - last.gasUsed as nat)
  }

  /** Totals, receipts and positions. */
  ghost predicate AddsUp(p: Progress, w: World, gasLimit: uint64, txs: seq<BlockTx>, i: nat)
    requires i <= |txs|
  {
    && Total(p.world.balances) == Total(w.balances)
    && p.pool as int + p.usedGas == gasLimit as int
    && ReceiptsAddUp(p.receipts, p.usedGas)
    && p.common == Positions(txs, i, false) && p.system == Positions(txs, i, true)
    && |p.receipts| == |p.common| && forall k :: 0 <= k < |p.common| ==> p.common[k] < i
  }

  /** What holds after each transaction of a block that started in world w. */
  ghost predicate Accounted(p: Progress, w: World, gasLimit: uint64, txs: seq<BlockTx>, i: nat, rules: Rules, evm: Evm)
    requires EvmSound(evm) && i <= |txs|
  {
    && AddsUp(p, w, gasLimit, txs, i)
    && After(w, gasLimit, txs, i, rules, evm) == Some(p)
    && forall a: Address {:trigger BalanceAt(p, w, gasLimit, txs, i, rules, evm, a)} ::
         BalanceAt(p, w, gasLimit, txs, i, rules, evm, a)
  }

  lemma FeesStep(receipts: seq<Receipt>, common: seq<nat>, txs: seq<BlockTx>, payer: Option<Address>, r: Receipt,
                 i: nat)
    requires |receipts| == |common| && i < |txs| && forall k :: 0 <= k < |common| ==> common[k] < i
    ensures forall k :: 0 <= k < |common + [i]| ==> (common + [i])[k] < |txs|
    ensures Fees(receipts + [r], common + [i], txs, payer) ==
            Fees(receipts, common, txs, payer) + FeeAt(r, txs[i], payer)
  {
    assert (receipts + [r])[..|receipts|] == receipts && (common + [i])[..|common|] == common;
  }

  lemma NextBalance(p: Progress, w: World, gasLimit: uint64, txs: seq<BlockTx>, i: nat, rules: Rules, evm: Evm,
                    p': Progress, a: Address)
    requires EvmSound(evm) && i < |txs| && Accounted(p, w, gasLimit, txs, i, rules, evm)
    requires Next(p, i, txs[i], rules, evm) == Some(p') && |p'.receipts| == |p'.common|
    requires forall k :: 0 <= k < |p'.common| ==> p'.common[k] < |txs|
    ensures BalanceAt(p', w, gasLimit, txs, i + 1, rules, evm, a)
  {
    hide Fees, ReceiptsAddUp, Positions, Apply;
    assert BalanceAt(p, w, gasLimit, txs, i, rules, evm, a);
    if txs[i].Ordinary? {
      var m := txs[i].msg;
      var r := Apply(p.world, p.pool, m, rules, evm);
      SenderPaysRecipient(p.world, p.pool, m, rules, evm, a);
      var receipt := Receipt(r.failed, p.usedGas + r.usedGas as nat, r.usedGas);
      FeesStep(p.receipts, p.common, txs, None, receipt, i);
      FeesStep(p.receipts, p.common, txs, Some(a), receipt, i);
    }
  }

  lemma NextAddsUp(p: Progress, w: World, gasLimit: uint64, txs: seq<BlockTx>, i: nat, rules: Rules, evm: Evm)
    requires EvmSound(evm) && i < |txs| && AddsUp(p, w, gasLimit, txs, i)
    requires Next(p, i, txs[i], rules, evm).Some?
    ensures AddsUp(Next(p, i, txs[i], rules, evm).value, w, gasLimit, txs, i + 1)
  {
    hide Apply, Total;
    if txs[i].Ordinary? {
      ApplyConserves(p.world, p.pool, txs[i].msg, rules, evm);
      var p' := Next(p, i, txs[i], rules, evm).value;
      assert p'.receipts[..|p'.receipts| - 1] == p.receipts;
    }
  }

  lemma NextAccounts(p: Progress, w: World, gasLimit: uint64, txs: seq<BlockTx>, i: nat, rules: Rules, evm: Evm)
    requires EvmSound(evm) && i < |txs| && Accounted(p, w, gasLimit, txs, i, rules, evm)
    requires Next(p, i, txs[i], rules, evm).Some?
    ensures Accounted(Next(p, i, txs[i], rules, evm).value, w, gasLimit, txs, i + 1, rules, evm)
  {
    hide BalanceAt, Next;
    var p' := Next(p, i, txs[i], rules, evm).value;
    NextAddsUp(p, w, gasLimit, txs, i, rules, evm);
    var next := i + 1;
    forall a: Address
      ensures BalanceAt(p', w, gasLimit, txs, next, rules, evm, a)
    {
      NextBalance(p, w, gasLimit, txs, i, rules, evm, p', a);
    }
  }

  /**
   After every block whose ordinary transactions all apply, balance is conserved, all gas is accounted for, and every
   account has what the virtual machine moved to it, less the fees it paid, plus all fees if it is their recipient.
   */
  lemma {:induction false} BlockAccounts(p: Progress, w: World, gasLimit: uint64, txs: seq<BlockTx>, i: nat,
      rules: Rules, evm: Evm)
    requires EvmSound(evm) && i <= |txs| && Accounted(p, w, gasLimit, txs, i, rules, evm)
    requires Fold(p, txs, i, rules, evm).Some?
    ensures Accounted(Fold(p, txs, i, rules, evm).value, w, gasLimit, txs, |txs|, rules, evm)
    decreases |txs| - i
  {
    hide Accounted;
    if i < |txs| {
      NextAccounts(p, w, gasLimit, txs, i, rules, evm);
      BlockAccounts(Next(p, i, txs[i], rules, evm).value, w, gasLimit, txs, i + 1, rules, evm);
    }
  }

  /** A transaction that is a call with its nonce checked. */
  predicate CheckedCall(tx: BlockTx) {
    Checked(tx) && tx.msg.to.Some?
  }

  predicate Checked(tx: BlockTx) {
    tx.Ordinary? && tx.msg.checkNonce
  }

  /** Later checked messages of a sender have higher nonces than its earlier checked calls; none occurs twice. */
  ghost predicate NoncesRise(txs: seq<BlockTx>, n: nat)
    requires n <= |txs|
  {
    forall i, j | 0 <= i < j < n && CheckedCall(txs[i]) && Checked(txs[j]) && txs[j].msg.from == txs[i].msg.from ::
      txs[i].msg.nonce < txs[j].msg.nonce
  }

  /** The nonces of the checked calls so far are used up. */
  ghost predicate UsedUp(w: World, txs: seq<BlockTx>, n: nat)
    requires n <= |txs|
  {
    forall i :: 0 <= i < n && CheckedCall(txs[i]) ==> txs[i].msg.nonce < NonceOf(w, txs[i].msg.from)
  }

  lemma NextRises(p: Progress, i: nat, txs: seq<BlockTx>, rules: Rules, evm: Evm)
    requires EvmSound(evm) && NoncesGrow(evm) && i < |txs| && Next(p, i, txs[i], rules, evm).Some?
    requires NoncesRise(txs, i) && UsedUp(p.world, txs, i)
    ensures NoncesRise(txs, i + 1) && UsedUp(Next(p, i, txs[i], rules, evm).value.world, txs, i + 1)
  {
    hide Apply, EvmSound, NoncesGrow;
    if txs[i].Ordinary? {
      AppliesIff(p.world, p.pool, txs[i].msg, rules, evm);
      ApplyRaises(p.world, p.pool, txs[i].msg, rules, evm);
    }
  }

  /** In every block that is processed, no checked call is repeated or follows a later one of its sender. */
  lemma {:induction false} BlockRises(p: Progress, txs: seq<BlockTx>, i: nat, rules: Rules, evm: Evm)
    requires EvmSound(evm) && NoncesGrow(evm) && i <= |txs| && Fold(p, txs, i, rules, evm).Some?
    requires NoncesRise(txs, i) && UsedUp(p.world, txs, i)
    ensures NoncesRise(txs, |txs|) && UsedUp(Fold(p, txs, i, rules, evm).value.world, txs, |txs|)
    decreases |txs| - i
  {
    hide NoncesRise, UsedUp, Next;
    if i < |txs| {
      NextRises(p, i, txs, rules, evm);
      BlockRises(Next(p, i, txs[i], rules, evm).value, txs, i + 1, rules, evm);
    }
  }

  /** Each receipt tells what applying its transaction to the world before it came to. */
  ghost predicate Tells(receipts: seq<Receipt>, common: seq<nat>, w: World, gasLimit: uint64, txs: seq<BlockTx>,
                        rules: Rules, evm: Evm, k: nat)
    requires EvmSound(evm) && k < |receipts| == |common|
  {
    && common[k] < |txs| && txs[common[k]].Ordinary?
    && var p := After(w, gasLimit, txs, common[k], rules, evm);
       && p.Some?
       && var r := Apply(p.value.world, p.value.pool, txs[common[k]].msg, rules, evm);
          r.Executed? && receipts[k].failed == r.failed && receipts[k].gasUsed == r.usedGas
  }

  ghost predicate AllTell(p: Progress, w: World, gasLimit: uint64, txs: seq<BlockTx>, rules: Rules, evm: Evm)
    requires EvmSound(evm)
  {
    && |p.receipts| == |p.common|
    && forall k: nat {:trigger Tells(p.receipts, p.common, w, gasLimit, txs, rules, evm, k)} ::
         k < |p.receipts| ==> Tells(p.receipts, p.common, w, gasLimit, txs, rules, evm, k)
  }

  lemma {:induction false} AfterTells(w: World, gasLimit: uint64, txs: seq<BlockTx>, i: nat, rules: Rules, evm: Evm)
    requires EvmSound(evm) && i <= |txs| && After(w, gasLimit, txs, i, rules, evm).Some?
    ensures AllTell(After(w, gasLimit, txs, i, rules, evm).value, w, gasLimit, txs, rules, evm)
    decreases i
  {
    hide Apply;
    if i > 0 {
      AfterTells(w, gasLimit, txs, i - 1, rules, evm);
      var p, q := After(w, gasLimit, txs, i - 1, rules, evm).value, After(w, gasLimit, txs, i, rules, evm).value;
      forall k: nat | k < |q.receipts|
        ensures Tells(q.receipts, q.common, w, gasLimit, txs, rules, evm, k)
      {
        assert k < |p.receipts| ==> Tells(p.receipts, p.common, w, gasLimit, txs, rules, evm, k);
      }
    }
  }

  lemma AccountedTells(p: Progress, w: World, gasLimit: uint64, txs: seq<BlockTx>, rules: Rules, evm: Evm)
    requires EvmSound(evm) && Accounted(p, w, gasLimit, txs, |txs|, rules, evm)
    ensures AllTell(p, w, gasLimit, txs, rules, evm)
  {
    AfterTells(w, gasLimit, txs, |txs|, rules, evm);
  }

  lemma FoldStep(p: Progress, txs: seq<BlockTx>, i: nat, rules: Rules, evm: Evm)
    requires EvmSound(evm) && i < |txs|
    ensures var next := Next(p, i, txs[i], rules, evm);
            Fold(p, txs, i, rules, evm) == if next.None? then None else Fold(next.value, txs, i + 1, rules, evm)
  {
  }

  lemma FoldEnds(p: Progress, txs: seq<BlockTx>, rules: Rules, evm: Evm)
    requires EvmSound(evm)
    ensures Fold(p, txs, |txs|, rules, evm) == Some(p)
  {
  }

  lemma StartAccounted(w: World, gasLimit: uint64, txs: seq<BlockTx>, rules: Rules, evm: Evm)
    requires EvmSound(evm)
    ensures Accounted(Start(w, gasLimit), w, gasLimit, txs, 0, rules, evm)
  {
  }

  lemma WithinLimit(p: Progress, w: World, gasLimit: uint64, txs: seq<BlockTx>, i: nat, rules: Rules, evm: Evm)
    requires EvmSound(evm) && i <= |txs| && Accounted(p, w, gasLimit, txs, i, rules, evm)
    ensures p.usedGas <= gasLimit as nat
  {
  }

  lemma AllRise(p: Progress, txs: seq<BlockTx>, rules: Rules, evm: Evm)
    requires EvmSound(evm) && Fold(p, txs, 0, rules, evm).Some?
    ensures NoncesGrow(evm) ==>
              NoncesRise(txs, |txs|) && UsedUp(Fold(p, txs, 0, rules, evm).value.world, txs, |txs|)
  {
    hide NoncesGrow, Fold;
    if NoncesGrow(evm) {
      BlockRises(p, txs, 0, rules, evm);
    }
  }

  /** Processes the transactions of a block up to finalisation; None is the error return. */
  method Process(gasLimit: uint64, txs: seq<BlockTx>, state: StateDB, rules: Rules, evm: Evm)
    returns (ok: bool, receipts: seq<Receipt>, usedGas: uint64, common: seq<nat>, system: seq<nat>, pool: uint64)
    requires EvmSound(evm)
    requires forall i :: 0 <= i < |txs| && txs[i].Ordinary? ==> |txs[i].msg.data| <= MAX_UINT64 as int
    modifies state
    ensures ok <==> Fold(Start(old(state.world), gasLimit), txs, 0, rules, evm).Some?
    ensures ok ==> Fold(Start(old(state.world), gasLimit), txs, 0, rules, evm)
                   == Some(Progress(state.world, pool, usedGas as nat, receipts, common, system))
    ensures ok ==> Accounted(Progress(state.world, pool, usedGas as nat, receipts, common, system), old(state.world),
                             gasLimit, txs, |txs|, rules, evm)
    ensures ok ==> AllTell(Progress(state.world, pool, usedGas as nat, receipts, common, system), old(state.world),
                           gasLimit, txs, rules, evm)
    ensures ok && NoncesGrow(evm) ==> NoncesRise(txs, |txs|) && UsedUp(state.world, txs, |txs|)
  {
    hide NoncesGrow, NoncesRise, UsedUp, Accounted, AllTell, Fold, Apply;
    ok, receipts, usedGas, common, system, pool := false, [], 0, [], [], gasLimit;
    var gp := new GasPool();
    var panics := gp.AddGas(gasLimit);
    assert !panics;
    ghost var start := Start(state.world, gasLimit);
    ghost var p := start;
    StartAccounted(state.world, gasLimit, txs, rules, evm);
    for i := 0 to |txs|
      invariant p == Progress(state.world, gp.gas, usedGas as nat, receipts, common, system)
      invariant Accounted(p, old(state.world), gasLimit, txs, i, rules, evm)
      invariant Fold(p, txs, i, rules, evm) == Fold(start, txs, 0, rules, evm)
    {
      FoldStep(p, txs, i, rules, evm);
      if txs[i].EngineError? {
        return;
      }
      if txs[i].SystemTx? {
        NextAccounts(p, old(state.world), gasLimit, txs, i, rules, evm);
        system := system + [i];
        p := p.(system := system);
        continue;
      }
      if txs[i].BadSignature? {
        return;
      }
      var err, gas, failed := ApplyTransaction(txs[i].msg, gp, state, rules, evm);
      if err.Some? {
        return;
      }
      NextAccounts(p, old(state.world), gasLimit, txs, i, rules, evm);
      p := Next(p, i, txs[i], rules, evm).value;
      WithinLimit(p, old(state.world), gasLimit, txs, i + 1, rules, evm);
      usedGas := usedGas + gas;
      common := common + [i];
      receipts := receipts + [Receipt(failed, usedGas as nat, gas)];
    }
    ok, pool := true, gp.gas;
    FoldEnds(p, txs, rules, evm);
    AllRise(start, txs, rules, evm);
    AccountedTells(p, old(state.world), gasLimit, txs, rules, evm);
  }

  method ApplyTransaction(msg: Message, gp: GasPool, state: StateDB, rules: Rules, evm: Evm)
    returns (err: Option<Failure>, usedGas: uint64, failed: bool)
    requires EvmSound(evm) && |msg.data| <= MAX_UINT64 as int
    modifies gp, state
    ensures err.Some? ==>
            Apply(old(state.world), old(gp.gas), msg, rules, evm) ==
            Rejected(err.value, state.world, gp.gas)
    ensures err.None? ==>
            Apply(old(state.world), old(gp.gas), msg, rules, evm) ==
            Executed(state.world, gp.gas, usedGas, failed)
  {
    var st := new StateTransition(gp, state, msg, rules, evm);
    err, usedGas, failed := st.TransitionDb();
  }
}
