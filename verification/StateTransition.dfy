/**
 core/state_transition.go, core/gaspool.go and core/state_processor.go: the gas and fee accounting of
 messages and blocks. The virtual machine is a parameter; gas is a machine word, so every operation on it
 is also checked not to wrap.
 */
module Transition {
  import opened Common

  newtype uint64 = x: int | 0 <= x < 0x1_0000_0000_0000_0000

  const MAX_UINT64: uint64 := 0xFFFF_FFFF_FFFF_FFFF
  const TX_GAS: uint64 := 21000
  const TX_GAS_CONTRACT_CREATION: uint64 := 53000
  const TX_DATA_ZERO_GAS: uint64 := 4
  const TX_DATA_NON_ZERO_GAS_FRONTIER: uint64 := 68
  const TX_DATA_NON_ZERO_GAS_EIP2028: uint64 := 16

  function NonZeroBytes(data: seq<bv8>): nat {
    if data == [] then 0 else NonZeroBytes(data[..|data| - 1]) + if data[|data| - 1] != 0 then 1 else 0
  }

  lemma {:induction false} NonZeroBound(data: seq<bv8>)
    ensures NonZeroBytes(data) <= |data|
  {
    if data != [] {
      NonZeroBound(data[..|data| - 1]);
    }
  }

  predicate IsZero(x: bv8) {
    x == 0
  }

  /** The positions of the zero bytes, or of the others. */
  ghost function Places(data: seq<bv8>, zero: bool): set<int> {
    set i | 0 <= i < |data| && IsZero(data[i]) == zero
  }

  lemma PlacesStep(data: seq<bv8>, zero: bool)
    requires data != []
    ensures var last := |data| - 1;
            |Places(data, zero)| == |Places(data[..last], zero)| + if IsZero(data[last]) == zero then 1 else 0
  {
    hide IsZero;
    var last := |data| - 1;
    var more := if IsZero(data[last]) == zero then {last} else {};
    assert Places(data, zero) == Places(data[..last], zero) + more;
  }

  lemma {:induction false} NonZeroCount(data: seq<bv8>)
    ensures NonZeroBytes(data) == |Places(data, false)| && |data| - NonZeroBytes(data) == |Places(data, true)|
  {
    hide Places;
    if data != [] {
      NonZeroCount(data[..|data| - 1]);
      PlacesStep(data, true);
      PlacesStep(data, false);
    } else {
      NonePlaced(data);
    }
  }

  lemma NonePlaced(data: seq<bv8>)
    requires data == []
    ensures Places(data, true) == Places(data, false) == {}
  {
  }

  /** The intrinsic gas of a message over the unbounded integers. */
  function ExactIntrinsicGas(data: seq<bv8>, creation: bool, homestead: bool, eip2028: bool): nat {
    var base := if creation && homestead then TX_GAS_CONTRACT_CREATION else TX_GAS;
    var nonZeroGas := if eip2028 then TX_DATA_NON_ZERO_GAS_EIP2028 else TX_DATA_NON_ZERO_GAS_FRONTIER;
    NonZeroBound(data);
    base as nat + NonZeroBytes(data) * nonZeroGas as nat + (|data| - NonZeroBytes(data)) * TX_DATA_ZERO_GAS as nat
  }

  /** A byte costs 4 if it is zero and 16 (before Istanbul 68) otherwise, on top of 21000 or, to create, 53000. */
  lemma IntrinsicGasIs(data: seq<bv8>, creation: bool, homestead: bool, eip2028: bool)
    ensures ExactIntrinsicGas(data, creation, homestead, eip2028) ==
            (if creation && homestead then 53000 else 21000)
            + |Places(data, false)| * (if eip2028 then 16 else 68) + |Places(data, true)| * 4
  {
    NonZeroCount(data);
  }

  /** Dividing the headroom decides exactly whether the product fits. */
  lemma HeadroomTest(headroom: nat, price: nat, count: nat)
    requires price > 0
    ensures headroom / price < count <==> count * price > headroom
  {
    var q := headroom / price;
    assert headroom == q * price + headroom % price;
    if q < count {
      assert count * price >= (q + 1) * price;
    } else {
      assert count * price <= q * price;
    }
  }

  /** Fails exactly when the exact value does not fit a machine word. */
  method IntrinsicGas(data: seq<bv8>, creation: bool, homestead: bool, eip2028: bool) returns (r: Option<uint64>)
    requires |data| <= MAX_UINT64 as int
    ensures r.None? <==> ExactIntrinsicGas(data, creation, homestead, eip2028) > MAX_UINT64 as int
    ensures r.Some? ==> r.value as int == ExactIntrinsicGas(data, creation, homestead, eip2028)
  {
    var gas := if creation && homestead then TX_GAS_CONTRACT_CREATION else TX_GAS;
    if |data| > 0 {
      var nz: uint64 := 0;
      for i := 0 to |data|
        invariant nz as int == NonZeroBytes(data[..i]) <= i
      {
        assert data[..i + 1][..i] == data[..i];
        if data[i] != 0 {
          nz := nz + 1;
        }
      }
      assert data[..|data|] == data;
      var nonZeroGas := if eip2028 then TX_DATA_NON_ZERO_GAS_EIP2028 else TX_DATA_NON_ZERO_GAS_FRONTIER;
      HeadroomTest((MAX_UINT64 - gas) as int, nonZeroGas as int, nz as int);
      if (MAX_UINT64 - gas) / nonZeroGas < nz {
        return None;
      }
      gas := gas + nz * nonZeroGas;
      var z := |data| as uint64 - nz;
      HeadroomTest((MAX_UINT64 - gas) as int, TX_DATA_ZERO_GAS as int, z as int);
      if (MAX_UINT64 - gas) / TX_DATA_ZERO_GAS < z {
        return None;
      }
      gas := gas + z * TX_DATA_ZERO_GAS;
    }
    return Some(gas);
  }

  type Balances = map<Address, int>

  function BalanceOf(b: Balances, a: Address): int {
    if a in b then b[a] else 0
  }

  function Credit(b: Balances, a: Address, amount: int): Balances {
    b[a := BalanceOf(b, a) + amount]
  }

  /** The sum of all balances. */
  ghost function Total(b: Balances): int
    decreases |b|
  {
    if b == map[] then 0 else
      var a :| a in b;
      b[a] + Total(b - {a})
  }

  lemma {:induction false} TotalWithout(b: Balances, a: Address)
    requires a in b
    ensures Total(b) == b[a] + Total(b - {a})
    decreases |b|
  {
    var c :| c in b && Total(b) == b[c] + Total(b - {c});
    if c != a {
      TotalWithout(b - {c}, a);
      TotalWithout(b - {a}, c);
      assert b - {c} - {a} == b - {a} - {c};
    }
  }

  lemma TotalCredit(b: Balances, a: Address, amount: int)
    ensures Total(Credit(b, a, amount)) == Total(b) + amount
  {
    var b' := Credit(b, a, amount);
    TotalWithout(b', a);
    if a in b {
      TotalWithout(b, a);
      assert b' - {a} == b - {a};
    } else {
      assert b' - {a} == b;
    }
  }

  datatype Message = Message(from: Address, to: Option<Address>, gasPrice: nat, gas: uint64, value: int, nonce: nat,
                             checkNonce: bool, data: seq<bv8>)

  /** Chain rules and block context a message is applied under. */
  datatype Rules = Rules(homestead: bool, istanbul: bool, sonium: bool, feeRecorder: Address, coinbase: Address)

  /** The part of the world state that fee accounting touches. */
  datatype World = World(balances: Balances, nonces: map<Address, nat>)

  datatype Outcome = Outcome(world: World, leftover: uint64, refund: uint64, failed: bool)

  /** Runs the top-level call or creation of a message with the given gas. */
  type Evm = (World, Message, uint64) -> Outcome

  /** The virtual machine only spends gas it was given and only moves funds. */
  ghost predicate EvmSound(evm: Evm) {
    forall w, m, g {:trigger evm(w, m, g)} ::
      evm(w, m, g).leftover <= g && Total(evm(w, m, g).world.balances) == Total(w.balances)
  }

  datatype Failure = NonceTooHigh | NonceTooLow | InsufficientFunds | GasLimitReached | GasUintOverflow
    | IntrinsicGasTooLow
    | InsufficientFundsForTransfer

  datatype Applied =
    | Rejected(reason: Failure, world: World, pool: uint64)
    | Executed(world: World, pool: uint64, usedGas: uint64, failed: bool)

  function NonceOf(w: World, a: Address): nat {
    if a in w.nonces then w.nonces[a] else 0
  }

  /** Clauses 1 to 3 of the consensus rules: nonce, funds for the gas, gas left in the block. */
  function EarlyCheck(w: World, pool: uint64, m: Message): Option<Failure> {
    if m.checkNonce && NonceOf(w, m.from) < m.nonce then Some(NonceTooHigh)
    else if m.checkNonce && NonceOf(w, m.from) > m.nonce then Some(NonceTooLow)
    else if BalanceOf(w.balances, m.from) < m.gas as int * m.gasPrice then Some(InsufficientFunds)
    else if pool < m.gas then Some(GasLimitReached)
    else None
  }

  /** The world after the sender has paid for all the gas of the message. */
  function GasBought(w: World, m: Message): World {
    w.(balances := Credit(w.balances, m.from, -(m.gas as int * m.gasPrice)))
  }

  /** Clauses 4 to 6: intrinsic gas and funds for the transferred value. */
  function ChargeCheck(w: World, m: Message, rules: Rules): Option<Failure> {
    var intrinsic := ExactIntrinsicGas(m.data, m.to.None?, rules.homestead, rules.istanbul);
    if intrinsic > MAX_UINT64 as int then Some(GasUintOverflow)
    else if (m.gas as int) < intrinsic then Some(IntrinsicGasTooLow)
    else if m.value > 0 && BalanceOf(w.balances, m.from) < m.value then Some(InsufficientFundsForTransfer)
    else None
  }

  /** What the virtual machine is run on: a call, unlike a creation, has its nonce bumped beforehand. */
  function Entered(w: World, m: Message): World {
    if m.to.None? then w else w.(nonces := w.nonces[m.from := NonceOf(w, m.from) + 1])
  }

  /** Gas charged after the refund, which is capped to half of the gas consumed. */
  function Charged(gas: uint64, leftover: uint64, refund: uint64): uint64
    requires leftover <= gas
  {
    var consumed := gas - leftover;
    consumed - if consumed / 2 > refund then refund else consumed / 2
  }

  function FeeRecipient(rules: Rules): Address {
    if rules.sonium then rules.feeRecorder else rules.coinbase
  }

  /** The gas the virtual machine is given. */
  function Provided(m: Message, rules: Rules): uint64
    requires ExactIntrinsicGas(m.data, m.to.None?, rules.homestead, rules.istanbul) <= m.gas as int
  {
    m.gas - ExactIntrinsicGas(m.data, m.to.None?, rules.homestead, rules.istanbul) as uint64
  }

  /** The end of a message: unused gas is returned to the sender and the fee goes to its recipient. */
  function Settle(out: Outcome, m: Message, rules: Rules): World
    requires out.leftover <= m.gas
  {
    var used := Charged(m.gas, out.leftover, out.refund);
    var refunded := Credit(out.world.balances, m.from, (m.gas - used) as int * m.gasPrice);
    out.world.(balances := Credit(refunded, FeeRecipient(rules), used as int * m.gasPrice))
  }

  /** Applying one message: its effect on the world and on the block gas pool. */
  ghost function Apply(w: World, pool: uint64, m: Message, rules: Rules, evm: Evm): Applied
    requires EvmSound(evm)
  {
    var early := EarlyCheck(w, pool, m);
    if early.Some? then Rejected(early.value, w, pool)
    else
      var bought := GasBought(w, m);
      var late := ChargeCheck(bought, m, rules);
      if late.Some? then Rejected(late.value, bought, pool - m.gas)
      else
        var out := evm(Entered(bought, m), m, Provided(m, rules));
        var used := Charged(m.gas, out.leftover, out.refund);
        Executed(Settle(out, m, rules), pool - used, used, out.failed)
  }

  lemma SettleTotal(out: Outcome, m: Message, rules: Rules)
    requires out.leftover <= m.gas
    ensures Total(Settle(out, m, rules).balances) == Total(out.world.balances) + m.gas as int * m.gasPrice
  {
    var used := Charged(m.gas, out.leftover, out.refund);
    var refunded := Credit(out.world.balances, m.from, (m.gas - used) as int * m.gasPrice);
    TotalCredit(out.world.balances, m.from, (m.gas - used) as int * m.gasPrice);
    TotalCredit(refunded, FeeRecipient(rules), used as int * m.gasPrice);
    FeeSplit(m.gas as int, used as int, m.gasPrice);
  }

  /** A successful message conserves the total balance and takes from the pool exactly the gas it is charged for. */
  lemma ApplyConserves(w: World, pool: uint64, m: Message, rules: Rules, evm: Evm)
    requires EvmSound(evm) && Apply(w, pool, m, rules, evm).Executed?
    ensures var r := Apply(w, pool, m, rules, evm);
            && Total(r.world.balances) == Total(w.balances)
            && r.pool as int + r.usedGas as int == pool as int
            && r.usedGas <= m.gas <= pool
  {
    TotalCredit(w.balances, m.from, -(m.gas as int * m.gasPrice));
    SettleTotal(evm(Entered(GasBought(w, m), m), m, Provided(m, rules)), m, rules);
  }

  /** The outcome of the virtual machine inside an applied message. */
  ghost function MachineRun(w: World, m: Message, rules: Rules, evm: Evm): Outcome
    requires ExactIntrinsicGas(m.data, m.to.None?, rules.homestead, rules.istanbul) <= m.gas as int
  {
    evm(Entered(GasBought(w, m), m), m, Provided(m, rules))
  }

  // What a message does, read off the world before it.

  /** The consensus rules: nonce, funds for the gas and the value, gas left in the block, intrinsic gas. */
  ghost predicate Passes(w: World, pool: uint64, m: Message, rules: Rules) {
    && (m.checkNonce ==> NonceOf(w, m.from) == m.nonce)
    && BalanceOf(w.balances, m.from) >= m.gas as int * m.gasPrice + (if m.value > 0 then m.value else 0)
    && m.gas <= pool && ExactIntrinsicGas(m.data, m.to.None?, rules.homestead, rules.istanbul) <= m.gas as int
  }

  lemma AppliesIff(w: World, pool: uint64, m: Message, rules: Rules, evm: Evm)
    requires EvmSound(evm)
    ensures Apply(w, pool, m, rules, evm).Executed? <==> Passes(w, pool, m, rules)
  {
    CreditAt(w.balances, m.from, -(m.gas as int * m.gasPrice), m.from);
  }

  /** What a rejection means; the later reasons leave the gas paid for and taken from the pool. */
  lemma RejectionMeans(w: World, pool: uint64, m: Message, rules: Rules, evm: Evm)
    requires EvmSound(evm) && Apply(w, pool, m, rules, evm).Rejected?
    ensures var r := Apply(w, pool, m, rules, evm);
            && (r.reason == NonceTooHigh <==> m.checkNonce && m.nonce > NonceOf(w, m.from))
            && (r.reason == NonceTooLow <==> m.checkNonce && m.nonce < NonceOf(w, m.from))
            && (r.reason == InsufficientFunds ==> BalanceOf(w.balances, m.from) < m.gas as int * m.gasPrice)
            && (r.reason == GasLimitReached ==> pool < m.gas)
            && var intrinsic := ExactIntrinsicGas(m.data, m.to.None?, rules.homestead, rules.istanbul);
            && (r.reason == GasUintOverflow ==> intrinsic > MAX_UINT64 as int)
            && (r.reason == IntrinsicGasTooLow ==> m.gas as int < intrinsic <= MAX_UINT64 as int)
            && (r.reason == InsufficientFundsForTransfer ==>
                  0 < m.value && BalanceOf(w.balances, m.from) - m.gas as int * m.gasPrice < m.value)
            && (if r.reason in {NonceTooHigh, NonceTooLow, InsufficientFunds, GasLimitReached}
                then r.world == w && r.pool == pool
                else r.world.nonces == w.nonces && r.pool as int + m.gas as int == pool as int
                     && forall a :: BalanceOf(r.world.balances, a) == BalanceOf(w.balances, a) - Prepaid(m, a))
  {
    forall a
      ensures BalanceOf(GasBought(w, m).balances, a) == BalanceOf(w.balances, a) - Prepaid(m, a)
    {
      CreditAt(w.balances, m.from, -(m.gas as int * m.gasPrice), a);
    }
  }

  /** What an account pays before the machine runs. */
  function Prepaid(m: Message, a: Address): int {
    if a == m.from then m.gas as int * m.gasPrice else 0
  }

  /** The machine starts with all the gas paid for, and a call, unlike a creation, with the sender's nonce bumped. */
  ghost predicate StartsOn(w: World, m: Message, rules: Rules, start: World, gas: uint64) {
    && (forall a :: NonceOf(start, a) == NonceOf(w, a) + (if a == m.from && m.to.Some? then 1 else 0))
    && (forall a :: BalanceOf(start.balances, a) == BalanceOf(w.balances, a) - Prepaid(m, a))
    && gas as int + ExactIntrinsicGas(m.data, m.to.None?, rules.homestead, rules.istanbul) == m.gas as int
  }

  /** What an account gets after the machine has run: the sender the unused gas, the recipient the fee. */
  function Repaid(m: Message, rules: Rules, used: uint64, a: Address): int {
    (if a == m.from then (m.gas as int - used as int) * m.gasPrice else 0)
    + (if a == (if rules.sonium then rules.feeRecorder else rules.coinbase) then used as int * m.gasPrice else 0)
  }

  /** The refund is the counter or, if less, half of the gas consumed. */
  ghost predicate EndsIn(out: Outcome, m: Message, rules: Rules, world: World, used: uint64, failed: bool) {
    && failed == out.failed && world.nonces == out.world.nonces
    && (forall a :: BalanceOf(world.balances, a) == BalanceOf(out.world.balances, a) + Repaid(m, rules, used, a))
    && var consumed := m.gas as int - out.leftover as int;
       var refunded := consumed - used as int;
       && 0 <= refunded <= out.refund as int && 2 * refunded <= consumed
       && (refunded == out.refund as int || 2 * refunded + 1 >= consumed)
  }

  /** The whole effect of a message that passes. */
  ghost predicate Performs(w: World, pool: uint64, m: Message, rules: Rules, evm: Evm, world: World, pool': uint64,
                           used: uint64, failed: bool) {
    && Passes(w, pool, m, rules) && pool' as int + used as int == pool as int
    && exists start, gas :: StartsOn(w, m, rules, start, gas)
                            && EndsIn(evm(start, m, gas), m, rules, world, used, failed)
  }

  lemma ApplyPerforms(w: World, pool: uint64, m: Message, rules: Rules, evm: Evm)
    requires EvmSound(evm) && Apply(w, pool, m, rules, evm).Executed?
    ensures var r := Apply(w, pool, m, rules, evm);
            Performs(w, pool, m, rules, evm, r.world, r.pool, r.usedGas, r.failed)
  {
    AppliesIff(w, pool, m, rules, evm);
    var start, gas := Entered(GasBought(w, m), m), Provided(m, rules);
    var out := evm(start, m, gas);
    var r := Apply(w, pool, m, rules, evm);
    ChargedBounds(m.gas, out.leftover, out.refund);
    StartMeans(w, m, rules);
    EndMeans(out, m, rules);
    assert StartsOn(w, m, rules, start, gas) && EndsIn(evm(start, m, gas), m, rules, r.world, r.usedGas, r.failed);
  }

  lemma StartMeans(w: World, m: Message, rules: Rules)
    requires ExactIntrinsicGas(m.data, m.to.None?, rules.homestead, rules.istanbul) <= m.gas as int
    ensures StartsOn(w, m, rules, Entered(GasBought(w, m), m), Provided(m, rules))
  {
    hide Credit;
    forall a
      ensures BalanceOf(GasBought(w, m).balances, a) == BalanceOf(w.balances, a) - Prepaid(m, a)
    {
      CreditAt(w.balances, m.from, -(m.gas as int * m.gasPrice), a);
    }
  }

  lemma EndMeans(out: Outcome, m: Message, rules: Rules)
    requires out.leftover <= m.gas
    ensures EndsIn(out, m, rules, Settle(out, m, rules), Charged(m.gas, out.leftover, out.refund), out.failed)
  {
    hide Credit;
    var used := Charged(m.gas, out.leftover, out.refund);
    forall a
      ensures BalanceOf(Settle(out, m, rules).balances, a) ==
              BalanceOf(out.world.balances, a) + Repaid(m, rules, used, a)
    {
      SettleAt(out, m, rules, a);
    }
  }

  // Nonces.

  ghost predicate NonceGrew(w: World, w': World) {
    forall a :: NonceOf(w', a) >= NonceOf(w, a)
  }

  /** The virtual machine lowers no nonce. */
  ghost predicate NoncesGrow(evm: Evm) {
    forall w, m, g {:trigger evm(w, m, g)} :: NonceGrew(w, evm(w, m, g).world)
  }

  /** No message lowers a nonce, and a call raises its sender's. */
  lemma ApplyRaises(w: World, pool: uint64, m: Message, rules: Rules, evm: Evm)
    requires EvmSound(evm) && NoncesGrow(evm) && Apply(w, pool, m, rules, evm).Executed?
    ensures var r := Apply(w, pool, m, rules, evm);
            NonceGrew(w, r.world) && (m.to.Some? ==> NonceOf(r.world, m.from) > NonceOf(w, m.from))
  {
    hide Apply, ExactIntrinsicGas;
    ApplyPerforms(w, pool, m, rules, evm);
    var r := Apply(w, pool, m, rules, evm);
    var start, gas :| StartsOn(w, m, rules, start, gas)
      && EndsIn(evm(start, m, gas), m, rules, r.world, r.usedGas, r.failed);
    assert NonceGrew(start, evm(start, m, gas).world);
  }

  /** A checked call that has been applied is too low ever after, whatever pool it meets. */
  lemma NoReplay(w: World, pool: uint64, m: Message, rules: Rules, evm: Evm, later: World, pool': uint64)
    requires EvmSound(evm) && NoncesGrow(evm) && m.checkNonce && m.to.Some?
    requires Apply(w, pool, m, rules, evm).Executed? && NonceGrew(Apply(w, pool, m, rules, evm).world, later)
    ensures Apply(later, pool', m, rules, evm) == Rejected(NonceTooLow, later, pool')
  {
    AppliesIff(w, pool, m, rules, evm);
    ApplyRaises(w, pool, m, rules, evm);
  }

  /** What the virtual machine itself moved to an account. */
  ghost function MachineMove(w: World, m: Message, rules: Rules, evm: Evm, a: Address): int {
    if ExactIntrinsicGas(m.data, m.to.None?, rules.homestead, rules.istanbul) > m.gas as int then 0
    else BalanceOf(MachineRun(w, m, rules, evm).world.balances, a) - BalanceOf(GasBought(w, m).balances, a)
  }

  /**
   Whatever message is applied, and whatever the machine moves: apart from that, the sender loses and the fee
   recipient gains exactly the charged gas at the gas price, which the sender could afford in full beforehand; and
   the charge is at least half of the gas consumed.
   */
  lemma SenderPaysRecipient(w: World, pool: uint64, m: Message, rules: Rules, evm: Evm, a: Address)
    requires EvmSound(evm) && Apply(w, pool, m, rules, evm).Executed?
    ensures ExactIntrinsicGas(m.data, m.to.None?, rules.homestead, rules.istanbul) <= m.gas as int
    ensures var r := Apply(w, pool, m, rules, evm);
            var fee := r.usedGas as int * m.gasPrice;
            && BalanceOf(r.world.balances, a) - BalanceOf(w.balances, a) ==
               MachineMove(w, m, rules, evm, a) - (if a == m.from then fee else 0)
               + (if a == (if rules.sonium then rules.feeRecorder else rules.coinbase) then fee else 0)
            && BalanceOf(w.balances, m.from) >= m.gas as int * m.gasPrice
            && 2 * r.usedGas as int >= m.gas as int - MachineRun(w, m, rules, evm).leftover as int
  {
    var out := MachineRun(w, m, rules, evm);
    var used := Charged(m.gas, out.leftover, out.refund);
    FeeSplit(m.gas as int, used as int, m.gasPrice);
    ChargedBounds(m.gas, out.leftover, out.refund);
    SettleAt(out, m, rules, a);
    CreditAt(w.balances, m.from, -(m.gas as int * m.gasPrice), a);
  }

  lemma CreditAt(b: Balances, c: Address, amount: int, a: Address)
    ensures BalanceOf(Credit(b, c, amount), a) == BalanceOf(b, a) + if a == c then amount else 0
  {
  }

  lemma SettleAt(out: Outcome, m: Message, rules: Rules, a: Address)
    requires out.leftover <= m.gas
    ensures var used := Charged(m.gas, out.leftover, out.refund);
            BalanceOf(Settle(out, m, rules).balances, a) ==
            BalanceOf(out.world.balances, a) + (if a == m.from then (m.gas - used) as int * m.gasPrice else 0)
            + (if a == FeeRecipient(rules) then used as int * m.gasPrice else 0)
  {
    var used := Charged(m.gas, out.leftover, out.refund);
    var refunded := Credit(out.world.balances, m.from, (m.gas - used) as int * m.gasPrice);
    CreditAt(out.world.balances, m.from, (m.gas - used) as int * m.gasPrice, a);
    CreditAt(refunded, FeeRecipient(rules), used as int * m.gasPrice, a);
  }

  lemma FeeSplit(gas: nat, used: nat, price: nat)
    requires used <= gas
    ensures gas * price - (gas - used) * price == used * price
  {
  }

  /** The refund rule: never more than half of the gas consumed and never more than the counter. */
  lemma ChargedBounds(gas: uint64, leftover: uint64, refund: uint64)
    requires leftover <= gas
    ensures var used := Charged(gas, leftover, refund);
            && 2 * used as int >= (gas - leftover) as int
            && used <= gas - leftover && (gas - leftover) - used <= refund
            && (used as int + refund as int == (gas - leftover) as int || used == gas - leftover - (gas - leftover) / 2)
  {
  }

  class GasPool {
    var gas: uint64

    constructor ()
      ensures gas == 0
    {
      gas := 0;
    }

    /** The source panics when the pool would exceed a machine word. */
    method AddGas(amount: uint64) returns (panics: bool)
      modifies this
      ensures panics <==> old(gas) as int + amount as int > MAX_UINT64 as int
      ensures gas as int == old(gas) as int + if panics then 0 else amount as int
    {
      if gas > MAX_UINT64 - amount {
        return true;
      }
      gas := gas + amount;
      return false;
    }

    method SubGas(amount: uint64) returns (err: Option<Failure>)
      modifies this
      ensures err == if old(gas) < amount then Some(GasLimitReached) else None
      ensures gas as int == old(gas) as int - if err.Some? then 0 else amount as int
    {
      if gas < amount {
        return Some(GasLimitReached);
      }
      gas := gas - amount;
      return None;
    }
  }

  class StateDB {
    var world: World
    var refund: uint64

    constructor (w: World)
      ensures world == w
    {
      world, refund := w, 0;
    }

    method AddBalance(a: Address, amount: int)
      modifies `world
      ensures world == old(world).(balances := Credit(old(world).balances, a, amount))
    {
      world := world.(balances := world.balances[a := BalanceOf(world.balances, a) + amount]);
    }
  }

  class StateTransition {
    const gp: GasPool
    const state: StateDB
    const msg: Message
    const rules: Rules
    const evm: Evm
    var gas: uint64
    var initialGas: uint64

    constructor (gp: GasPool, state: StateDB, msg: Message, rules: Rules, evm: Evm)
      ensures this.gp == gp && this.state == state && this.msg == msg && this.rules == rules && this.evm == evm
      ensures gas == 0 && initialGas == 0
    {
      this.gp, this.state, this.msg, this.rules, this.evm := gp, state, msg, rules, evm;
      gas, initialGas := 0, 0;
    }

    /** Checks the nonce and buys all the gas of the message. */
    method PreCheck() returns (err: Option<Failure>)
      requires gas == 0
      modifies this, gp, state
      ensures err == EarlyCheck(old(state.world), old(gp.gas), msg)
      ensures err.Some? ==> state.world == old(state.world) && gp.gas == old(gp.gas)
      ensures err.None? ==>
                && state.world == GasBought(old(state.world), msg) && gp.gas == old(gp.gas) - msg.gas
                && gas == initialGas == msg.gas
    {
      if msg.checkNonce {
        var stNonce := NonceOf(state.world, msg.from);
        if stNonce < msg.nonce {
          return Some(NonceTooHigh);
        } else if stNonce > msg.nonce {
          return Some(NonceTooLow);
        }
      }
      var mgval := msg.gas as int * msg.gasPrice;
      if BalanceOf(state.world.balances, msg.from) < mgval {
        return Some(InsufficientFunds);
      }
      err := gp.SubGas(msg.gas);
      if err.Some? {
        return;
      }
      gas := gas + msg.gas;
      initialGas := msg.gas;
      state.AddBalance(msg.from, -mgval);
    }

    function GasUsed(): uint64
      requires gas <= initialGas
      reads this
    {
      initialGas - gas
    }

    /** Applies the capped refund, returns the value of the unused gas and puts that gas back into the pool. */
    method RefundGas() returns (panics: bool)
      requires gas <= initialGas && gp.gas as int + initialGas as int <= MAX_UINT64 as int
      modifies this, gp, state
      ensures !panics && initialGas == old(initialGas) && state.refund == old(state.refund)
      ensures gas <= initialGas && GasUsed() == Charged(initialGas, old(gas), old(state.refund))
      ensures state.world == old(state.world).(balances := Credit(old(state.world).balances, msg.from,
              gas as int * msg.gasPrice))
      ensures gp.gas == old(gp.gas) + gas
    {
      var refund := GasUsed() / 2;
      if refund > state.refund {
        refund := state.refund;
      }
      gas := gas + refund;
      state.AddBalance(msg.from, gas as int * msg.gasPrice);
      panics := gp.AddGas(gas);
    }

    /** Applies the message; the effect is that of Apply, and the gas pool never panics. */
    method TransitionDb() returns (err: Option<Failure>, usedGas: uint64, failed: bool)
      requires gas == 0 && EvmSound(evm) && |msg.data| <= MAX_UINT64 as int
      modifies this, gp, state
      ensures err.Some? ==>
              Apply(old(state.world), old(gp.gas), msg, rules, evm) ==
              Rejected(err.value, state.world, gp.gas)
      ensures err.None? ==>
              Apply(old(state.world), old(gp.gas), msg, rules, evm) ==
              Executed(state.world, gp.gas, usedGas, failed)
      ensures err.None? <==> Passes(old(state.world), old(gp.gas), msg, rules)
      ensures err.None? ==>
              Performs(old(state.world), old(gp.gas), msg, rules, evm, state.world, gp.gas, usedGas, failed)
    {
      hide Performs;
      usedGas, failed := 0, false;
      AppliesIff(state.world, gp.gas, msg, rules, evm);
      if Passes(state.world, gp.gas, msg, rules) {
        ApplyPerforms(state.world, gp.gas, msg, rules, evm);
      }
      err := PreCheck();
      if err.Some? {
        return;
      }
      var intrinsic := IntrinsicGas(msg.data, msg.to.None?, rules.homestead, rules.istanbul);
      if intrinsic.None? {
        return Some(GasUintOverflow), 0, false;
      }
      if gas < intrinsic.value {
        return Some(IntrinsicGasTooLow), 0, false;
      }
      gas := gas - intrinsic.value;
      if msg.value > 0 && BalanceOf(state.world.balances, msg.from) < msg.value {
        return Some(InsufficientFundsForTransfer), 0, false;
      }
      usedGas, failed := Execute();
    }

    /** Runs the virtual machine and settles the account with the sender and the fee recipient. */
    method Execute() returns (usedGas: uint64, failed: bool)
      requires EvmSound(evm) && gas <= initialGas == msg.gas && gp.gas as int + msg.gas as int <= MAX_UINT64 as int
      modifies this, gp, state
      ensures var out := evm(Entered(old(state.world), msg), msg, old(gas));
              && usedGas == Charged(msg.gas, out.leftover, out.refund) && failed == out.failed
              && state.world == Settle(out, msg, rules)
              && gp.gas == old(gp.gas) + (msg.gas - usedGas)
    {
      if msg.to.Some? {
        state.world := state.world.(nonces := state.world.nonces[msg.from := NonceOf(state.world, msg.from) + 1]);
      }
      var out := evm(state.world, msg, gas);
      state.world, state.refund, gas := out.world, out.refund, out.leftover;
      failed := out.failed;
      var panics := RefundGas();
      assert !panics;
      usedGas := GasUsed();
      state.AddBalance(FeeRecipient(rules), usedGas as int * msg.gasPrice);
    }
  }
}
