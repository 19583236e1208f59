/** core/tx_pool.go, txLookup, and core/tx_noncer.go, txNoncer. */
module TxLookup {
  import opened Common
  import opened ChainTree
  import opened TxPriced
  import opened PoolBook
  import opened PoolAccount

  /** All transactions of the pool, and the slots they fill together. */
  class Lookup {
    var all: set<Tx>
    var slots: int

    ghost predicate Valid()
      reads this
    {
      slots == SlotSum(all) && forall tx :: tx in all ==> tx.size > 0
    }

    constructor ()
      ensures Valid() && all == {}
    {
      all, slots := {}, 0;
    }

    method Add(tx: Tx)
      requires Valid() && tx.size > 0
      modifies this
      ensures all == old(all) + {tx} && slots == old(slots) + NumSlots(tx)
      ensures tx !in old(all) ==> Valid()
    {
      slots := slots + NumSlots(tx);
      all := all + {tx};
      if tx !in old(all) {
        SlotSumRemove(all, tx);
        assert all - {tx} == old(all);
      }
    }

    /** The source dereferences the entry, so it must be present. */
    method Remove(tx: Tx)
      requires Valid() && tx in all
      modifies this
      ensures Valid() && all == old(all) - {tx} && slots == old(slots) - NumSlots(tx)
    {
      SlotSumRemove(all, tx);
      slots := slots - NumSlots(tx);
      all := all - {tx};
    }

    method RemoveAll(txs: set<Tx>)
      requires Valid() && txs <= all
      modifies this
      ensures Valid() && all == old(all) - txs
    {
      var todo := txs;
      while todo != {}
        invariant todo <= txs && Valid() && all == old(all) - (txs - todo)
        decreases todo
      {
        var tx :| tx in todo;
        Remove(tx);
        todo := todo - {tx};
      }
    }
  }

  /** The nonces the pool expects next, read from the chain state where it has not set its own. */
  class Noncer {
    var fallback: World
    var nonces: map<Address, nat>

    ghost function Virtual(): imap<Address, nat>
      reads this
    {
      imap a: Address | true :: if a in nonces then nonces[a] else NonceOf(fallback, a)
    }

    constructor (world: World)
      ensures fallback == world && Virtual() == StateNonces(world)
    {
      fallback, nonces := world, map[];
    }

    /** A new noncer over another state. */
    method Rebase(world: World)
      modifies this
      ensures fallback == world && Virtual() == StateNonces(world)
    {
      fallback, nonces := world, map[];
    }

    /** Reading fills the cache but changes no nonce. */
    method Get(a: Address) returns (n: nat)
      modifies this
      ensures n == Virtual()[a] && Virtual() == old(Virtual()) && fallback == old(fallback)
    {
      if a !in nonces {
        nonces := nonces[a := NonceOf(fallback, a)];
      }
      n := nonces[a];
    }

    method Set(a: Address, n: nat)
      modifies this
      ensures Virtual() == old(Virtual())[a := n] && fallback == old(fallback)
    {
      nonces := nonces[a := n];
    }

    method SetIfLower(a: Address, n: nat)
      modifies this
      ensures Virtual() == old(Virtual())[a := Min(old(Virtual())[a], n)] && fallback == old(fallback)
    {
      if a !in nonces {
        nonces := nonces[a := NonceOf(fallback, a)];
      }
      if nonces[a] <= n {
        return;
      }
      nonces := nonces[a := n];
    }
  }
}
