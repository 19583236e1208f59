/**
 The block tree. A hash is modelled as the block it was computed from, so it is
 injective by construction, a block determines its whole ancestry, and the parent
 relation is well founded. A header commits to the body through its transaction root;
 here the two are one value.
 */
module ChainTree {
  import opened Common

  /** A signed transaction together with its recovered sender. */
  datatype Tx = Tx(sender: Address, nonce: nat, price: nat, gas: nat, value: int, size: nat, data: seq<bv8>,
                   creation: bool, salt: nat)

  datatype Hash = Zero | HashOf(block: Block)

  datatype Block = Block(parent: Hash, number: nat, difficulty: nat, root: nat, txs: seq<Tx>, salt: nat)

  /** What the consensus engine checks of one header against its parent. */
  predicate LocallyValid(b: Block) {
    && b.difficulty > 0
    && (if b.parent.Zero? then b.number == 0 else b.number == b.parent.block.number + 1)
  }

  /** Every block of the ancestry passes the check, down to a genesis block of number 0. */
  predicate WellFormed(h: Hash)
    decreases h
  {
    h.HashOf? && LocallyValid(h.block) && (h.block.parent.HashOf? ==> WellFormed(h.block.parent))
  }

  function Num(h: Hash): nat {
    if h.Zero? then 0 else h.block.number
  }

  /** Total difficulty: the sum of the difficulties along the ancestry. */
  function Td(h: Hash): nat
    decreases h
  {
    if h.Zero? then 0 else h.block.difficulty + Td(h.block.parent)
  }

  /** The ancestor k parent links away. */
  function Ancestor(h: Hash, k: nat): Hash
    decreases k
  {
    if k == 0 || h.Zero? then h else Ancestor(h.block.parent, k - 1)
  }

  /** The ancestor numbered n, or the block itself when its number is not above n. */
  function At(h: Hash, n: nat): Hash
    decreases h
  {
    if h.Zero? || h.block.number <= n then h else At(h.block.parent, n)
  }

  /** The number to hash assignment of the chain ending in h. */
  function Path(h: Hash): map<nat, Hash> {
    map n | 0 <= n <= Num(h) :: At(h, n)
  }

  lemma {:induction false} AtFacts(h: Hash, n: nat)
    requires WellFormed(h) && n <= Num(h)
    ensures WellFormed(At(h, n)) && Num(At(h, n)) == n
    decreases h
  {
    if h.block.number > n {
      AtFacts(h.block.parent, n);
    }
  }

  lemma {:induction false} AtCompose(h: Hash, n: nat, m: nat)
    requires WellFormed(h) && m <= n <= Num(h)
    ensures At(At(h, n), m) == At(h, m)
    decreases h
  {
    if h.block.number > n {
      AtCompose(h.block.parent, n, m);
    }
  }

  /** Counting links and counting numbers agree on a well-formed chain. */
  lemma {:induction false} AncestorIsAt(h: Hash, k: nat)
    requires WellFormed(h) && k <= Num(h)
    ensures Ancestor(h, k) == At(h, Num(h) - k)
    decreases k
  {
    if k > 0 {
      AncestorIsAt(h.block.parent, k - 1);
      assert At(h, Num(h) - k) == At(h.block.parent, Num(h) - k);
    }
  }

  /** Total difficulty strictly decreases towards the genesis block. */
  lemma {:induction false} TdStrict(h: Hash, n: nat)
    requires WellFormed(h) && n < Num(h)
    ensures Td(At(h, n)) < Td(h)
    decreases h
  {
    if n < Num(h.block.parent) {
      TdStrict(h.block.parent, n);
    }
  }

  /** Chains that agree at one number agree at every number below it. */
  lemma PathsAgreeBelow(g: Hash, h: Hash, n: nat, m: nat)
    requires WellFormed(g) && WellFormed(h) && m <= n <= Num(g) && n <= Num(h)
    requires At(g, n) == At(h, n)
    ensures At(g, m) == At(h, m)
  {
    AtCompose(g, n, m);
    AtCompose(h, n, m);
  }

  /** What it means for a number to hash assignment to be exactly the chain ending in h. */
  ghost predicate IsPath(c: map<nat, Hash>, h: Hash) {
    && (forall n: nat :: n in c <==> n <= Num(h))
    && (forall n: nat :: n <= Num(h) ==> c[n] == At(h, n))
  }

  lemma PathIsPath(c: map<nat, Hash>, h: Hash)
    ensures IsPath(c, h) <==> c == Path(h)
  {
    if IsPath(c, h) {
      assert c.Keys == Path(h).Keys;
    }
  }

  /** A stored block is valid, and its parent is stored too unless it is the genesis block. */
  predicate Links(h: Hash, store: set<Hash>, genesis: Hash) {
    && h.HashOf? && LocallyValid(h.block)
    && (if h.block.parent.Zero? then h == genesis else h.block.parent in store)
  }

  /** A parent-closed store with a single root. The trigger keeps the solver from walking the ancestry. */
  ghost predicate Closed(store: set<Hash>, genesis: Hash) {
    && genesis in store && genesis.HashOf? && genesis.block.parent.Zero?
    && forall h {:trigger Links(h, store, genesis)} :: h in store ==> Links(h, store, genesis)
  }

  lemma ClosedExtend(store: set<Hash>, genesis: Hash, h: Hash)
    requires Closed(store, genesis) && h.HashOf? && LocallyValid(h.block)
    requires h.block.parent.HashOf? && h.block.parent in store
    ensures Closed(store + {h}, genesis)
  {
    forall g | g in store + {h}
      ensures Links(g, store + {h}, genesis)
    {
      assert g in store ==> Links(g, store, genesis);
    }
  }

  lemma {:induction false} ClosedWellFormed(store: set<Hash>, genesis: Hash, h: Hash)
    requires Closed(store, genesis) && h in store
    ensures WellFormed(h)
    decreases h
  {
    assert Links(h, store, genesis);
    if h.block.parent.HashOf? {
      ClosedWellFormed(store, genesis, h.block.parent);
    }
  }

  lemma {:induction false} ClosedAncestors(store: set<Hash>, genesis: Hash, h: Hash, n: nat)
    requires Closed(store, genesis) && h in store && n <= Num(h)
    ensures WellFormed(h) && At(h, n) in store && At(h, 0) == genesis
    decreases h
  {
    ClosedWellFormed(store, genesis, h);
    assert Links(h, store, genesis);
    if h.block.parent.HashOf? {
      ClosedAncestors(store, genesis, h.block.parent, if n < Num(h) then n else 0);
    }
  }
}
