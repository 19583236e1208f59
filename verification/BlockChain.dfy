/**
 core/blockchain.go: full blocks, their total difficulties, the canonical number to hash
 assignment, the transaction lookup index and the head block, rewritten by imports and
 reorganisations.
 */
module Blocks {
  import opened Common
  import opened ChainTree
  import opened Headers

  /** The lookup entries one block contributes: each of its transactions points at its number. */
  function Entries(h: Hash): map<Tx, nat> {
    if h.Zero? then map[] else map tx | tx in h.block.txs :: h.block.number
  }

  /** The lookup index obtained by scanning a whole chain. */
  function ChainIndex(h: Hash): map<Tx, nat>
    decreases h
  {
    if h.Zero? then map[] else ChainIndex(h.block.parent) + Entries(h)
  }

  /** No transaction occurs in two blocks of the chain. */
  predicate UniqueTxs(h: Hash)
    decreases h
  {
    h.Zero? || (UniqueTxs(h.block.parent) && forall tx :: tx in h.block.txs ==> tx !in ChainIndex(h.block.parent))
  }

  /** The transaction is in a block of the chain numbered above lo and at most hi. */
  ghost predicate Within(h: Hash, lo: int, hi: nat, tx: Tx) {
    exists n: nat :: lo < n <= hi && tx in Entries(At(h, n))
  }

  /** Scanning finds exactly the transactions of the chain, each at the number of its block. */
  lemma {:induction false} IndexLocates(h: Hash, tx: Tx)
    requires WellFormed(h)
    ensures tx in ChainIndex(h) <==> Within(h, -1, Num(h), tx)
    ensures tx in ChainIndex(h) ==> ChainIndex(h)[tx] <= Num(h) && tx in Entries(At(h, ChainIndex(h)[tx]))
    decreases h
  {
    var p := h.block.parent;
    if p.HashOf? {
      IndexLocates(p, tx);
      forall n: nat | n <= Num(p)
        ensures At(h, n) == At(p, n)
      {
      }
    }
    assert At(h, Num(h)) == h;
  }

  lemma {:induction false} IndexUnique(h: Hash, tx: Tx, n: nat)
    requires WellFormed(h) && UniqueTxs(h) && n <= Num(h) && tx in Entries(At(h, n))
    ensures tx in ChainIndex(h) && ChainIndex(h)[tx] == n
    decreases h
  {
    if n < Num(h) {
      IndexUnique(h.block.parent, tx, n);
    }
  }

  /** The chain lists the blocks of h from its head down to, but not including, height c. */
  ghost predicate IsBranch(chain: seq<Hash>, h: Hash, c: nat) {
    |chain| == Num(h) - c && forall i {:trigger chain[i]} :: 0 <= i < |chain| ==> chain[i] == At(h, Num(h) - i)
  }

  ghost predicate HoldsTxs(txs: seq<Tx>, h: Hash, c: nat) {
    forall tx :: tx in txs <==> Within(h, c, Num(h), tx)
  }

  ghost predicate StoredDownTo(blocks: set<Hash>, h: Hash, c: nat) {
    forall n: nat :: c <= n <= Num(h) ==> At(h, n) in blocks
  }

  /** The highest number at which the two chains hold the same block. */
  ghost predicate IsForkPoint(g: Hash, h: Hash, c: nat) {
    && c <= Num(g) && c <= Num(h) && At(g, c) == At(h, c)
    && forall n: nat :: c < n <= Num(g) && n <= Num(h) ==> At(g, n) != At(h, n)
  }

  lemma BranchStep(chain: seq<Hash>, txs: seq<Tx>, h: Hash, c: nat)
    requires WellFormed(h) && 0 < c <= Num(h) && IsBranch(chain, h, c) && HoldsTxs(txs, h, c)
    ensures At(h, c).HashOf? && At(h, c).block.parent == At(h, c - 1) && Num(At(h, c)) == c
    ensures IsBranch(chain + [At(h, c)], h, c - 1)
    ensures HoldsTxs(txs + At(h, c).block.txs, h, c - 1)
  {
    AtFacts(h, c);
    AtStep(h, c);
    forall tx
      ensures tx in txs + At(h, c).block.txs <==> Within(h, c - 1, Num(h), tx)
    {
      if tx in At(h, c).block.txs {
        assert tx in Entries(At(h, c));
      }
    }
  }

  /** Collects the blocks of a chain from its head down to the given height, which is read last. */
  method Descend(blocks: set<Hash>, h: Hash, to: nat) returns (ok: bool, chain: seq<Hash>, txs: seq<Tx>, end: Hash)
    requires WellFormed(h) && h in blocks && to <= Num(h)
    ensures ok <==> StoredDownTo(blocks, h, to)
    ensures ok ==> end == At(h, to) && IsBranch(chain, h, to) && HoldsTxs(txs, h, to)
  {
    ok, chain, txs, end := true, [], [], h;
    assert At(h, Num(h)) == h;
    while Num(end) != to
      invariant to <= Num(end) <= Num(h) && end == At(h, Num(end))
      invariant IsBranch(chain, h, Num(end)) && HoldsTxs(txs, h, Num(end))
      invariant StoredDownTo(blocks, h, Num(end))
      decreases Num(end)
    {
      var n := Num(end);
      BranchStep(chain, txs, h, n);
      AtFacts(h, n - 1);
      chain, txs := chain + [end], txs + end.block.txs;
      end := end.block.parent;
      if !Has(blocks, end, n - 1) {
        ok := false;
        return;
      }
    }
  }

  /** The two branches of a reorganisation. */
  datatype Fork = Fork(common: Hash, oldChain: seq<Hash>, newChain: seq<Hash>, deletedTxs: seq<Tx>)

  ghost predicate IsFork(f: Fork, oldHead: Hash, newHead: Hash) {
    && IsForkPoint(oldHead, newHead, Num(f.common)) && f.common == At(oldHead, Num(f.common))
    && IsBranch(f.oldChain, oldHead, Num(f.common)) && IsBranch(f.newChain, newHead, Num(f.common))
    && HoldsTxs(f.deletedTxs, oldHead, Num(f.common))
  }

  /**
   The walk of a reorganisation: the longer chain is reduced to the height of the shorter one,
   then both step back together until they meet. It fails exactly when a block on the way is
   missing or the chains never meet.
   */
  method FindFork(blocks: set<Hash>, oldHead: Hash, newHead: Hash) returns (ok: bool, f: Fork)
    requires WellFormed(oldHead) && WellFormed(newHead) && oldHead in blocks && newHead in blocks
    ensures ok ==> IsFork(f, oldHead, newHead)
    ensures ok <==> exists c: nat :: IsForkPoint(oldHead, newHead, c) && StoredDownTo(blocks, oldHead, c)
                                     && StoredDownTo(blocks, newHead, c)
  {
    var height := if Num(oldHead) > Num(newHead) then Num(newHead) else Num(oldHead);
    f := Fork(Zero, [], [], []);
    var oldOk, oldChain, txs, o := Descend(blocks, oldHead, height);
    if !oldOk {
      return false, f;
    }
    var newOk, newChain, _, n := Descend(blocks, newHead, height);
    if !newOk {
      return false, f;
    }
    AtFacts(oldHead, height);
    AtFacts(newHead, height);
    while o != n
      invariant Num(o) == Num(n) <= height && o == At(oldHead, Num(o)) && n == At(newHead, Num(o))
      invariant IsBranch(oldChain, oldHead, Num(o)) && IsBranch(newChain, newHead, Num(o))
                && HoldsTxs(txs, oldHead, Num(o))
      invariant StoredDownTo(blocks, oldHead, Num(o)) && StoredDownTo(blocks, newHead, Num(o))
      invariant forall m: nat :: Num(o) < m <= height ==> At(oldHead, m) != At(newHead, m)
      decreases Num(o)
    {
      var h := Num(o);
      if h == 0 {
        // Both chains ended in different genesis blocks: there is no parent to step back to.
        return false, f;
      }
      BranchStep(oldChain, txs, oldHead, h);
      BranchOnly(newChain, newHead, h);
      AtFacts(oldHead, h - 1);
      AtFacts(newHead, h - 1);
      oldChain, txs, newChain := oldChain + [o], txs + o.block.txs, newChain + [n];
      o, n := o.block.parent, n.block.parent;
      if !Has(blocks, o, h - 1) || !Has(blocks, n, h - 1) {
        return false, f;
      }
    }
    f := Fork(o, oldChain, newChain, txs);
    ok := true;
    assert IsForkPoint(oldHead, newHead, Num(o));
  }

  lemma BranchOnly(chain: seq<Hash>, h: Hash, c: nat)
    requires WellFormed(h) && 0 < c <= Num(h) && IsBranch(chain, h, c)
    ensures At(h, c).HashOf? && At(h, c).block.parent == At(h, c - 1) && Num(At(h, c)) == c
    ensures IsBranch(chain + [At(h, c)], h, c - 1)
  {
    AtFacts(h, c);
    AtStep(h, c);
  }

  /** The lookup index after the blocks numbered above lo and at most hi have been written in order. */
  ghost function IndexRange(index: map<Tx, nat>, h: Hash, lo: nat, hi: int): map<Tx, nat>
    decreases hi
  {
    if hi <= lo then index else IndexRange(index, h, lo, hi - 1) + Entries(At(h, hi))
  }

  lemma {:induction false} IndexRangeAt(index: map<Tx, nat>, h: Hash, lo: nat, hi: nat, tx: Tx)
    requires WellFormed(h) && hi <= Num(h)
    ensures var r := IndexRange(index, h, lo, hi);
            if Within(h, lo, hi, tx) then tx in r && lo < r[tx] <= hi && tx in Entries(At(h, r[tx]))
            else (tx in r <==> tx in index) && (tx in r ==> r[tx] == index[tx])
    decreases hi
  {
    if hi > lo {
      IndexRangeAt(index, h, lo, hi - 1, tx);
      AtFacts(h, hi);
      if tx in Entries(At(h, hi)) {
        assert Within(h, lo, hi, tx);
      }
    }
  }

  /** The transactions of the blocks of h numbered above c and at most height. */
  ghost predicate BranchTxs(txs: seq<Tx>, h: Hash, c: nat, height: int) {
    forall tx :: tx in txs <==> height > c && Within(h, c, height, tx)
  }

  /** Deleted transactions that the rewritten blocks, the new head excepted, do not contain. */
  function Dropped(deleted: seq<Tx>, added: seq<Tx>): set<Tx> {
    set tx | tx in deleted && tx !in added
  }

  /** The index after the new branch was written without its head, the old one dropped, and the head written last. */
  ghost function Rebuilt(index: map<Tx, nat>, newHead: Hash, c: nat, dropped: set<Tx>): map<Tx, nat> {
    (IndexRange(index, newHead, c, Num(newHead) - 1) - dropped) + Entries(newHead)
  }

  /** The rebuilt index is that of the new chain, although the head's transactions were deleted in between. */
  lemma ReorgIndex(oldHead: Hash, newHead: Hash, f: Fork, added: seq<Tx>)
    requires WellFormed(oldHead) && WellFormed(newHead) && UniqueTxs(oldHead) && UniqueTxs(newHead)
    requires IsFork(f, oldHead, newHead) && BranchTxs(added, newHead, Num(f.common), Num(newHead) - 1)
    ensures Rebuilt(ChainIndex(oldHead), newHead, Num(f.common), Dropped(f.deletedTxs, added)) == ChainIndex(newHead)
  {
    var left := Rebuilt(ChainIndex(oldHead), newHead, Num(f.common), Dropped(f.deletedTxs, added));
    var right := ChainIndex(newHead);
    forall tx
      ensures tx in left <==> tx in right
      ensures tx in left ==> left[tx] == right[tx]
    {
      if tx in Entries(newHead) {
        assert At(newHead, Num(newHead)) == newHead;
        IndexUnique(newHead, tx, Num(newHead));
      } else if tx in added {
        RebuiltInBranch(ChainIndex(oldHead), newHead, Num(f.common), Dropped(f.deletedTxs, added), tx);
      } else {
        RebuiltBelow(oldHead, newHead, f, added, tx);
      }
    }
    assert left.Keys == right.Keys;
  }

  lemma RebuiltInBranch(index: map<Tx, nat>, newHead: Hash, c: nat, dropped: set<Tx>, tx: Tx)
    requires WellFormed(newHead) && UniqueTxs(newHead) && Num(newHead) > 0 && Within(newHead, c, Num(newHead) - 1, tx)
    requires tx !in dropped && tx !in Entries(newHead)
    ensures tx in Rebuilt(index, newHead, c, dropped) && tx in ChainIndex(newHead)
    ensures Rebuilt(index, newHead, c, dropped)[tx] == ChainIndex(newHead)[tx]
  {
    hide ChainIndex, IndexRange, UniqueTxs, At, Within, WellFormed;
    var n := IndexRangeHit(index, newHead, c, Num(newHead) - 1, tx);
    IndexUnique(newHead, tx, n);
  }

  lemma RebuiltBelow(oldHead: Hash, newHead: Hash, f: Fork, added: seq<Tx>, tx: Tx)
    requires WellFormed(oldHead) && WellFormed(newHead) && UniqueTxs(oldHead) && UniqueTxs(newHead)
    requires IsFork(f, oldHead, newHead) && BranchTxs(added, newHead, Num(f.common), Num(newHead) - 1)
    requires tx !in Entries(newHead) && tx !in added
    ensures var left := Rebuilt(ChainIndex(oldHead), newHead, Num(f.common), Dropped(f.deletedTxs, added));
            var right := ChainIndex(newHead);
            (tx in left <==> tx in right) && (tx in left ==> left[tx] == right[tx])
  {
    IndexRangeMiss(ChainIndex(oldHead), newHead, Num(f.common), Num(newHead) - 1, tx);
    assert !Within(newHead, Num(f.common), Num(newHead), tx);
    KeptBelow(oldHead, newHead, Num(f.common), tx);
  }

  lemma IndexRangeHit(index: map<Tx, nat>, h: Hash, lo: nat, hi: nat, tx: Tx) returns (n: nat)
    requires WellFormed(h) && hi <= Num(h) && Within(h, lo, hi, tx)
    ensures lo < n <= hi && tx in Entries(At(h, n))
    ensures tx in IndexRange(index, h, lo, hi) && IndexRange(index, h, lo, hi)[tx] == n
  {
    IndexRangeAt(index, h, lo, hi, tx);
    n := IndexRange(index, h, lo, hi)[tx];
  }

  lemma IndexRangeMiss(index: map<Tx, nat>, h: Hash, lo: nat, hi: int, tx: Tx)
    requires WellFormed(h) && hi <= Num(h) && (hi < 0 || !Within(h, lo, hi, tx))
    ensures var r := IndexRange(index, h, lo, hi);
            (tx in r <==> tx in index) && (tx in r ==> r[tx] == index[tx])
  {
    if hi >= 0 {
      IndexRangeAt(index, h, lo, hi, tx);
    }
  }

  /** Outside the new branch a transaction is indexed by the new chain iff the old one indexes it below the fork. */
  lemma KeptBelow(oldHead: Hash, newHead: Hash, c: nat, tx: Tx)
    requires WellFormed(oldHead) && WellFormed(newHead) && UniqueTxs(oldHead) && UniqueTxs(newHead)
    requires IsForkPoint(oldHead, newHead, c) && !Within(newHead, c, Num(newHead), tx)
    ensures tx in ChainIndex(newHead) <==> tx in ChainIndex(oldHead) && !Within(oldHead, c, Num(oldHead), tx)
    ensures tx in ChainIndex(newHead) ==> ChainIndex(newHead)[tx] == ChainIndex(oldHead)[tx]
  {
    IndexLocates(oldHead, tx);
    IndexLocates(newHead, tx);
    if tx in ChainIndex(newHead) {
      var n := ChainIndex(newHead)[tx];
      assert n <= c;
      PathsAgreeBelow(oldHead, newHead, c, n);
      IndexUnique(oldHead, tx, n);
      if Within(oldHead, c, Num(oldHead), tx) {
        var m: nat :| c < m <= Num(oldHead) && tx in Entries(At(oldHead, m));
        IndexUnique(oldHead, tx, m);
      }
    }
    if tx in ChainIndex(oldHead) && ChainIndex(oldHead)[tx] <= c {
      var n := ChainIndex(oldHead)[tx];
      PathsAgreeBelow(oldHead, newHead, c, n);
      assert tx in Entries(At(newHead, n));
    }
  }

  /** The fork choice of a full import: weight, then height, then the local miner, then the coin. */
  ghost predicate BlockTakesOver(block: Hash, current: Hash, preserveCurrent: bool, preserveBlock: bool, coin: bool) {
    || Td(block) > Td(current)
    || (Td(block) == Td(current)
        && (Num(block) < Num(current)
            || (Num(block) == Num(current) && !preserveCurrent && (preserveBlock || coin))))
  }

  /** A better block becomes the head, a worse one does not; among equals the local miner's, then the coin decides. */
  ghost predicate Preferred(current: Hash, block: Hash, preserveCurrent: bool, preserveBlock: bool, coin: bool,
                            head: Hash) {
    && (Better(block, current) ==> head == block)
    && (Better(current, block) ==> head == current)
    && (!Better(block, current) && !Better(current, block) ==>
          && (preserveCurrent ==> head == current)
          && (!preserveCurrent && preserveBlock ==> head == block)
          && (!preserveCurrent && !preserveBlock ==> head == if coin then block else current))
  }

  /** A different canonical block of the same number has the same state root. */
  predicate GhostState(canonical: map<nat, Hash>, current: Hash, block: Block) {
    var c := ReadCanonical(canonical, block.number);
    block.number <= Num(current) && c.HashOf? && c != HashOf(block) && c.block.root == block.root
  }

  /** The canonical assignment covers 0..top without gaps and follows the chain of the head up to its number. */
  ghost predicate Tracks(canonical: map<nat, Hash>, head: Hash, top: nat) {
    && Num(head) <= top
    && (forall n: nat :: n in canonical <==> n <= top)
    && (forall n: nat :: n <= Num(head) ==> canonical[n] == At(head, n))
    && (forall n: nat :: n in canonical ==> canonical[n] != Zero)
  }

  /** The assignment after the branch of h has been written from above c up to height. */
  ghost function Rewritten(canonical: map<nat, Hash>, h: Hash, c: nat, height: int): map<nat, Hash>
    decreases height
  {
    if height <= c then canonical else Rewritten(canonical, h, c, height - 1)[height := At(h, height)]
  }

  lemma {:induction false} RewrittenAt(canonical: map<nat, Hash>, h: Hash, c: nat, height: int, n: nat)
    ensures var r := Rewritten(canonical, h, c, height);
            && (n in r <==> n in canonical || c < n <= height)
            && (n in r ==> r[n] == if c < n <= height then At(h, n) else canonical[n])
    decreases height
  {
    if height > c {
      RewrittenAt(canonical, h, c, height - 1, n);
    }
  }

  /** Stores the positional entry of every transaction of a block. */
  method IndexBlock(lookup: map<Tx, nat>, block: Hash) returns (lookup': map<Tx, nat>)
    requires block.HashOf?
    ensures lookup' == lookup + Entries(block)
  {
    lookup' := lookup;
    var txs := block.block.txs;
    for i := 0 to |txs|
      invariant forall tx :: tx in lookup' <==> tx in lookup || tx in txs[..i]
      invariant forall tx :: tx in lookup' ==> lookup'[tx] == if tx in txs[..i] then block.block.number else lookup[tx]
    {
      lookup' := lookup'[txs[i] := block.block.number];
    }
    assert txs[..|txs|] == txs;
    assert lookup'.Keys == (lookup + Entries(block)).Keys;
  }

  /** The parent has no total difficulty, or a full block is missing on the way to the common ancestor. */
  datatype ImportError = NoError | ParentUnknown | BranchMissing

  /** The writers that share the stored total difficulties. */
  datatype Write =
    | Full(block: Block, preserveCurrent: bool, preserveBlock: bool, coin: bool)
    | SideBlocks(batch: seq<Block>)
    | HeaderBatch(batch: seq<Block>)

  /** What verification establishes before anything is written. */
  ghost predicate Verified(w: Write) {
    match w
    case Full(block, _, _, _) => LocallyValid(block) && UniqueTxs(HashOf(block))
    case SideBlocks(batch) =>
      Contiguous(batch) && forall i :: 0 <= i < |batch| ==> UniqueTxs(HashOf(batch[i]))
    case HeaderBatch(batch) => Contiguous(batch)
  }

  class BlockChain {
    const genesis: Hash
    var headers: set<Hash>  // the headers with a total difficulty, whichever writer stored them
    var blocks: set<Hash>
    var tds: map<Hash, nat>
    var canonical: map<nat, Hash>
    var lookup: map<Tx, nat>
    var currentBlock: Hash
    var currentFastBlock: Hash
    var currentHeader: Hash
    ghost var top: nat  // the highest assigned canonical number

    ghost predicate Valid()
      reads this
    {
      && Closed(headers, genesis) && TdsExact(tds, headers) && blocks <= headers
      && currentBlock in blocks && StoredDownTo(blocks, currentBlock, 0)
      && Tracks(canonical, currentBlock, top) && MarksStored(canonical, blocks)
      && lookup == ChainIndex(currentBlock)
      && forall h :: h in blocks ==> UniqueTxs(h)
    }

    constructor (genesis: Block)
      requires LocallyValid(genesis) && genesis.parent.Zero?
      ensures Valid() && headers == blocks == {HashOf(genesis)} && currentBlock == this.genesis == HashOf(genesis)
      ensures top == 0
    {
      var hash := HashOf(genesis);
      this.genesis, headers, blocks := hash, {hash}, {hash};
      tds, canonical := map[hash := genesis.difficulty], map[0 := hash];
      lookup := map tx | tx in genesis.txs :: 0;
      currentBlock, currentFastBlock, currentHeader, top := hash, hash, hash, 0;
      new;
      assert Td(hash) == genesis.difficulty;
      assert ChainIndex(hash) == Entries(hash) == lookup;
      forall h | h in headers
        ensures Links(h, headers, this.genesis)
      {
      }
    }

    /** Makes a block the head; the header and fast sync heads follow if it was not canonical. */
    method WriteHeadBlock(block: Hash)
      requires block.HashOf?
      modifies `canonical, `lookup, `currentBlock, `currentFastBlock, `currentHeader
      ensures canonical == old(canonical)[Num(block) := block]
      ensures lookup == old(lookup) + Entries(block)
      ensures currentBlock == block
      ensures var forced := ReadCanonical(old(canonical), Num(block)) != block;
              && currentHeader == (if forced then block else old(currentHeader))
              && currentFastBlock == (if forced then block else old(currentFastBlock))
    {
      var updateHeads := ReadCanonical(canonical, Num(block)) != block;
      canonical := canonical[Num(block) := block];
      lookup := IndexBlock(lookup, block);
      if updateHeads {
        currentHeader, currentFastBlock := block, block;
      }
      currentBlock := block;
    }

    /** Inserts the new branch in increasing order, all but its head, and collects its transactions. */
    method WriteBranch(newChain: seq<Hash>, ghost newHead: Hash, ghost c: nat) returns (added: seq<Tx>)
      requires WellFormed(newHead) && c <= Num(newHead) && IsBranch(newChain, newHead, c)
      modifies `canonical, `lookup, `currentBlock, `currentFastBlock, `currentHeader
      ensures canonical == Rewritten(old(canonical), newHead, c, Num(newHead) - 1)
      ensures lookup == IndexRange(old(lookup), newHead, c, Num(newHead) - 1)
      ensures BranchTxs(added, newHead, c, Num(newHead) - 1)
      ensures currentBlock == if |newChain| >= 2 then At(newHead, Num(newHead) - 1) else old(currentBlock)
    {
      added := [];
      ghost var height := c as int;
      var i := |newChain| - 1;
      while i >= 1
        invariant height == (if newChain == [] then c else Num(newHead) - i - 1) >= c
        invariant i < |newChain| && (i < 1 ==> i == (if |newChain| == 0 then -1 else 0))
        invariant canonical == Rewritten(old(canonical), newHead, c, height)
        invariant lookup == IndexRange(old(lookup), newHead, c, height)
        invariant BranchTxs(added, newHead, c, height)
        invariant currentBlock == if height > c then At(newHead, height) else old(currentBlock)
      {
        height := height + 1;
        BranchTxsStep(newHead, c, height, added);
        assert newChain[i] == At(newHead, height);
        WriteHeadBlock(newChain[i]);
        added := added + newChain[i].block.txs;
        i := i - 1;
      }
    }

    /**
     Rewrites history from the current head towards a new one, up to but not including the new head,
     and deletes the lookup entries and canonical assignments that became useless.
     */
    method Reorg(newHead: Hash) returns (ok: bool, ghost f: Fork, ghost added: seq<Tx>)
      requires WellFormed(currentBlock) && WellFormed(newHead) && currentBlock in blocks && newHead in blocks
      requires Tracks(canonical, currentBlock, top)
      modifies `canonical, `lookup, `currentBlock, `currentFastBlock, `currentHeader
      ensures ok <==> exists c: nat :: IsForkPoint(old(currentBlock), newHead, c)
                                       && StoredDownTo(blocks, old(currentBlock), c) && StoredDownTo(blocks, newHead, c)
      ensures !ok ==> unchanged(this)
      ensures ok ==>
                var c := Num(f.common);
                var long := |f.newChain| >= 2;
                && IsFork(f, old(currentBlock), newHead) && BranchTxs(added, newHead, c, Num(newHead) - 1)
                && currentBlock == (if long then At(newHead, Num(newHead) - 1) else old(currentBlock))
                && BranchWritten(old(canonical), canonical, newHead, c, long, Num(old(currentBlock)))
                && lookup == IndexRange(old(lookup), newHead, c, Num(newHead) - 1) - Dropped(f.deletedTxs, added)
    {
      var fork;
      ok, fork := FindFork(blocks, currentBlock, newHead);
      f, added := fork, [];
      if !ok {
        return;
      }
      var addedTxs := WriteBranch(fork.newChain, newHead, Num(f.common));
      added := addedTxs;
      lookup := lookup - Dropped(fork.deletedTxs, addedTxs);
      canonical := DropAbove(old(canonical), canonical, currentBlock, old(currentBlock), newHead, Num(f.common), top);
    }

    /**
     Makes a stored block the head, reorganising first unless it extends the current head. This fails, without
     effect, exactly when some ancestor of the block is known by its header only.
     */
    method WriteKnownBlock(block: Hash) returns (ok: bool)
      requires Valid() && block in blocks && block.HashOf?
      modifies `canonical, `lookup, `currentBlock, `currentFastBlock, `currentHeader, `top
      ensures Valid() && (ok <==> StoredDownTo(blocks, block, 0))
      ensures ok ==> currentBlock == block
      ensures ok ==> Switched(old(currentBlock), block, old(canonical), old(top), canonical, top, lookup)
      ensures !ok ==> unchanged(this)
    {
      ghost var oldHead := currentBlock;
      ClosedWellFormed(headers, genesis, currentBlock);
      ClosedWellFormed(headers, genesis, block);
      ForkIffStored(headers, genesis, blocks, currentBlock, block);
      ghost var marks := canonical;
      if block.block.parent != currentBlock {
        ghost var f, added;
        ok, f, added := Reorg(block);
        if !ok {
          return;
        }
        top := if |f.newChain| >= 2 then Num(block) else Max(Num(oldHead), Num(block));
        SwitchedByReorg(oldHead, block, f, added, old(canonical), old(top), canonical, lookup);
      } else {
        top := Max(top, Num(block));
        SwitchedByExtension(oldHead, block, canonical, old(top), lookup);
      }
      WriteHeadBlock(block);
      SwitchedMarks(blocks, oldHead, block, marks, old(top), canonical, top, lookup);
      ok := true;
    }

    /** Stores a block with the total difficulty its writer computed; no state and no head change. */
    method WriteBlockWithoutState(block: Block, td: nat)
      requires Valid() && LocallyValid(block) && block.parent in headers && UniqueTxs(HashOf(block))
      requires td == Td(HashOf(block))
      modifies `headers, `blocks, `tds
      ensures Valid() && blocks == old(blocks) + {HashOf(block)} && headers == old(headers) + {HashOf(block)}
    {
      assert Links(block.parent, headers, genesis);
      InsertKeeps(headers, tds, genesis, HashOf(block));
      tds, blocks, headers := tds[HashOf(block) := td], blocks + {HashOf(block)}, headers + {HashOf(block)};
    }

    /** The storage phase of a header import, which shares the total difficulties with the block writers. */
    method StoreHeaders(batch: seq<Block>) returns (unknownAncestor: bool)
      requires Valid() && Contiguous(batch)
      modifies `headers, `tds
      ensures Valid() && (unknownAncestor <==> batch != [] && batch[0].parent !in old(headers))
      ensures headers == if unknownAncestor then old(headers) else old(headers) + Hashes(batch)
    {
      unknownAncestor := false;
      if batch != [] {
        if batch[0].parent !in tds {
          return true;
        }
        var headers', tds', _, _, _ := StoreBatch(headers, tds, genesis, batch);
        headers, tds := headers', tds';
      }
    }

    /**
     Imports an executed block. preserveCurrent and preserveBlock are the answers of the local miner
     check, coin the random tie break.
     */
    method WriteBlockWithState(block: Block, preserveCurrent: bool, preserveBlock: bool, coin: bool)
      returns (status: WriteStatus, err: ImportError)
      requires Valid() && LocallyValid(block) && UniqueTxs(HashOf(block))
      modifies this
      ensures Valid() && Td(currentBlock) >= Td(old(currentBlock))
      ensures Td(currentBlock) == Td(old(currentBlock)) ==> Num(currentBlock) <= Num(old(currentBlock))
      ensures err.NoError? ==>
                Preferred(old(currentBlock), HashOf(block), preserveCurrent, preserveBlock, coin, currentBlock)
      ensures err.ParentUnknown? <==> block.parent !in old(headers)
      ensures err.ParentUnknown? ==> unchanged(this) && status == NonStat
      ensures !err.ParentUnknown? ==>
                var hash := HashOf(block);
                var local := old(currentBlock);
                var takesOver := BlockTakesOver(hash, local, preserveCurrent, preserveBlock, coin);
                && blocks == old(blocks) + {hash} && headers == old(headers) + {hash}
                && (err.BranchMissing? <==> takesOver && !StoredDownTo(blocks, hash, 0))
                && currentBlock == (if takesOver && err.NoError? then hash else local)
                && status == (if !err.NoError? then NonStat else if takesOver then CanonStat else SideStat)
                && (takesOver && err.NoError? ==>
                      Switched(local, hash, old(canonical), old(top), canonical, top, lookup))
                && (!takesOver || !err.NoError? ==>
                      canonical == old(canonical) && lookup == old(lookup) && top == old(top))
    {
      if block.parent !in tds {
        return NonStat, ParentUnknown;
      }
      var hash := HashOf(block);
      var localTd := tds[currentBlock];
      var externTd := block.difficulty + tds[block.parent];
      WriteBlockWithoutState(block, externTd);
      var reorg := externTd > localTd;
      if !reorg && externTd == localTd {
        if block.number < Num(currentBlock) {
          reorg := true;
        } else if block.number == Num(currentBlock) {
          reorg := !preserveCurrent && (preserveBlock || coin);
        }
      }
      status, err := SideStat, NoError;
      if reorg {
        var ok := WriteKnownBlock(hash);
        if !ok {
          return NonStat, BranchMissing;
        }
        status := CanonStat;
      }
    }

    /**
     The storage phase of a side chain import: total difficulties are accumulated from the parent of the
     first block, or taken over from a block that turns out to be canonical. Returns None when a block
     shares its state root with the canonical block of its number.
     */
    method InsertSideBlocks(batch: seq<Block>) returns (externTd: Option<nat>)
      requires Valid() && batch != [] && Contiguous(batch) && batch[0].parent in headers
      requires forall i :: 0 <= i < |batch| ==> UniqueTxs(HashOf(batch[i]))
      modifies `headers, `blocks, `tds
      ensures Valid() && old(headers) <= headers && old(blocks) <= blocks
      ensures externTd.None? <==> exists i :: 0 <= i < |batch| && GhostState(canonical, currentBlock, batch[i])
      ensures externTd.Some? ==> externTd.value == Td(LastHash(batch)) && blocks == old(blocks) + Hashes(batch)
      ensures externTd.Some? ==> headers == old(headers) + Hashes(batch)
    {
      hide Tracks, ChainIndex, Closed, TdsExact, StoredDownTo, UniqueTxs, GhostState;
      externTd := None;
      var i := 0;
      while i < |batch|
        invariant 0 <= i <= |batch|
        invariant Valid() && blocks == old(blocks) + Hashes(batch[..i]) && headers == old(headers) + Hashes(batch[..i])
        invariant i > 0 ==> HashOf(batch[i - 1]) in headers && externTd == Some(Td(HashOf(batch[i - 1])))
        invariant i == 0 ==> batch[0].parent in headers && externTd == None
        invariant forall j :: 0 <= j < i ==> !GhostState(canonical, currentBlock, batch[j])
      {
        assert LinkedAt(batch, i);
        HashesExtend(old(blocks), batch, i);
        HashesExtend(old(headers), batch, i);
        externTd := InsertSideBlock(batch[i], externTd);
        if externTd.None? {
          return;
        }
        i := i + 1;
      }
      assert batch[..i] == batch;
    }

    method Do(w: Write)
      requires Valid() && Verified(w)
      modifies this
      ensures Valid() && old(headers) <= headers && old(blocks) <= blocks && Td(currentBlock) >= Td(old(currentBlock))
    {
      match w {
        case Full(block, preserveCurrent, preserveBlock, coin) =>
          var _, _ := WriteBlockWithState(block, preserveCurrent, preserveBlock, coin);
        case SideBlocks(batch) =>
          // A side chain is entered only from a block whose parent is known.
          if batch != [] && batch[0].parent in tds {
            var _ := InsertSideBlocks(batch);
          }
        case HeaderBatch(batch) =>
          var _ := StoreHeaders(batch);
      }
    }

    /**
     Any interleaving of the writers: every total difficulty stays the sum along the ancestry, whoever stored it,
     nothing is lost, and the head never gets lighter.
     */
    method Serve(writes: seq<Write>)
      requires Valid() && forall w :: w in writes ==> Verified(w)
      modifies this
      ensures Valid() && old(headers) <= headers && old(blocks) <= blocks && Td(currentBlock) >= Td(old(currentBlock))
      ensures tds.Keys == headers && forall h :: h in tds ==> tds[h] == Td(h)
    {
      for i := 0 to |writes|
        invariant Valid() && old(headers) <= headers && old(blocks) <= blocks
        invariant Td(currentBlock) >= Td(old(currentBlock))
      {
        assert writes[i] in writes;
        Do(writes[i]);
      }
    }

    /** One round of the side chain import. */
    method InsertSideBlock(block: Block, parentTd: Option<nat>) returns (externTd: Option<nat>)
      requires Valid() && LocallyValid(block) && block.parent in headers && UniqueTxs(HashOf(block))
      requires parentTd.Some? ==> parentTd.value == Td(block.parent)
      modifies `headers, `blocks, `tds
      ensures Valid()
      ensures externTd.None? <==> GhostState(canonical, currentBlock, block)
      ensures externTd.None? ==> blocks == old(blocks) && headers == old(headers)
      ensures externTd.Some? ==> externTd.value == Td(HashOf(block)) && blocks == old(blocks) + {HashOf(block)}
      ensures externTd.Some? ==> headers == old(headers) + {HashOf(block)}
    {
      var hash := HashOf(block);
      if block.number <= Num(currentBlock) && ReadCanonical(canonical, block.number) == hash {
        // A canonical block whose state was pruned is imported again.
        assert hash == At(currentBlock, block.number) && hash in blocks;
        return Some(tds[hash]);
      }
      if GhostState(canonical, currentBlock, block) {
        return None;
      }
      var td := if parentTd.None? then tds[block.parent] else parentTd.value;
      externTd := Some(td + block.difficulty);
      if hash !in blocks {
        WriteBlockWithoutState(block, externTd.value);
      }
    }
  }

  /** From a head whose ancestry is stored, the walk to a fork point succeeds iff the block's ancestry is stored too. */
  lemma ForkIffStored(headers: set<Hash>, genesis: Hash, blocks: set<Hash>, g: Hash, h: Hash)
    requires Closed(headers, genesis) && g in headers && h in headers && StoredDownTo(blocks, g, 0)
    ensures (exists c: nat :: IsForkPoint(g, h, c) && StoredDownTo(blocks, g, c) && StoredDownTo(blocks, h, c)) <==>
            StoredDownTo(blocks, h, 0)
    ensures h in blocks && h.HashOf? && h.block.parent == g ==> StoredDownTo(blocks, h, 0)
  {
    ClosedWellFormed(headers, genesis, g);
    ClosedWellFormed(headers, genesis, h);
    if StoredDownTo(blocks, h, 0) {
      ForkPointExists(headers, genesis, g, h, if Num(g) < Num(h) then Num(g) else Num(h));
    }
    forall c: nat | IsForkPoint(g, h, c) && StoredDownTo(blocks, h, c)
      ensures StoredDownTo(blocks, h, 0)
    {
      StoredThrough(blocks, g, h, c);
    }
    if h in blocks && h.block.parent == g {
      ChildStored(blocks, g, h);
    }
  }

  lemma ChildStored(blocks: set<Hash>, g: Hash, h: Hash)
    requires StoredDownTo(blocks, g, 0) && h in blocks && g.HashOf?
    requires h.HashOf? && h.block.parent == g && h.block.number == Num(g) + 1
    ensures StoredDownTo(blocks, h, 0)
  {
    forall n: nat | n <= Num(h)
      ensures At(h, n) in blocks
    {
      assert n < Num(h) ==> At(h, n) == At(g, n);
    }
  }

  lemma StoredThrough(blocks: set<Hash>, g: Hash, h: Hash, c: nat)
    requires WellFormed(g) && WellFormed(h) && StoredDownTo(blocks, g, 0)
    requires IsForkPoint(g, h, c) && StoredDownTo(blocks, h, c)
    ensures StoredDownTo(blocks, h, 0)
  {
    forall n: nat | n < c
      ensures At(h, n) in blocks
    {
      PathsAgreeBelow(g, h, c, n);
    }
  }

  /** Two chains of one parent-closed store always have a fork point, and the walk to it never fails. */
  lemma {:induction false} ForkPointExists(blocks: set<Hash>, genesis: Hash, g: Hash, h: Hash, n: nat)
    requires Closed(blocks, genesis) && g in blocks && h in blocks && n <= Num(g) && n <= Num(h)
    requires forall m: nat :: n < m <= Num(g) && m <= Num(h) ==> At(g, m) != At(h, m)
    ensures exists c: nat :: IsForkPoint(g, h, c) && StoredDownTo(blocks, g, c) && StoredDownTo(blocks, h, c)
    decreases n
  {
    if At(g, n) == At(h, n) {
      assert IsForkPoint(g, h, n);
      forall m: nat | m <= Num(g) { ClosedAncestors(blocks, genesis, g, m); }
      forall m: nat | m <= Num(h) { ClosedAncestors(blocks, genesis, h, m); }
    } else {
      ClosedAncestors(blocks, genesis, g, 0);
      ClosedAncestors(blocks, genesis, h, 0);
      ForkPointExists(blocks, genesis, g, h, n - 1);
    }
  }

  /**
   The outcome of moving the head: the lookup index and the canonical assignment follow the new chain,
   and assignments above the new head remain exactly when the new branch is no longer than one block
   and the old chain reached higher.
   */
  ghost predicate Switched(oldHead: Hash, block: Hash, canonical: map<nat, Hash>, top: nat,
                           canonical': map<nat, Hash>, top': nat, lookup': map<Tx, nat>)
    requires block.HashOf?
  {
    && lookup' == ChainIndex(block)
    && Tracks(canonical', block, top')
    && (forall n: nat :: Num(block) < n <= top' ==> n in canonical && canonical'[n] == canonical[n])
    && (if block.block.parent == oldHead then top' == Max(top, Num(block))
        else forall c: nat :: IsForkPoint(oldHead, block, c) ==>
               top' == if Num(block) - c >= 2 then Num(block) else Max(Num(oldHead), Num(block)))
  }

  /** Every assignment is still a stored block of its number. */
  lemma SwitchedMarks(blocks: set<Hash>, oldHead: Hash, block: Hash, canonical: map<nat, Hash>, top: nat,
                      canonical': map<nat, Hash>, top': nat, lookup': map<Tx, nat>)
    requires WellFormed(block) && MarksStored(canonical, blocks) && StoredDownTo(blocks, block, 0)
    requires Switched(oldHead, block, canonical, top, canonical', top', lookup')
    ensures MarksStored(canonical', blocks)
  {
    forall n: nat | n in canonical'
      ensures Has(blocks, canonical'[n], n)
    {
      if n <= Num(block) {
        AtFacts(block, n);
      }
    }
  }

  lemma SwitchedByExtension(oldHead: Hash, block: Hash, canonical: map<nat, Hash>, top: nat, lookup: map<Tx, nat>)
    requires WellFormed(block) && block.block.parent == oldHead && oldHead.HashOf?
    requires Tracks(canonical, oldHead, top) && lookup == ChainIndex(oldHead)
    ensures Switched(oldHead, block, canonical, top, canonical[Num(block) := block], Max(top, Num(block)),
                     lookup + Entries(block))
  {
  }

  lemma SwitchedByReorg(oldHead: Hash, block: Hash, f: Fork, added: seq<Tx>, canonical: map<nat, Hash>, top: nat,
                        canonical': map<nat, Hash>, lookup': map<Tx, nat>)
    requires WellFormed(oldHead) && WellFormed(block) && UniqueTxs(oldHead) && UniqueTxs(block)
    requires block.block.parent != oldHead && Tracks(canonical, oldHead, top) && IsFork(f, oldHead, block)
    requires BranchTxs(added, block, Num(f.common), Num(block) - 1)
    requires BranchWritten(canonical, canonical', block, Num(f.common), |f.newChain| >= 2, Num(oldHead))
    requires lookup' == IndexRange(ChainIndex(oldHead), block, Num(f.common), Num(block) - 1)
                        - Dropped(f.deletedTxs, added)
    ensures Switched(oldHead, block, canonical, top, canonical'[Num(block) := block],
                     if |f.newChain| >= 2 then Num(block) else Max(Num(oldHead), Num(block)), lookup' + Entries(block))
  {
    ReorgIndex(oldHead, block, f, added);
    TracksAfter(oldHead, block, f, canonical, top, canonical');
    forall c: nat | IsForkPoint(oldHead, block, c)
      ensures c == Num(f.common)
    {
      ForkPointUnique(oldHead, block, c, Num(f.common));
    }
  }

  function Max(a: nat, b: nat): nat {
    if a > b then a else b
  }

  lemma TracksAfter(oldHead: Hash, block: Hash, f: Fork, canonical: map<nat, Hash>, top: nat,
                    canonical': map<nat, Hash>)
    requires WellFormed(oldHead) && WellFormed(block) && Tracks(canonical, oldHead, top) && IsFork(f, oldHead, block)
    requires BranchWritten(canonical, canonical', block, Num(f.common), |f.newChain| >= 2, Num(oldHead))
    ensures var top' := if |f.newChain| >= 2 then Num(block) else Max(Num(oldHead), Num(block));
            var final := canonical'[Num(block) := block];
            && Tracks(final, block, top')
            && (forall n: nat :: Num(block) < n <= top' ==> n in canonical && final[n] == canonical[n])
  {
    var c := Num(f.common);
    var final := canonical'[Num(block) := block];
    forall n: nat | n <= Num(block)
      ensures n in final && final[n] == At(block, n)
    {
      if n <= c {
        PathsAgreeBelow(oldHead, block, c, n);
      }
    }
    forall n: nat | n in final
      ensures final[n] != Zero
    {
      if n <= Num(block) {
        AtFacts(block, n);
      }
    }
  }

  /**
   Nothing stays assigned above the new head iff there was nothing above it, for a child of the old head, or else
   iff its branch has two blocks or the old head was not higher.
   */
  lemma NothingAboveIff(oldHead: Hash, block: Hash, c: nat, canonical: map<nat, Hash>, top: nat,
                        canonical': map<nat, Hash>, top': nat, lookup': map<Tx, nat>)
    requires block.HashOf? && IsForkPoint(oldHead, block, c) && Tracks(canonical, oldHead, top)
    requires Switched(oldHead, block, canonical, top, canonical', top', lookup')
    ensures canonical' == Path(block) <==>
              if block.block.parent == oldHead then Num(block) + 1 !in canonical
              else Num(block) - c >= 2 || Num(block) >= Num(oldHead)
  {
    PathIsPath(canonical', block);
    assert top' in canonical';
  }

  /** A child of the head always becomes the head; what is assigned above it stays. */
  method ExtendHead(bc: BlockChain, block: Block)
    requires bc.Valid() && LocallyValid(block) && UniqueTxs(HashOf(block)) && block.parent == bc.currentBlock
    modifies bc
    ensures bc.Valid() && bc.currentBlock == HashOf(block) && bc.top == Max(old(bc.top), block.number)
    ensures bc.headers == old(bc.headers) + {HashOf(block)} && bc.blocks == old(bc.blocks) + {HashOf(block)}
  {
    assert bc.currentBlock in bc.headers;
    assert Td(HashOf(block)) > Td(bc.currentBlock);
    ClosedWellFormed(bc.headers, bc.genesis, bc.currentBlock);
    ChildStored(bc.blocks + {HashOf(block)}, bc.currentBlock, HashOf(block));
    var _, _ := bc.WriteBlockWithState(block, false, false, false);
  }

  /** A single heavy block can take over from a longer chain, whose assignments stay behind above it. */
  method Overtaken() returns (bc: BlockChain, three: Hash, heavy: Hash)
    ensures bc.Valid() && three in bc.headers && heavy in bc.headers && bc.currentBlock == heavy
    ensures IsHeight3(bc.genesis, three) && heavy.HashOf? && heavy.block.parent == bc.genesis && Num(heavy) == 1
    ensures bc.top == 3 && heavy != At(three, 1) && bc.canonical[1] == heavy && bc.canonical[3] == three
    ensures UniqueTxs(heavy) && fresh(bc) && forall h :: h in bc.headers ==> Num(h) <= 3
  {
    hide ChainIndex, Closed, TdsExact, IsForkPoint, StoredDownTo, UniqueTxs, At, Td, BlockTakesOver, MarksStored;
    var g := Block(Zero, 0, 1, 0, [], 0);
    var one := Block(HashOf(g), 1, 1, 0, [], 1);
    var two := Block(HashOf(one), 2, 1, 0, [], 2);
    var last := Block(HashOf(two), 3, 1, 0, [], 3);
    var rival := Block(HashOf(g), 1, 9, 0, [], 4);
    bc := new BlockChain(g);
    NoTxs(HashOf(one));
    ExtendHead(bc, one);
    NoTxs(HashOf(two));
    ExtendHead(bc, two);
    NoTxs(HashOf(last));
    ExtendHead(bc, last);
    three, heavy := HashOf(last), HashOf(rival);
    HeavyTakesOver(g, one, two, last, rival);
    NoTxs(heavy);
    HeavyStored(bc.blocks + {heavy}, g, rival);
    SelfAt(three);
    SelfAt(heavy);
    var _, _ := bc.WriteBlockWithState(rival, false, false, false);
  }

  predicate IsHeight3(g: Hash, h: Hash) {
    && g.HashOf? && g.block.number == 0
    && h.HashOf? && h.block.number == 3 && h.block.parent.HashOf? && h.block.parent.block.number == 2
    && h.block.parent.block.parent.HashOf? && h.block.parent.block.parent.block.number == 1
    && h.block.parent.block.parent.block.parent == g
  }

  lemma SelfAt(h: Hash)
    ensures At(h, Num(h)) == h
  {
  }

  /** Assignments stay behind even when the new chain is extended by a block. */
  method LeftoverExample() returns (bc: BlockChain)
    ensures bc.Valid() && Num(bc.currentBlock) == 2 && 3 in bc.canonical && bc.canonical != Path(bc.currentBlock)
  {
    hide ChainIndex, Closed, TdsExact, StoredDownTo, UniqueTxs, At, Td, MarksStored;
    var three, heavy;
    bc, three, heavy := Overtaken();
    var next := Block(heavy, 2, 1, 0, [], 5);
    NoTxs(HashOf(next));
    ExtendHead(bc, next);
  }

  lemma HeavyStored(blocks: set<Hash>, genesis: Block, heavy: Block)
    requires HashOf(genesis) in blocks && HashOf(heavy) in blocks
    requires heavy.parent == HashOf(genesis) && heavy.number == 1 && genesis.number == 0
    ensures StoredDownTo(blocks, HashOf(heavy), 0)
  {
    assert At(HashOf(heavy), 0) == HashOf(genesis);
  }

  lemma NoTxs(h: Hash)
    requires h.HashOf? && h.block.txs == [] && UniqueTxs(h.block.parent)
    ensures UniqueTxs(h)
  {
  }

  lemma HeavyTakesOver(genesis: Block, one: Block, two: Block, three: Block, heavy: Block)
    requires one.parent == heavy.parent == HashOf(genesis) && two.parent == HashOf(one) && three.parent == HashOf(two)
    requires genesis.parent == Zero && one.number == heavy.number == 1 && one != heavy && genesis.number == 0
    requires two.number == 2 && three.number == 3
    requires heavy.difficulty > one.difficulty + two.difficulty + three.difficulty
    ensures BlockTakesOver(HashOf(heavy), HashOf(three), false, false, false)
    ensures IsForkPoint(HashOf(three), HashOf(heavy), 0) && At(HashOf(three), 1) == HashOf(one)
  {
    assert Td(HashOf(one)) == one.difficulty + Td(HashOf(genesis));
    assert Td(HashOf(two)) == two.difficulty + Td(HashOf(one));
    assert At(HashOf(two), 0) == At(HashOf(one), 0) == HashOf(genesis);
    assert At(HashOf(three), 1) == At(HashOf(two), 1) == HashOf(one);
  }

  lemma ForkPointUnique(g: Hash, h: Hash, c: nat, d: nat)
    requires IsForkPoint(g, h, c) && IsForkPoint(g, h, d)
    ensures c == d
  {
  }

  lemma RewrittenFacts(canonical: map<nat, Hash>, h: Hash, c: nat, height: int, top: nat)
    requires WellFormed(h) && height <= Num(h) && c <= top
    requires forall n: nat :: n in canonical <==> n <= top
    requires forall n: nat :: n in canonical ==> canonical[n] != Zero
    ensures var r := Rewritten(canonical, h, c, height);
            && (forall n: nat :: n in r <==> n <= top || n <= height)
            && (forall n: nat :: n in r ==> r[n] != Zero)
            && (forall n: nat :: n in r ==> r[n] == if c < n <= height then At(h, n) else canonical[n])
  {
    var r := Rewritten(canonical, h, c, height);
    forall n: nat
      ensures n in r <==> n <= top || n <= height
      ensures n in r ==> r[n] != Zero && r[n] == if c < n <= height then At(h, n) else canonical[n]
    {
      RewrittenAt(canonical, h, c, height, n);
      if n <= height {
        AtFacts(h, n);
      }
    }
  }

  /** Deletes the canonical assignments above the highest rewritten block, or above the old head. */
  method DropAbove(ghost canonical: map<nat, Hash>, canonical': map<nat, Hash>, head: Hash, ghost oldHead: Hash,
                   ghost newHead: Hash, ghost c: nat, ghost top: nat)
    returns (dropped: map<nat, Hash>)
    requires WellFormed(newHead) && c <= Num(newHead) && Tracks(canonical, oldHead, top) && c <= Num(oldHead)
    requires canonical' == Rewritten(canonical, newHead, c, Num(newHead) - 1)
    requires head == if Num(newHead) - c >= 2 then At(newHead, Num(newHead) - 1) else oldHead
    ensures BranchWritten(canonical, dropped, newHead, c, Num(newHead) - c >= 2, Num(oldHead))
  {
    if Num(newHead) - c >= 2 {
      AtFacts(newHead, Num(newHead) - 1);
    }
    RewrittenFacts(canonical, newHead, c, Num(newHead) - 1, top);
    ghost var gap;
    dropped, gap := DeleteUpwards(canonical', Num(head) + 1);
  }

  /** The assignment left by a reorganisation before the new head itself is written. */
  ghost predicate BranchWritten(canonical: map<nat, Hash>, canonical': map<nat, Hash>, newHead: Hash, c: nat,
      long: bool, oldNum: nat) {
    var height := if long then Num(newHead) - 1 else oldNum;
    && (forall n: nat :: n in canonical' <==> n <= height)
    && (forall n: nat :: n in canonical' ==>
          if long && c < n then canonical'[n] == At(newHead, n) else n in canonical && canonical'[n] == canonical[n])
  }

  lemma BranchTxsStep(h: Hash, c: nat, n: nat, added: seq<Tx>)
    requires WellFormed(h) && c < n <= Num(h) && BranchTxs(added, h, c, n - 1)
    ensures At(h, n).HashOf? && Num(At(h, n)) == n
    ensures BranchTxs(added + At(h, n).block.txs, h, c, n)
  {
    AtFacts(h, n);
    forall tx
      ensures tx in added + At(h, n).block.txs <==> Within(h, c, n, tx)
    {
      if tx in At(h, n).block.txs {
        assert tx in Entries(At(h, n));
      }
    }
  }
}
