/** core/tx_pool.go, reset: the transactions that a chain reorganisation takes back, to be pooled again. */
module PoolReset {
  import opened Common
  import opened ChainTree
  import opened Headers
  import opened Blocks

  const MAX_DEPTH := 64

  /** The transactions of the chain of h above height c, from the head down. */
  ghost function TxsDown(h: Hash, c: nat): seq<Tx>
    decreases h
  {
    if h.Zero? || h.block.number <= c then [] else h.block.txs + TxsDown(h.block.parent, c)
  }

  lemma {:induction false} TxsDownStep(h: Hash, c: nat)
    requires WellFormed(h) && 0 < c <= Num(h)
    ensures At(h, c).HashOf? && TxsDown(h, c - 1) == TxsDown(h, c) + At(h, c).block.txs
    decreases h
  {
    if h.block.number == c {
      assert TxsDown(h.block.parent, c - 1) == [];
      assert TxsDown(h, c - 1) == h.block.txs + [];
    } else {
      TxsDownStep(h.block.parent, c);
      assert h.block.txs + (TxsDown(h.block.parent, c) + At(h, c).block.txs)
          == h.block.txs + TxsDown(h.block.parent, c) + At(h, c).block.txs;
    }
  }

  /** Exactly the transactions of the blocks above the height. */
  lemma {:induction false} TxsDownHolds(h: Hash, d: nat)
    requires WellFormed(h) && d <= Num(h)
    ensures HoldsTxs(TxsDown(h, d), h, d)
    decreases Num(h) - d
  {
    if d < Num(h) {
      TxsDownHolds(h, d + 1);
      TxsDownStep(h, d + 1);
      AtFacts(h, d + 1);
      forall tx
        ensures tx in TxsDown(h, d) <==> Within(h, d, Num(h), tx)
      {
        if tx in At(h, d + 1).block.txs {
          assert tx in Entries(At(h, d + 1));
        }
      }
    }
  }

  /** The transactions of one list that are not in the other. */
  function Difference(a: seq<Tx>, b: seq<Tx>): (r: seq<Tx>)
    ensures forall tx :: tx in r <==> tx in a && tx !in b
  {
    if a == [] then []
    else
      var tx := a[|a| - 1];
      assert a == a[..|a| - 1] + [tx];
      Difference(a[..|a| - 1], b) + if tx in b then [] else [tx]
  }

  method TxDifference(a: seq<Tx>, b: seq<Tx>) returns (keep: seq<Tx>)
    ensures keep == Difference(a, b)
  {
    keep := [];
    for i := 0 to |a|
      invariant keep == Difference(a[..i], b)
    {
      assert a[..i + 1][..i] == a[..i];
      if a[i] !in b {
        keep := keep + [a[i]];
      }
    }
    assert a[..|a|] == a;
  }

  /** The walk finds every block down to the fork point. */
  ghost predicate Meets(blocks: set<Hash>, g: Hash, h: Hash, c: nat) {
    IsForkPoint(g, h, c) && StoredDownTo(blocks, g, c) && StoredDownTo(blocks, h, c)
  }

  /** Walks a chain down to a height, collecting its transactions. */
  method CollectDown(blocks: set<Hash>, h: Hash, to: nat) returns (ok: bool, txs: seq<Tx>, end: Hash)
    requires WellFormed(h) && h in blocks && to <= Num(h)
    ensures ok <==> StoredDownTo(blocks, h, to)
    ensures ok ==> end == At(h, to) && txs == TxsDown(h, to)
  {
    ok, txs, end := true, [], h;
    assert At(h, Num(h)) == h;
    while Num(end) > to
      invariant to <= Num(end) <= Num(h) && end == At(h, Num(end)) && txs == TxsDown(h, Num(end))
      invariant StoredDownTo(blocks, h, Num(end))
      decreases Num(end)
    {
      var n := Num(end);
      TxsDownStep(h, n);
      AtFacts(h, n);
      AtStep(h, n);
      AtFacts(h, n - 1);
      txs := txs + end.block.txs;
      end := end.block.parent;
      if !Has(blocks, end, n - 1) {
        ok := false;
        return;
      }
    }
  }

  /** The walk is at one height on both chains, which differ at every height above it. */
  ghost predicate Walking(blocks: set<Hash>, g: Hash, h: Hash, n: nat, rem: Hash, add: Hash, discarded: seq<Tx>,
      included: seq<Tx>) {
    && n <= Num(g) && n <= Num(h) && rem == At(g, n) && add == At(h, n)
    && discarded == TxsDown(g, n) && included == TxsDown(h, n)
    && StoredDownTo(blocks, g, n) && StoredDownTo(blocks, h, n)
    && forall m: nat :: n < m <= Num(g) && m <= Num(h) ==> At(g, m) != At(h, m)
  }

  lemma WalkStep(blocks: set<Hash>, g: Hash, h: Hash, n: nat, rem: Hash, add: Hash, discarded: seq<Tx>,
                 included: seq<Tx>)
    requires WellFormed(g) && WellFormed(h) && n > 0 && rem != add
    requires Walking(blocks, g, h, n, rem, add, discarded, included)
    ensures rem.HashOf? && add.HashOf?
    ensures rem.block.parent == At(g, n - 1) && add.block.parent == At(h, n - 1)
    ensures Num(At(g, n - 1)) == n - 1 && Num(At(h, n - 1)) == n - 1
    ensures At(g, n - 1) in blocks && At(h, n - 1) in blocks ==>
              Walking(blocks, g, h, n - 1, rem.block.parent, add.block.parent,
                      discarded + rem.block.txs, included + add.block.txs)
  {
    AtFacts(g, n);
    AtFacts(h, n);
    AtFacts(g, n - 1);
    AtFacts(h, n - 1);
    AtStep(g, n);
    AtStep(h, n);
    TxsDownStep(g, n);
    TxsDownStep(h, n);
  }

  /** No fork point can be met when a block on the way is missing or the chains end apart. */
  lemma NoMeeting(blocks: set<Hash>, g: Hash, h: Hash, n: nat)
    requires n <= Num(g) && n <= Num(h)
    requires forall m: nat :: n <= m <= Num(g) && m <= Num(h) ==> At(g, m) != At(h, m)
    requires n == 0 || At(g, n - 1) !in blocks || At(h, n - 1) !in blocks
    ensures forall c: nat :: !Meets(blocks, g, h, c)
  {
  }

  /** What a reset pools again, or nothing when it is given up. */
  ghost predicate Reinjected(blocks: set<Hash>, oldHead: Option<Hash>, newHead: Hash, r: Option<seq<Tx>>)
    requires newHead.HashOf?
  {
    if oldHead.None? || oldHead.value == newHead.block.parent then r == Some([])
    else
      var g := oldHead.value;
      if Num(g) > Num(newHead) + 64 || Num(newHead) > Num(g) + 64 then r == Some([])
      else if r.None? then forall c: nat :: !Meets(blocks, g, newHead, c)
      else exists c: nat :: Meets(blocks, g, newHead, c) && r.value == Difference(TxsDown(g, c), TxsDown(newHead, c))
  }

  /**
   The transactions to pool again after the head moved: none for a direct successor or a move of more than 64
   heights; otherwise those of the abandoned branch that the new branch does not hold. The reset is given up
   when the old head is gone or the branches cannot be walked to their fork point.
   */
  method Reinject(blocks: set<Hash>, oldHead: Option<Hash>, newHead: Hash) returns (r: Option<seq<Tx>>)
    requires WellFormed(newHead) && newHead in blocks && (oldHead.Some? ==> WellFormed(oldHead.value))
    ensures Reinjected(blocks, oldHead, newHead, r)
  {
    if oldHead.None? || oldHead.value == newHead.block.parent {
      return Some([]);
    }
    var g, h := oldHead.value, newHead;
    if Num(g) > Num(h) + MAX_DEPTH || Num(h) > Num(g) + MAX_DEPTH {
      return Some([]);
    }
    if g !in blocks {
      assert At(g, Num(g)) == g;
      return None;
    }
    var height := if Num(g) > Num(h) then Num(h) else Num(g);
    var remOk, discarded, rem := CollectDown(blocks, g, height);
    if !remOk {
      return None;
    }
    var addOk, included, add := CollectDown(blocks, h, height);
    if !addOk {
      return None;
    }
    r := WalkTogether(blocks, g, h, height, rem, add, discarded, included);
  }

  method WalkTogether(blocks: set<Hash>, g: Hash, h: Hash, height: nat, rem0: Hash, add0: Hash, discarded0: seq<Tx>,
                      included0: seq<Tx>) returns (r: Option<seq<Tx>>)
    requires WellFormed(g) && WellFormed(h) && Walking(blocks, g, h, height, rem0, add0, discarded0, included0)
    ensures if r.Some?
            then exists c: nat :: Meets(blocks, g, h, c) && r.value == Difference(TxsDown(g, c), TxsDown(h, c))
            else forall c: nat :: !Meets(blocks, g, h, c)
  {
    var rem, add, discarded, included := rem0, add0, discarded0, included0;
    var n := height;
    while rem != add
      invariant Walking(blocks, g, h, n, rem, add, discarded, included)
      decreases n
    {
      if n == 0 {
        NoMeeting(blocks, g, h, n);
        return None;
      }
      WalkStep(blocks, g, h, n, rem, add, discarded, included);
      discarded, included := discarded + rem.block.txs, included + add.block.txs;
      rem, add := rem.block.parent, add.block.parent;
      if !Has(blocks, rem, n - 1) || !Has(blocks, add, n - 1) {
        NoMeeting(blocks, g, h, n);
        return None;
      }
      n := n - 1;
    }
    assert Meets(blocks, g, h, n);
    var keep := TxDifference(discarded, included);
    r := Some(keep);
  }

  /** Every transaction of the abandoned branch is in the new one or offered again, and nothing else is. */
  lemma ReinjectsLost(g: Hash, h: Hash, c: nat, tx: Tx)
    requires WellFormed(g) && WellFormed(h) && IsForkPoint(g, h, c)
    ensures tx in Difference(TxsDown(g, c), TxsDown(h, c)) <==> Within(g, c, Num(g), tx) && !Within(h, c, Num(h), tx)
  {
    TxsDownHolds(g, c);
    TxsDownHolds(h, c);
  }
}
