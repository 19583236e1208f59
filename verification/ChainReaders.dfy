/**
 Readers of the header chain: the block hash function of the EVM context (core/evm.go) and the
 header query of the wire protocol (eth/handler.go). Unsigned 64-bit arithmetic is written out.
 */
module Readers {
  import opened Common
  import opened ChainTree
  import opened Headers
  import Blocks

  /** Following parent links one by one from a hash to the block numbered n; zero when a header is missing. */
  ghost function PlainWalk(headers: set<Hash>, h: Hash, n: nat): Hash
    decreases h
  {
    if h.Zero? || Num(h) < n then Zero
    else if Num(h) == n then h
    else if h in headers then PlainWalk(headers, h.block.parent, n)
    else Zero
  }

  /** On a parent-closed store the walk finds the ancestor. */
  lemma {:induction false} WalkFindsAncestor(headers: set<Hash>, genesis: Hash, h: Hash, n: nat)
    requires Closed(headers, genesis) && h in headers && n <= Num(h)
    ensures PlainWalk(headers, h, n) == At(h, n) && At(h, n).HashOf?
    decreases h
  {
    ClosedWellFormed(headers, genesis, h);
    assert Links(h, headers, genesis);
    if n < Num(h) {
      WalkFindsAncestor(headers, genesis, h.block.parent, n);
    }
  }

  /** The k'th parent is reached by the walk when every header in between is stored. */
  ghost predicate StoredParents(headers: set<Hash>, h: Hash, k: nat) {
    forall i: nat :: 1 <= i < k ==> Ancestor(h, i) in headers
  }

  lemma {:induction false} AncestorStep(h: Hash, k: nat)
    requires Ancestor(h, k).HashOf?
    ensures Ancestor(h, k + 1) == Ancestor(h, k).block.parent
    decreases k
  {
    if k > 0 {
      AncestorStep(h.block.parent, k - 1);
    }
  }

  lemma {:induction false} AncestorNumber(h: Hash, k: nat)
    requires WellFormed(h) && k <= Num(h) + 1
    ensures k <= Num(h) ==> Ancestor(h, k).HashOf? && Num(Ancestor(h, k)) == Num(h) - k
    ensures k == Num(h) + 1 ==> Ancestor(h, k) == Zero
    decreases k
  {
    if k > 0 && h.block.parent.HashOf? {
      AncestorNumber(h.block.parent, k - 1);
    }
  }

  /** The walk succeeds at the k'th parent iff all parents in between are stored. */
  lemma {:induction false} WalkIsAncestor(headers: set<Hash>, h: Hash, k: nat, j: nat)
    requires WellFormed(h) && 1 <= j <= k <= Num(h)
    requires forall i: nat :: 1 <= i < j ==> Ancestor(h, i) in headers
    ensures PlainWalk(headers, Ancestor(h, j), Num(h) - k) ==
            if forall i: nat :: j <= i < k ==> Ancestor(h, i) in headers then Ancestor(h, k) else Zero
    decreases k - j
  {
    AncestorNumber(h, j);
    AncestorNumber(h, k);
    if j < k && Ancestor(h, j) in headers {
      AncestorStep(h, j);
      WalkIsAncestor(headers, h, k, j + 1);
    }
  }

  lemma WrapFacts(x: int)
    requires -TWO_64 <= x < TWO_64
    ensures Wrap(x) == if x >= 0 then x else x + TWO_64
  {
  }

  /** The cache holds ancestors of the block, nearest first, and each was read from a stored header. */
  ghost predicate CacheOk(headers: set<Hash>, ref: Block, cache: seq<Hash>) {
    && WellFormed(HashOf(ref)) && ref.number < TWO_64 && Zero !in headers
    && |cache| <= ref.number + 1
    && (forall i: nat :: i < |cache| ==> cache[i] == Ancestor(HashOf(ref), i + 1))
    && StoredParents(headers, HashOf(ref), |cache|)
  }

  /** A cache hit, even one through a wrapped index, is the answer of the plain walk. */
  lemma CacheHit(headers: set<Hash>, ref: Block, cache: seq<Hash>, n: nat)
    requires CacheOk(headers, ref, cache) && n < TWO_64 && Wrap(ref.number - n - 1) < |cache|
    ensures cache[Wrap(ref.number - n - 1)] == PlainWalk(headers, ref.parent, n)
  {
    WrapFacts(ref.number - n - 1);
    AncestorOne(ref);
    if n < ref.number {
      WalkIsAncestor(headers, HashOf(ref), ref.number - n, 1);
    } else {
      AncestorNumber(HashOf(ref), ref.number + 1);
    }
  }

  lemma AncestorOne(ref: Block)
    ensures Ancestor(HashOf(ref), 1) == ref.parent
  {
    assert Ancestor(ref.parent, 0) == ref.parent;
  }

  /** One step of the walk: the last known header is stored, so its parent may be appended. */
  lemma CacheGrows(headers: set<Hash>, ref: Block, cache: seq<Hash>)
    requires CacheOk(headers, ref, cache) && |cache| > 0 && cache[|cache| - 1] in headers
    ensures cache[|cache| - 1].HashOf? && |cache| <= ref.number
    ensures Num(cache[|cache| - 1]) == ref.number - |cache|
    ensures CacheOk(headers, ref, cache + [cache[|cache| - 1].block.parent])
  {
    AncestorNumber(HashOf(ref), |cache|);
    AncestorStep(HashOf(ref), |cache|);
  }

  /** The walk stops at a header that is not stored: the plain walk fails there too. */
  lemma CacheStops(headers: set<Hash>, ref: Block, cache: seq<Hash>, n: nat)
    requires CacheOk(headers, ref, cache) && |cache| > 0 && cache[|cache| - 1] !in headers
    requires n < ref.number ==> |cache| < ref.number - n
    ensures PlainWalk(headers, ref.parent, n) == Zero
  {
    AncestorOne(ref);
    if n < ref.number {
      WalkIsAncestor(headers, HashOf(ref), ref.number - n, 1);
      assert Ancestor(HashOf(ref), |cache|) !in headers;
    }
  }

  /** After a step the requested number is reached, or it is still further down. */
  lemma CacheReached(headers: set<Hash>, ref: Block, cache: seq<Hash>, n: nat)
    requires CacheOk(headers, ref, cache) && |cache| > 0 && n < TWO_64
    requires n < ref.number ==> |cache| - 1 < ref.number - n
    ensures if n == Wrap(ref.number - |cache|) then cache[|cache| - 1] == PlainWalk(headers, ref.parent, n)
            else n < ref.number ==> |cache| < ref.number - n
  {
    WrapFacts(ref.number - |cache|);
    WrapFacts(ref.number - n - 1);
    if n == Wrap(ref.number - |cache|) {
      CacheHit(headers, ref, cache, n);
    }
  }

  /** GetHashFn: a growing cache of the hashes of a block's ancestors, nearest first. */
  class HashReader {
    const headers: set<Hash>
    const ref: Block
    var cache: seq<Hash>

    ghost predicate Valid()
      reads this
    {
      CacheOk(headers, ref, cache)
    }

    constructor (headers: set<Hash>, ref: Block)
      requires WellFormed(HashOf(ref)) && ref.number < TWO_64 && Zero !in headers
      ensures Valid() && this.headers == headers && this.ref == ref && cache == []
    {
      this.headers, this.ref, cache := headers, ref, [];
    }

    /** Whatever was asked before, the answer is that of a plain parent walk. */
    method GetHash(n: nat) returns (hash: Hash)
      requires Valid() && n < TWO_64
      modifies `cache
      ensures Valid() && |old(cache)| <= |cache|
      ensures hash == PlainWalk(headers, ref.parent, n)
    {
      if |cache| == 0 {
        AncestorOne(ref);
        cache := [ref.parent];
      }
      var idx := Wrap(ref.number - n - 1);
      if idx < |cache| {
        CacheHit(headers, ref, cache, n);
        return cache[idx];
      }
      WrapFacts(ref.number - n - 1);
      var lastKnownHash := cache[|cache| - 1];
      var lastKnownNumber := Wrap(ref.number - |cache|);
      while Has(headers, lastKnownHash, lastKnownNumber)
        invariant Valid() && |cache| >= 1 && |old(cache)| <= |cache|
        invariant lastKnownHash == cache[|cache| - 1] && lastKnownNumber == Wrap(ref.number - |cache|)
        invariant n < ref.number ==> |cache| < ref.number - n
        decreases ref.number + 1 - |cache|
      {
        CacheGrows(headers, ref, cache);
        var header := lastKnownHash.block;
        cache := cache + [header.parent];
        lastKnownHash := header.parent;
        lastKnownNumber := Wrap(header.number - 1);
        CacheReached(headers, ref, cache, n);
        if n == lastKnownNumber {
          return lastKnownHash;
        }
      }
      MissingMeansUnstored(headers, ref, cache);
      CacheStops(headers, ref, cache, n);
      return Zero;
    }
  }

  lemma MissingMeansUnstored(headers: set<Hash>, ref: Block, cache: seq<Hash>)
    requires CacheOk(headers, ref, cache) && |cache| > 0
    requires !Has(headers, cache[|cache| - 1], Wrap(ref.number - |cache|))
    ensures cache[|cache| - 1] !in headers
  {
    AncestorNumber(HashOf(ref), |cache|);
    WrapFacts(ref.number - |cache|);
  }

  /** A header query: by hash when the hash is not zero, by number otherwise. */
  datatype Query = Query(hash: Hash, number: nat, amount: nat, skip: nat, reverse: bool)

  const SOFT_RESPONSE_LIMIT := 2 * 1024 * 1024
  const EST_HEADER_RLP_SIZE := 500
  const MAX_HEADER_FETCH := 192

  /** The requested amount after its conversion to a signed integer. */
  function AsInt(amount: nat): int {
    if amount < TWO_64 / 2 then amount else amount - TWO_64
  }

  /** A parent-closed store with canonical entries of stored headers, whatever they are. */
  ghost predicate ChainOk(hc: HeaderChain)
    reads hc
  {
    && Closed(hc.headers, hc.genesis) && MarksStored(hc.canonical, hc.headers)
    && forall h :: h in hc.headers ==> Num(h) < TWO_64
  }

  ghost predicate Canonical(hc: HeaderChain, h: Hash)
    reads hc
  {
    h != Zero && ReadCanonical(hc.canonical, Num(h)) == h
  }

  /**
   Reply b is spaced exactly skip + 1 from its predecessor a, along one chain. A query by number computes the
   next number in machine arithmetic, so there the spacing is modulo 2^64.
   */
  ghost predicate Follows(hc: HeaderChain, q: Query, a: Hash, b: Hash)
    reads hc
  {
    && Spaced(hc, q, a, b)
    && (q.hash != Zero ==> if q.reverse then b == Ancestor(a, q.skip + 1) else a == Ancestor(b, q.skip + 1))
  }

  /** The spacing alone, which needs no hypothesis. */
  ghost predicate Spaced(hc: HeaderChain, q: Query, a: Hash, b: Hash)
    reads hc
  {
    if q.hash != Zero then
      if q.reverse then Num(b) == Num(a) - (q.skip + 1) else Num(b) == Num(a) + q.skip + 1 && Canonical(hc, b)
    else
      && Canonical(hc, a) && Canonical(hc, b)
      && Num(b) == if q.reverse then Num(a) - Wrap(q.skip + 1) else Wrap(Num(a) + q.skip + 1)
  }

  /** The canonical chain holds no header where the next one would have to be. */
  ghost predicate Exhausted(hc: HeaderChain, q: Query, a: Hash)
    reads hc
  {
    if q.hash != Zero then
      if q.reverse then Num(a) < q.skip + 1 else Num(a) + q.skip + 1 !in hc.canonical
    else
      if q.reverse then Num(a) < Wrap(q.skip + 1) || Num(a) - Wrap(q.skip + 1) !in hc.canonical
      else Wrap(Num(a) + q.skip + 1) !in hc.canonical
  }

  /** What the canonical entries must satisfy for the replies to a query to be along one chain. */
  ghost predicate Trusted(hc: HeaderChain, q: Query)
    reads hc
  {
    q.hash != Zero && q.skip > 0 ==> FarLinked(hc.canonical) && (q.reverse ==> ForksLinked(hc.canonical, hc.headers))
  }

  /** Where a hash query goes from a header, towards the genesis block. */
  ghost function Backward(canonical: map<nat, Hash>, origin: Hash, skip: nat, budget: nat): Hash {
    if skip + 1 >= TWO_64 || skip + 1 > Num(origin) then Zero
    else if skip == 0 then origin.block.parent
    else Answer(canonical, origin, skip + 1, budget)
  }

  /** Where a hash query goes from a header, towards the head. */
  ghost function Forward(canonical: map<nat, Hash>, origin: Hash, skip: nat): Hash {
    var next := ReadCanonical(canonical, Num(origin) + skip + 1);
    if Num(origin) + skip + 1 < TWO_64 && next.HashOf?
       && (if skip == 0 then next.block.parent else ReadCanonical(canonical, Num(origin))) == origin
    then next else Zero
  }

  ghost predicate BackwardRight(canonical: map<nat, Hash>, origin: Hash, skip: nat, budget: nat) {
    var next := Backward(canonical, origin, skip, budget);
    next != Zero ==> next == Ancestor(origin, skip + 1)
  }

  ghost predicate ForwardRight(canonical: map<nat, Hash>, origin: Hash, skip: nat) {
    var next := Forward(canonical, origin, skip);
    next != Zero ==> origin == Ancestor(next, skip + 1)
  }

  /** Steps backward stay on one chain exactly if queries for distant ancestors are answered rightly. */
  lemma BackwardRightIff(headers: set<Hash>, genesis: Hash, canonical: map<nat, Hash>)
    requires Closed(headers, genesis) && MarksStored(canonical, headers) && forall h :: h in headers ==> Num(h) < TWO_64
    ensures (forall h, skip: nat, budget: nat {:trigger BackwardRight(canonical, h, skip, budget)} ::
               h in headers ==> BackwardRight(canonical, h, skip, budget)) <==>
            FarLinked(canonical) && ForksLinked(canonical, headers)
  {
    NotStoredZero(headers, genesis, canonical);
    AnswersRightIff(headers, genesis, canonical);
    if FarLinked(canonical) && ForksLinked(canonical, headers) {
      forall h, skip: nat, budget: nat | h in headers
        ensures BackwardRight(canonical, h, skip, budget)
      {
        if skip == 0 {
          AncestorOne(h.block);
        } else {
          assert RightAnswer(canonical, h, skip + 1, budget);
        }
      }
    }
    if forall h, skip: nat, budget: nat {:trigger BackwardRight(canonical, h, skip, budget)} ::
         h in headers ==> BackwardRight(canonical, h, skip, budget)
    {
      forall h, ancestor: nat, budget: nat | h in headers
        ensures RightAnswer(canonical, h, ancestor, budget)
      {
        if 2 <= ancestor <= Num(h) {
          assert BackwardRight(canonical, h, ancestor - 1, budget);
        }
      }
    }
  }

  /** Steps forward stay on one chain exactly if canonical entries at least two apart are ancestors of each other. */
  lemma ForwardRightIff(headers: set<Hash>, genesis: Hash, canonical: map<nat, Hash>)
    requires Closed(headers, genesis) && MarksStored(canonical, headers) && forall h :: h in headers ==> Num(h) < TWO_64
    ensures (forall h, skip: nat {:trigger ForwardRight(canonical, h, skip)} ::
               h in headers ==> ForwardRight(canonical, h, skip)) <==> FarLinked(canonical)
  {
    NotStoredZero(headers, genesis, canonical);
    if FarLinked(canonical) {
      forall h, skip: nat | h in headers
        ensures ForwardRight(canonical, h, skip)
      {
        FarIsForward(headers, genesis, canonical, h, skip);
      }
    }
    if forall h, skip: nat {:trigger ForwardRight(canonical, h, skip)} ::
         h in headers ==> ForwardRight(canonical, h, skip)
    {
      forall n: nat, m: nat | n in canonical && m in canonical && m + 2 <= n
        ensures canonical[m] == At(canonical[n], m)
      {
        ClosedWellFormed(headers, genesis, canonical[n]);
        AncestorIsAt(canonical[n], n - m);
        assert Forward(canonical, canonical[m], n - m - 1) == canonical[n];
        assert ForwardRight(canonical, canonical[m], n - m - 1);
      }
    }
  }

  lemma FarIsForward(headers: set<Hash>, genesis: Hash, canonical: map<nat, Hash>, h: Hash, skip: nat)
    requires Closed(headers, genesis) && MarksStored(canonical, headers) && h in headers
    requires skip > 0 ==> FarLinked(canonical)
    ensures ForwardRight(canonical, h, skip)
  {
    var next := Forward(canonical, h, skip);
    NotStoredZero(headers, genesis, canonical);
    if next != Zero {
      if skip == 0 {
        AncestorOne(next.block);
      } else {
        ClosedWellFormed(headers, genesis, next);
        AncestorIsAt(next, skip + 1);
      }
    }
  }

  /** On a linked map, ancestors of canonical headers are canonical. */
  lemma CanonicalAncestor(hc: HeaderChain, h: Hash, k: nat)
    requires ChainOk(hc) && LinkedMap(hc.canonical) && h in hc.headers && Canonical(hc, h) && k <= Num(h)
    ensures ReadCanonical(hc.canonical, Num(h) - k) == At(h, Num(h) - k) == Ancestor(h, k)
    ensures Canonical(hc, Ancestor(h, k)) && Num(Ancestor(h, k)) == Num(h) - k
  {
    ClosedWellFormed(hc.headers, hc.genesis, h);
    assert At(h, Num(h)) == h;
    JumpIsWalk(hc.headers, hc.genesis, hc.canonical, h, Num(h), Num(h) - k);
    AncestorIsAt(h, k);
    AtFacts(h, Num(h) - k);
  }

  // How far back a query gets.

  /** The origin's chain is not canonical at any of the 100 numbers below it, nor at its own. */
  ghost predicate NoneMet(canonical: map<nat, Hash>, origin: Hash) {
    forall n: nat {:trigger MeetsAt(canonical, origin, n)} :: Num(origin) - 100 <= n <= Num(origin) ==>
      !MeetsAt(canonical, origin, n)
  }

  /** The canonical entries cannot lead a query astray. */
  ghost predicate Sure(canonical: map<nat, Hash>, origin: Hash, skip: nat) {
    skip == 0 || LinkedMap(canonical) || NoneMet(canonical, origin)
  }

  function Least(a: int, b: int): int {
    if a <= b then a else b
  }

  function Most(a: int, b: int): int {
    if a <= b then b else a
  }

  /** The query has come down the origin's chain to h, with no more steps than it takes to meet the canonical one. */
  ghost predicate Reached(canonical: map<nat, Hash>, origin: Hash, skip: nat, h: Hash, budget: nat) {
    Sure(canonical, origin, skip) ==>
      && Num(h) <= Num(origin) && h == At(origin, Num(h))
      && (skip > 0 && LinkedMap(canonical) ==>
            forall f: nat {:trigger MeetsAt(canonical, origin, f)} ::
              f <= Num(origin) && MeetsAt(canonical, origin, f) ==> 100 - budget <= Num(origin) - Most(f, Num(h)))
      && (skip > 0 && NoneMet(canonical, origin) ==> budget == 100 - (Num(origin) - Num(h)))
  }

  /** Where the query cannot go on: too close to the genesis block, or out of steps off the canonical chain. */
  ghost predicate Stops(canonical: map<nat, Hash>, origin: Hash, skip: nat, h: Hash) {
    Num(h) < skip + 1 || (skip > 0 && NoneMet(canonical, origin) && 100 - (Num(origin) - Num(h)) < skip + 1)
  }

  /** What is known of the budget after a step back. */
  ghost predicate StepSpends(canonical: map<nat, Hash>, h: Hash, skip: nat, budget: nat, next: Hash, left: nat) {
    && budget - left <= skip + 1 && (skip == 0 ==> left == budget)
    && (0 < skip < Num(h) ==> Spends(canonical, h, skip + 1, budget, next, left))
  }

  /** The chain of a header that lies on the origin's is the origin's. */
  lemma SameChain(canonical: map<nat, Hash>, origin: Hash, h: Hash)
    requires WellFormed(origin) && Num(h) <= Num(origin) && h == At(origin, Num(h))
    ensures forall n: nat {:trigger At(h, n)} {:trigger At(origin, n)} :: n <= Num(h) ==> At(h, n) == At(origin, n)
    ensures forall n: nat {:trigger MeetsAt(canonical, h, n)} {:trigger MeetsAt(canonical, origin, n)} ::
              n <= Num(h) ==> (MeetsAt(canonical, h, n) <==> MeetsAt(canonical, origin, n))
  {
    forall n: nat | n <= Num(h)
      ensures At(h, n) == At(origin, n)
    {
      AtCompose(origin, Num(h), n);
    }
  }

  lemma BackReaches(headers: set<Hash>, genesis: Hash, canonical: map<nat, Hash>, origin: Hash, skip: nat, h: Hash,
                    budget: nat, next: Hash, left: nat)
    requires Closed(headers, genesis) && MarksStored(canonical, headers) && origin in headers && h in headers
    requires Num(origin) < TWO_64 && Reached(canonical, origin, skip, h, budget)
    requires next == Backward(canonical, h, skip, budget) && StepSpends(canonical, h, skip, budget, next, left)
    ensures Sure(canonical, origin, skip) ==> (next == Zero <==> Stops(canonical, origin, skip, h))
    ensures next != Zero ==> Reached(canonical, origin, skip, next, left)
  {
    hide MeetsAt, At, Jumps, Closed, MarksStored, LinkedMap, NoneMet;
    if Sure(canonical, origin, skip) {
      assert WellFormed(origin) && WellFormed(h) by {
        ClosedWellFormed(headers, genesis, origin);
        ClosedWellFormed(headers, genesis, h);
      }
      SameChain(canonical, origin, h);
      if skip + 1 <= Num(h) {
        AtFacts(h, Num(h) - (skip + 1));
        if skip == 0 {
          ParentIsBelow(h);
        } else if NoneMet(canonical, origin) {
          OffStep(canonical, origin, skip, h, budget);
        } else {
          LinkedStep(headers, genesis, canonical, origin, skip, h, budget, next, left);
        }
      }
    }
  }

  lemma ParentIsBelow(h: Hash)
    requires WellFormed(h) && Num(h) > 0
    ensures h.block.parent == At(h, Num(h) - 1)
  {
    assert At(h, Num(h) - 1) == At(h.block.parent, Num(h) - 1);
  }

  /** Off the canonical chain the query walks as long as its steps last. */
  lemma OffStep(canonical: map<nat, Hash>, origin: Hash, skip: nat, h: Hash, budget: nat)
    requires WellFormed(origin) && Num(h) <= Num(origin) && h == At(origin, Num(h)) && 0 < skip < Num(h)
    requires NoneMet(canonical, origin) && budget == 100 - (Num(origin) - Num(h))
    ensures !Jumps(canonical, h, skip + 1, budget)
    ensures Answer(canonical, h, skip + 1, budget) ==
            if skip + 1 <= budget then At(h, Num(h) - (skip + 1)) else Zero
  {
    SameChain(canonical, origin, h);
  }

  /** Over a linked map the query goes on, since what is left of its steps leads to the canonical chain. */
  lemma LinkedStep(headers: set<Hash>, genesis: Hash, canonical: map<nat, Hash>, origin: Hash, skip: nat, h: Hash,
                   budget: nat, next: Hash, left: nat)
    requires Closed(headers, genesis) && MarksStored(canonical, headers) && LinkedMap(canonical)
    requires origin in headers && h in headers && 0 < skip < Num(h) && !NoneMet(canonical, origin)
    requires Num(origin) < TWO_64 && Reached(canonical, origin, skip, h, budget)
    requires next == Backward(canonical, h, skip, budget) && StepSpends(canonical, h, skip, budget, next, left)
    ensures next == At(h, Num(h) - (skip + 1)) == At(origin, Num(h) - (skip + 1)) != Zero
    ensures Num(next) == Num(h) - (skip + 1)
    ensures forall f: nat {:trigger MeetsAt(canonical, origin, f)} ::
              f <= Num(origin) && MeetsAt(canonical, origin, f) ==> 100 - left <= Num(origin) - Most(f, Num(next))
  {
    hide MeetsAt, At, Jumps, Closed, MarksStored, LinkedMap;
    ClosedWellFormed(headers, genesis, origin);
    ClosedWellFormed(headers, genesis, h);
    SameChain(canonical, origin, h);
    var f: nat :| Num(origin) - 100 <= f <= Num(origin) && MeetsAt(canonical, origin, f);
    LinkedAnswer(headers, genesis, canonical, h, skip + 1, budget);
    AtFacts(h, Num(h) - (skip + 1));
    if budget <= Num(h) {
      JumpIsWalk(headers, genesis, canonical, origin, f, Least(f, Num(h) - budget));
      if Num(h) <= f {
        JumpIsWalk(headers, genesis, canonical, origin, f, Num(h) - budget);
      }
    }
    forall g: nat | g <= Num(origin) && MeetsAt(canonical, origin, g)
      ensures 100 - left <= Num(origin) - Most(g, Num(next))
    {
      if g >= Num(h) {
        JumpIsWalk(headers, genesis, canonical, origin, g, Num(h));
        assert MeetsAt(canonical, h, Num(h));
      } else {
        assert MeetsAt(canonical, h, g);
      }
    }
  }

  /** How many replies a query back gets from the numbers 0 to depth above its end. */
  lemma ReplyCount(depth: nat, step: nat, count: nat, limit: int)
    requires step > 0 && 0 < count <= limit && step * (count - 1) <= depth
    requires count < limit ==> depth - step * (count - 1) < step
    ensures count == Least(limit, depth / step + 1)
  {
    var full := depth / step;
    assert full * step <= depth < (full + 1) * step;
    if count - 1 < full {
      assert step * (count - 1) + step == step * count <= step * full;
    }
  }

  /** Moves the origin of a hash query one step towards the genesis block. */
  method StepBack(hc: HeaderChain, q: Query, origin: Hash, budget: nat) returns (next: Hash, budget': nat)
    requires ChainOk(hc) && q.hash != Zero && q.reverse && q.skip < TWO_64 && origin in hc.headers
    ensures next == Backward(hc.canonical, origin, q.skip, budget)
    ensures next != Zero ==> next in hc.headers && Spaced(hc, q, origin, next)
    ensures next != Zero && Trusted(hc, q) ==> Follows(hc, q, origin, next)
    ensures LinkedMap(hc.canonical) && Canonical(hc, origin) ==>
              (next == Zero <==> Exhausted(hc, q, origin)) && (next != Zero ==> Canonical(hc, next))
    ensures StepSpends(hc.canonical, origin, q.skip, budget, next, budget')
  {
    hide Spends, Jumps, Closed, LinkedMap, FarLinked, ForksLinked;
    NotStoredZero(hc.headers, hc.genesis, hc.canonical);
    budget' := budget;
    var ancestor := Wrap(q.skip + 1);
    if ancestor == 0 {
      return Zero, budget;
    }
    var number;
    next, number, budget' := hc.GetAncestor(origin, Num(origin), ancestor, budget);
    BackFollows(hc, q, origin, budget);
    if LinkedMap(hc.canonical) && Canonical(hc, origin) && ancestor <= Num(origin) {
      CanonicalAncestor(hc, origin, ancestor);
      CanonicalAncestor(hc, origin, 0);
      LinkedAnswer(hc.headers, hc.genesis, hc.canonical, origin, ancestor, budget);
      if budget <= Num(origin) {
        CanonicalAncestor(hc, origin, budget);
      }
    }
  }

  lemma BackFollows(hc: HeaderChain, q: Query, origin: Hash, budget: nat)
    requires ChainOk(hc) && q.hash != Zero && q.reverse && q.skip < TWO_64 && origin in hc.headers
    ensures Trusted(hc, q) ==> BackwardRight(hc.canonical, origin, q.skip, budget)
  {
    if q.skip == 0 {
      NotStoredZero(hc.headers, hc.genesis, hc.canonical);
      AncestorOne(origin.block);
    } else if Trusted(hc, q) && 2 <= q.skip + 1 <= Num(origin) {
      LinkedIsRight(hc.headers, hc.genesis, hc.canonical, origin, q.skip + 1, budget);
    }
  }

  /** Moves the origin of a hash query one step towards the head, if the canonical chain contains the origin. */
  method StepForward(hc: HeaderChain, q: Query, origin: Hash, budget: nat) returns (next: Hash, budget': nat)
    requires ChainOk(hc) && q.hash != Zero && !q.reverse && q.skip < TWO_64 && origin in hc.headers
    ensures next == Forward(hc.canonical, origin, q.skip)
    ensures next != Zero ==> next in hc.headers && Spaced(hc, q, origin, next)
    ensures next != Zero && Trusted(hc, q) ==> Follows(hc, q, origin, next)
    ensures LinkedMap(hc.canonical) && Canonical(hc, origin) ==> (next == Zero <==> Exhausted(hc, q, origin))
  {
    hide Spends, Jumps, Closed, LinkedMap, FarLinked, ForksLinked, At, Ancestor;
    NotStoredZero(hc.headers, hc.genesis, hc.canonical);
    budget' := budget;
    var current := Num(origin);
    var number := Wrap(current + q.skip + 1);
    if number <= current {
      return Zero, budget;
    }
    assert number == current + q.skip + 1;
    next := ReadCanonical(hc.canonical, number);
    if next == Zero {
      return;
    }
    var expected, _, left := hc.GetAncestor(next, number, Wrap(q.skip + 1), budget);
    budget' := left;
    SelfMeets(hc, next, q.skip + 1, budget);
    if Trusted(hc, q) {
      FarIsForward(hc.headers, hc.genesis, hc.canonical, origin, q.skip);
    }
    if LinkedMap(hc.canonical) {
      CanonicalAncestor(hc, next, q.skip + 1);
      AncestorOne(next.block);
    }
    if expected != origin {
      next := Zero;
    }
  }

  /** From a canonical header the jump is made at once. */
  lemma SelfMeets(hc: HeaderChain, h: Hash, ancestor: nat, budget: nat)
    requires Canonical(hc, h) && 0 < ancestor <= Num(h)
    ensures Answer(hc.canonical, h, ancestor, budget) == ReadCanonical(hc.canonical, Num(h) - ancestor)
  {
    assert MeetsAt(hc.canonical, h, Num(h));
  }

  /** The header a query starts from, or zero when the chain does not have it. */
  ghost function Origin(hc: HeaderChain, q: Query): Hash
    reads hc
  {
    if q.hash == Zero then ReadCanonical(hc.canonical, q.number) else if q.hash in hc.headers then q.hash else Zero
  }

  function Limit(q: Query): int {
    if AsInt(q.amount) < MAX_HEADER_FETCH then AsInt(q.amount) else MAX_HEADER_FETCH
  }

  /** The replies so far: they start at the origin, are stored, are spaced, and stay canonical once canonical. */
  ghost predicate RepliesOk(hc: HeaderChain, q: Query, replies: seq<Hash>)
    reads hc
  {
    && (replies != [] ==> replies[0] == Origin(hc, q))
    && (forall i :: 0 <= i < |replies| ==> replies[i] in hc.headers)
    && (forall i :: 0 <= i < |replies| - 1 ==> Spaced(hc, q, replies[i], replies[i + 1]))
    && (Trusted(hc, q) ==> forall i :: 0 <= i < |replies| - 1 ==> Follows(hc, q, replies[i], replies[i + 1]))
    && (Climbs(q) ==>
          forall i :: 0 <= i < |replies| - 1 ==> replies[i + 1] == Forward(hc.canonical, replies[i], q.skip))
    && (replies != [] && Canonical(hc, replies[0]) && LinkedMap(hc.canonical) ==> Canonical(hc, replies[|replies| - 1]))
  }

  /** A hash query towards the head. */
  predicate Climbs(q: Query) {
    q.hash != Zero && !q.reverse
  }

  /** A hash query towards the genesis block. */
  predicate Falls(q: Query) {
    q.hash != Zero && q.reverse
  }

  /** How far a query back has come: the number of its last reply, its budget, and why it stopped. */
  ghost predicate Fallen(canonical: map<nat, Hash>, q: Query, replies: seq<Hash>, unknown: bool, hash: Hash,
                         budget: nat)
    requires replies != []
  {
    var last := replies[|replies| - 1];
    && Num(last) == Num(q.hash) - (q.skip + 1) * (|replies| - 1)
    && (unknown && Sure(canonical, q.hash, q.skip) ==> Stops(canonical, q.hash, q.skip, last))
    && (!unknown ==> Reached(canonical, q.hash, q.skip, hash, budget))
    && (q.skip > 0 && NoneMet(canonical, q.hash) ==> Num(q.hash) - Num(last) <= 100)
  }

  lemma FallsOn(hc: HeaderChain, q: Query, replies: seq<Hash>, origin: Hash, budget: nat, unknown: bool, hash: Hash,
                budget': nat)
    requires ChainOk(hc) && Falls(q) && q.hash in hc.headers && origin in hc.headers
    requires if replies == [] then origin == q.hash && budget == 100
             else Fallen(hc.canonical, q, replies, false, origin, budget)
                  && Num(origin) == Num(replies[|replies| - 1]) - (q.skip + 1)
    requires hash == Backward(hc.canonical, origin, q.skip, budget) && (unknown <==> hash == Zero)
    requires StepSpends(hc.canonical, origin, q.skip, budget, hash, budget')
    ensures Fallen(hc.canonical, q, replies + [origin], unknown, hash, budget')
  {
    hide Sure, NoneMet, Stops, StepSpends, Backward;
    if replies == [] {
      StartReached(hc.canonical, q.hash, q.skip);
    }
    assert (replies + [origin])[|replies|] == origin;
    StepDown(Num(q.hash), q.skip + 1, |replies|, Num(origin));
    if NoneMet(hc.canonical, q.hash) {
      WithinBudget(hc.canonical, q.hash, q.skip, origin, budget);
    }
    BackReaches(hc.headers, hc.genesis, hc.canonical, q.hash, q.skip, origin, budget, hash, budget');
  }

  lemma WithinBudget(canonical: map<nat, Hash>, origin: Hash, skip: nat, h: Hash, budget: nat)
    requires NoneMet(canonical, origin) && Reached(canonical, origin, skip, h, budget)
    ensures skip > 0 ==> Num(origin) - Num(h) <= 100
  {
  }

  lemma StartReached(canonical: map<nat, Hash>, origin: Hash, skip: nat)
    requires origin.HashOf?
    ensures Reached(canonical, origin, skip, origin, 100)
  {
    assert At(origin, Num(origin)) == origin;
  }

  lemma StepDown(top: nat, step: nat, k: nat, n: nat)
    requires if k == 0 then n == top else n == top - step * (k - 1) - step
    ensures n == top - step * k
  {
  }

  /** The length of the reply to a query back. */
  lemma FallenCount(canonical: map<nat, Hash>, q: Query, replies: seq<Hash>, unknown: bool, hash: Hash, budget: nat)
    requires replies != [] && |replies| <= Limit(q) && Fallen(canonical, q, replies, unknown, hash, budget)
    requires |replies| < Limit(q) ==> unknown
    ensures q.skip == 0 || (LinkedMap(canonical) && !NoneMet(canonical, q.hash)) ==>
              |replies| == Least(Limit(q), Num(q.hash) / (q.skip + 1) + 1)
    ensures q.skip > 0 && NoneMet(canonical, q.hash) ==>
              |replies| == Least(Limit(q), Least(Num(q.hash), 100) / (q.skip + 1) + 1)
  {
    hide NoneMet, LinkedMap, Reached;
    if q.skip == 0 || (LinkedMap(canonical) && !NoneMet(canonical, q.hash)) {
      ReplyCount(Num(q.hash), q.skip + 1, |replies|, Limit(q));
    }
    if q.skip > 0 && NoneMet(canonical, q.hash) {
      ReplyCount(Least(Num(q.hash), 100), q.skip + 1, |replies|, Limit(q));
    }
  }

  /** Serves a header query. */
  method GetBlockHeaders(hc: HeaderChain, q: Query) returns (replies: seq<Hash>)
    requires ChainOk(hc) && q.number < TWO_64 && q.amount < TWO_64 && q.skip < TWO_64
    ensures |replies| <= 192 && (replies != [] ==> |replies| <= Limit(q) <= q.amount)
    ensures replies == [] <==> Limit(q) <= 0 || Origin(hc, q) == Zero
    ensures replies != [] ==> replies[0] == Origin(hc, q)
    ensures forall i :: 0 <= i < |replies| ==> replies[i] in hc.headers
    ensures forall i :: 0 <= i < |replies| - 1 ==> Spaced(hc, q, replies[i], replies[i + 1])
    ensures Trusted(hc, q) ==> forall i :: 0 <= i < |replies| - 1 ==> Follows(hc, q, replies[i], replies[i + 1])
    ensures LinkedMap(hc.canonical) && replies != [] && Canonical(hc, replies[0]) && |replies| < Limit(q) ==>
              Exhausted(hc, q, replies[|replies| - 1])
    ensures Climbs(q) ==>
              forall i :: 0 <= i < |replies| - 1 ==> replies[i + 1] == Forward(hc.canonical, replies[i], q.skip)
    ensures Climbs(q) && replies != [] && |replies| < Limit(q) ==>
              Forward(hc.canonical, replies[|replies| - 1], q.skip) == Zero
    ensures Falls(q) && replies != []
            && (q.skip == 0 || (LinkedMap(hc.canonical) && exists n: nat ::
                                  Num(q.hash) - 100 <= n <= Num(q.hash) && MeetsAt(hc.canonical, q.hash, n))) ==>
              |replies| == Least(Limit(q), Num(q.hash) / (q.skip + 1) + 1)
    ensures Falls(q) && replies != [] && q.skip > 0
            && (forall n: nat :: Num(q.hash) - 100 <= n <= Num(q.hash) ==> !MeetsAt(hc.canonical, q.hash, n)) ==>
              |replies| == Least(Limit(q), Least(Num(q.hash), 100) / (q.skip + 1) + 1)
  {
    hide Fallen, StepSpends, Spends, Backward;
    NotStoredZero(hc.headers, hc.genesis, hc.canonical);
    replies := [];
    var hashMode := q.hash != Zero;
    var first, unknown, budget, bytes := true, false, 100, 0;
    var hash, number: nat := q.hash, q.number;
    while !unknown && |replies| < AsInt(q.amount) && bytes < SOFT_RESPONSE_LIMIT && |replies| < MAX_HEADER_FETCH
      invariant first <==> replies == []
      invariant bytes == EST_HEADER_RLP_SIZE * |replies| && |replies| <= MAX_HEADER_FETCH
      invariant replies != [] ==> |replies| <= Limit(q)
      invariant RepliesOk(hc, q, replies)
      invariant number < TWO_64
      invariant first ==> budget == 100
      invariant !first && Falls(q) ==> Fallen(hc.canonical, q, replies, unknown, hash, budget)
      invariant first ==> !unknown && hash == q.hash && number == q.number
      invariant !first && !unknown ==> NextOk(hc, q, replies[|replies| - 1], hash, number)
      invariant !first && unknown && Canonical(hc, replies[0]) && LinkedMap(hc.canonical) ==>
                  Exhausted(hc, q, replies[|replies| - 1])
      invariant !first && unknown && Climbs(q) ==> Forward(hc.canonical, replies[|replies| - 1], q.skip) == Zero
      decreases MAX_HEADER_FETCH - |replies|, !unknown
    {
      var origin: Hash := Zero;
      if hashMode {
        if first {
          if hash in hc.headers {
            origin, number := hash, Num(hash);
          }
        } else if Has(hc.headers, hash, number) {
          origin := hash;
        }
      } else {
        origin := ReadCanonical(hc.canonical, number);
      }
      if origin == Zero {
        break;
      }
      RepliesGrow(hc, q, replies, origin);
      first := false;
      replies := replies + [origin];
      bytes := bytes + EST_HEADER_RLP_SIZE;
      var left;
      unknown, hash, number, left := Advance(hc, q, origin, budget);
      if Falls(q) {
        FallsOn(hc, q, replies[..|replies| - 1], origin, budget, unknown, hash, left);
      }
      budget := left;
    }
    if Falls(q) && replies != [] {
      FallenCount(hc.canonical, q, replies, unknown, hash, budget);
    }
  }

  /** Moves the query from one reply to where the next one is expected, or gives up. */
  method Advance(hc: HeaderChain, q: Query, origin: Hash, budget: nat)
    returns (unknown: bool, hash: Hash, number: nat, budget': nat)
    requires ChainOk(hc) && q.skip < TWO_64 && origin in hc.headers && (q.hash == Zero ==> Canonical(hc, origin))
    ensures number < TWO_64
    ensures !unknown ==> NextOk(hc, q, origin, hash, number)
    ensures unknown && Canonical(hc, origin) && LinkedMap(hc.canonical) ==> Exhausted(hc, q, origin)
    ensures unknown && Climbs(q) ==> Forward(hc.canonical, origin, q.skip) == Zero
    ensures Falls(q) ==> && hash == Backward(hc.canonical, origin, q.skip, budget) && (unknown <==> hash == Zero)
                         && StepSpends(hc.canonical, origin, q.skip, budget, hash, budget')
  {
    unknown, hash, number, budget' := false, Zero, Num(origin), budget;
    if q.hash != Zero {
      if q.reverse {
        hash, budget' := StepBack(hc, q, origin, budget);
      } else {
        hash, budget' := StepForward(hc, q, origin, budget);
      }
      unknown, number := hash == Zero, Num(hash);
    } else if q.reverse {
      if number >= Wrap(q.skip + 1) {
        number := number - Wrap(q.skip + 1);
      } else {
        unknown := true;
      }
    } else {
      number := Wrap(number + q.skip + 1);
    }
  }

  /** Where the query continues after a reply. */
  ghost predicate NextOk(hc: HeaderChain, q: Query, last: Hash, hash: Hash, number: nat)
    reads hc
  {
    if q.hash != Zero then
      && Has(hc.headers, hash, number) && Spaced(hc, q, last, hash) && (Trusted(hc, q) ==> Follows(hc, q, last, hash))
      && (Canonical(hc, last) && LinkedMap(hc.canonical) ==> Canonical(hc, hash))
      && (Climbs(q) ==> hash == Forward(hc.canonical, last, q.skip))
    else
      Canonical(hc, last) && number == if q.reverse then Num(last) - Wrap(q.skip + 1) else Wrap(Num(last) + q.skip + 1)
  }

  lemma RepliesGrow(hc: HeaderChain, q: Query, replies: seq<Hash>, origin: Hash)
    requires ChainOk(hc) && RepliesOk(hc, q, replies) && origin in hc.headers
    requires replies == [] ==> origin == Origin(hc, q)
    requires replies != [] ==> Spaced(hc, q, replies[|replies| - 1], origin)
    requires replies != [] && Trusted(hc, q) ==> Follows(hc, q, replies[|replies| - 1], origin)
    requires replies != [] && Climbs(q) ==> origin == Forward(hc.canonical, replies[|replies| - 1], q.skip)
    requires replies != [] && Canonical(hc, replies[|replies| - 1]) && LinkedMap(hc.canonical) ==> Canonical(hc, origin)
    ensures RepliesOk(hc, q, replies + [origin])
  {
    var grown := replies + [origin];
    forall i | 0 <= i < |grown| - 1
      ensures Spaced(hc, q, grown[i], grown[i + 1]) && (Trusted(hc, q) ==> Follows(hc, q, grown[i], grown[i + 1]))
      ensures Climbs(q) ==> grown[i + 1] == Forward(hc.canonical, grown[i], q.skip)
    {
    }
  }

  /**
   After a takeover that leaves entries above the head, the grandparent of the old head is answered wrongly, and a
   query forward from the new head replies with the old one, which does not descend from it.
   */
  method MisledExample() returns (hc: HeaderChain, three: Hash, heavy: Hash, answer: Hash, replies: seq<Hash>)
    ensures ChainOk(hc) && hc.StoreValid() && hc.currentHeader == heavy && three in hc.headers
    ensures !FarLinked(hc.canonical) && Num(three) == 3
    ensures answer == heavy != Ancestor(three, 2)
    ensures replies == [heavy, three]
  {
    hide Closed, TdsExact, Blocks.Tracks, Blocks.StoredDownTo, Blocks.UniqueTxs, Blocks.ChainIndex, Headers.MarksStored;
    var bc;
    bc, three, heavy := Blocks.Overtaken();
    OvertakenStore(bc.headers, bc.blocks, bc.genesis, bc.canonical, bc.top, bc.currentBlock);
    hc := new HeaderChain.Open(bc.headers, bc.tds, bc.canonical, bc.currentBlock, bc.currentBlock);
    Misled(hc.headers, hc.genesis, hc.canonical, three, heavy);
    var n, b;
    answer, n, b := hc.GetAncestor(three, 3, 2, 0);
    replies := GetBlockHeaders(hc, Query(heavy, 0, 2, 1, false));
  }

  lemma OvertakenStore(headers: set<Hash>, blocks: set<Hash>, genesis: Hash, canonical: map<nat, Hash>, top: nat,
                       head: Hash)
    requires Closed(headers, genesis) && blocks <= headers && MarksStored(canonical, blocks)
    requires Blocks.Tracks(canonical, head, top) && head in headers
    ensures Marks(canonical, headers) && canonical[0] == genesis && forall n: nat :: n in canonical <==> n <= top
  {
    assert Marks(canonical, headers);
    OneRoot(headers, genesis, canonical);
  }

  lemma Misled(headers: set<Hash>, genesis: Hash, canonical: map<nat, Hash>, three: Hash, heavy: Hash)
    requires Closed(headers, genesis) && MarksStored(canonical, headers) && Blocks.IsHeight3(genesis, three)
    requires 1 in canonical && canonical[1] == heavy && 3 in canonical && canonical[3] == three && heavy != At(three, 1)
    requires heavy.HashOf? && Num(heavy) == 1
    ensures !FarLinked(canonical) && Ancestor(three, 2) == At(three, 1)
    ensures Answer(canonical, three, 2, 0) == heavy && Forward(canonical, heavy, 1) == three
  {
    ClosedWellFormed(headers, genesis, three);
    AncestorIsAt(three, 2);
    assert MeetsAt(canonical, three, 3);
    assert canonical[1] != At(canonical[3], 1);
  }
}
