/**
 core/headerchain.go: the header database, the canonical number to hash assignment and
 the head header, rewritten by header imports and by rewinds. Database reads made while a
 write batch is being assembled see the state before the batch.
 */
module Headers {
  import opened ChainTree

  datatype WriteStatus = NonStat | CanonStat | SideStat

  datatype WriteResult =
    | UnknownAncestor
    | Written(status: WriteStatus, ignored: int, imported: int, lastHash: Hash)

  predicate LinkedAt(batch: seq<Block>, i: nat)
    requires i < |batch|
  {
    LocallyValid(batch[i]) && (i > 0 ==> batch[i].parent == HashOf(batch[i - 1]))
  }

  /** What ValidateHeaderChain establishes of a batch before it is written. */
  ghost predicate Contiguous(batch: seq<Block>) {
    forall i: nat {:trigger LinkedAt(batch, i)} :: i < |batch| ==> LinkedAt(batch, i)
  }

  lemma ContiguousPrefix(batch: seq<Block>, k: nat)
    requires Contiguous(batch) && k <= |batch|
    ensures Contiguous(batch[..k])
  {
    forall i: nat | i < k
      ensures LinkedAt(batch[..k], i)
    {
      assert LinkedAt(batch, i);
    }
  }

  ghost predicate TdsExact(tds: map<Hash, nat>, headers: set<Hash>) {
    tds.Keys == headers && forall h :: h in headers ==> tds[h] == Td(h)
  }

  ghost predicate HeaviestIn(head: Hash, headers: set<Hash>) {
    head in headers && forall h :: h in headers ==> Td(h) <= Td(head)
  }

  ghost function Hashes(batch: seq<Block>): set<Hash> {
    if batch == [] then {} else Hashes(batch[..|batch| - 1]) + {HashOf(batch[|batch| - 1])}
  }

  lemma {:induction false} HashesElements(batch: seq<Block>, b: Block)
    ensures HashOf(b) in Hashes(batch) <==> b in batch
  {
    if batch != [] {
      HashesElements(batch[..|batch| - 1], b);
    }
  }

  function LastHash(batch: seq<Block>): Hash
    requires batch != []
  {
    HashOf(batch[|batch| - 1])
  }

  /** The fork choice of a header import; coin is the outcome of the random tie break. */
  predicate TakesOver(newTd: nat, localTd: nat, lastNumber: nat, headNumber: nat, coin: bool) {
    newTd > localTd || (newTd == localTd && (lastNumber < headNumber || (lastNumber == headNumber && coin)))
  }

  /** Heavier, or equally heavy and lower. */
  ghost predicate Better(h: Hash, g: Hash) {
    Td(h) > Td(g) || (Td(h) == Td(g) && Num(h) < Num(g))
  }

  ghost predicate BestIn(head: Hash, headers: set<Hash>) {
    head in headers && forall h :: h in headers ==> !Better(h, head)
  }

  /** A better candidate becomes the head and a worse one does not; between equals the coin decides. */
  ghost predicate Chosen(current: Hash, candidate: Hash, coin: bool, head: Hash) {
    && (Better(candidate, current) ==> head == candidate)
    && (Better(current, candidate) ==> head == current)
    && (!Better(candidate, current) && !Better(current, candidate) ==> head == if coin then candidate else current)
  }

  ghost predicate AllKnown(headers: set<Hash>, batch: seq<Block>) {
    forall b :: b in batch ==> HashOf(b) in headers
  }

  /** Every ancestor of the last header is in the batch or an ancestor of the batch's parent. */
  lemma {:induction false} BatchAncestors(batch: seq<Block>, n: nat)
    requires batch != [] && Contiguous(batch) && WellFormed(batch[0].parent)
    requires n <= batch[|batch| - 1].number
    ensures WellFormed(LastHash(batch))
    ensures batch[|batch| - 1].number == batch[0].number + |batch| - 1
    ensures n < batch[0].number ==> At(LastHash(batch), n) == At(batch[0].parent, n)
    ensures n >= batch[0].number ==> At(LastHash(batch), n) == HashOf(batch[n - batch[0].number])
    decreases |batch|
  {
    assert LinkedAt(batch, 0);
    if |batch| > 1 {
      var shorter := batch[..|batch| - 1];
      ContiguousPrefix(batch, |batch| - 1);
      assert LinkedAt(batch, |batch| - 1);
      var below := if n < batch[|batch| - 1].number then n else 0;
      assert Num(LastHash(shorter)) == batch[|batch| - 1].number - 1;
      BatchAncestors(shorter, below);
    }
  }

  lemma BatchNumber(batch: seq<Block>, i: nat)
    requires Contiguous(batch) && i < |batch| && WellFormed(batch[0].parent)
    ensures batch[i].number == batch[0].number + i
  {
    ContiguousPrefix(batch, i + 1);
    BatchAncestors(batch[..i + 1], 0);
  }

  /** In a parent-closed store nothing after an unknown header of the batch is known. */
  lemma {:induction false} KnownPrefix(headers: set<Hash>, genesis: Hash, batch: seq<Block>, i: nat, j: nat)
    requires Closed(headers, genesis) && Contiguous(batch) && i <= j < |batch|
    requires HashOf(batch[j]) in headers
    ensures HashOf(batch[i]) in headers
    decreases j - i
  {
    if i < j {
      assert LinkedAt(batch, j);
      assert Links(HashOf(batch[j]), headers, genesis);
      KnownPrefix(headers, genesis, batch, i, j - 1);
    }
  }

  /** The import loop: total difficulties are accumulated and unknown headers stored. */
  method StoreBatch(headers: set<Hash>, tds: map<Hash, nat>, ghost genesis: Hash, batch: seq<Block>)
    returns (headers': set<Hash>, tds': map<Hash, nat>, inserted: seq<Hash>, firstInserted: int, newTd: nat)
    requires batch != [] && Contiguous(batch) && batch[0].parent in headers
    requires Closed(headers, genesis) && TdsExact(tds, headers)
    ensures headers' == headers + Hashes(batch)
    ensures Closed(headers', genesis) && TdsExact(tds', headers')
    ensures newTd == Td(LastHash(batch))
    ensures SplitAt(headers, batch, |batch|, firstInserted, inserted)
    ensures |headers'| == |headers| + |inserted|
  {
    SplitStarts(headers, batch);
    headers', tds', inserted, firstInserted := headers, tds, [], -1;
    newTd := tds[batch[0].parent];
    hide SplitAt, Hashes, Contiguous, Closed;
    var lastHash := batch[0].parent;
    var i := 0;
    while i < |batch|
      invariant 0 <= i <= |batch|
      invariant headers' == headers + Hashes(batch[..i])
      invariant Closed(headers', genesis) && TdsExact(tds', headers')
      invariant lastHash == (if i == 0 then batch[0].parent else HashOf(batch[i - 1]))
      invariant lastHash in headers' && newTd == Td(lastHash)
      invariant SplitAt(headers, batch, i, firstInserted, inserted)
      invariant |headers'| == |headers| + |inserted|
    {
      var hash := HashOf(batch[i]);
      newTd := newTd + batch[i].difficulty;
      assert LinkedAt(batch, i) by { LinkedIn(batch, i); }
      assert batch[i].parent == lastHash && newTd == Td(hash);
      StoredExactly(headers, genesis, batch, i, firstInserted, inserted);
      headers', tds', inserted, firstInserted :=
        StoreOne(headers, headers', tds', genesis, batch, i, hash, newTd, inserted, firstInserted);
      lastHash := hash;
      i := i + 1;
    }
    assert batch[..i] == batch;
  }

  /** One round of the import loop: an unknown header is stored with its total difficulty. */
  method StoreOne(ghost known: set<Hash>, headers: set<Hash>, tds: map<Hash, nat>, ghost genesis: Hash,
                  ghost batch: seq<Block>, i: nat, hash: Hash, td: nat, inserted: seq<Hash>, firstInserted: int)
    returns (headers': set<Hash>, tds': map<Hash, nat>, inserted': seq<Hash>, firstInserted': int)
    requires i < |batch| && hash == HashOf(batch[i]) && td == Td(hash)
    requires headers == known + Hashes(batch[..i]) && Closed(headers, genesis) && TdsExact(tds, headers)
    requires LocallyValid(batch[i]) && batch[i].parent in headers
    requires hash in headers <==> (firstInserted == -1 && hash in known)
    requires firstInserted != -1 ==> hash !in known
    requires SplitAt(known, batch, i, firstInserted, inserted) && |headers| == |known| + |inserted|
    ensures headers' == known + Hashes(batch[..i + 1]) && Closed(headers', genesis) && TdsExact(tds', headers')
    ensures hash in headers'
    ensures SplitAt(known, batch, i + 1, firstInserted', inserted') && |headers'| == |known| + |inserted'|
  {
    headers', tds', inserted', firstInserted' := headers, tds, inserted, firstInserted;
    HashesExtend(known, batch, i);
    if hash !in headers {
      assert Links(batch[i].parent, headers, genesis);
      InsertKeeps(headers, tds, genesis, hash);
      headers', tds', inserted' := headers + {hash}, tds[hash := td], inserted + [hash];
      if firstInserted < 0 {
        firstInserted' := i;
      }
    }
    SplitStep(known, batch, i, firstInserted, inserted, firstInserted', inserted');
  }

  /** After i headers: the known ones come first, the stored ones are the rest, in order. */
  ghost predicate SplitAt(headers: set<Hash>, batch: seq<Block>, i: nat, first: int, inserted: seq<Hash>)
    requires i <= |batch|
  {
    && -1 <= first < i
    && |inserted| == (if first == -1 then 0 else i - first)
    && (forall j :: 0 <= j < (if first == -1 then i else first) ==> HashOf(batch[j]) in headers)
    && (first != -1 ==> forall j :: first <= j < i ==> HashOf(batch[j]) !in headers)
    && (forall j :: 0 <= j < |inserted| ==> inserted[j] == HashOf(batch[first + j]))
  }

  lemma SplitStarts(headers: set<Hash>, batch: seq<Block>)
    ensures SplitAt(headers, batch, 0, -1, []) && headers + Hashes(batch[..0]) == headers
  {
  }

  lemma LinkedIn(batch: seq<Block>, i: nat)
    requires Contiguous(batch) && i < |batch|
    ensures LinkedAt(batch, i)
  {
  }

  lemma SplitStep(headers: set<Hash>, batch: seq<Block>, i: nat, first: int, inserted: seq<Hash>,
                  first': int, inserted': seq<Hash>)
    requires i < |batch| && SplitAt(headers, batch, i, first, inserted)
    requires if first == -1 && HashOf(batch[i]) in headers then first' == first && inserted' == inserted
             else HashOf(batch[i]) !in headers && first' == (if first == -1 then i else first)
                  && inserted' == inserted + [HashOf(batch[i])]
    ensures SplitAt(headers, batch, i + 1, first', inserted')
  {
  }

  lemma HashesExtend(headers: set<Hash>, batch: seq<Block>, i: nat)
    requires i < |batch|
    ensures headers + Hashes(batch[..i + 1]) == (headers + Hashes(batch[..i])) + {HashOf(batch[i])}
    ensures HashOf(batch[i]) in headers + Hashes(batch[..i]) ==>
              headers + Hashes(batch[..i + 1]) == headers + Hashes(batch[..i])
  {
    assert batch[..i + 1][..i] == batch[..i];
  }

  lemma InsertKeeps(headers: set<Hash>, tds: map<Hash, nat>, genesis: Hash, hash: Hash)
    requires Closed(headers, genesis) && TdsExact(tds, headers)
    requires hash.HashOf? && LocallyValid(hash.block) && hash.block.parent.HashOf? && hash.block.parent in headers
    ensures Closed(headers + {hash}, genesis) && TdsExact(tds[hash := Td(hash)], headers + {hash})
  {
    ClosedExtend(headers, genesis, hash);
  }

  lemma StoredExactly(headers: set<Hash>, genesis: Hash, batch: seq<Block>, i: nat, first: int, inserted: seq<Hash>)
    requires Closed(headers, genesis) && Contiguous(batch) && i < |batch| && batch[0].parent in headers
    requires SplitAt(headers, batch, i, first, inserted)
    ensures HashOf(batch[i]) in headers + Hashes(batch[..i]) <==> (first == -1 && HashOf(batch[i]) in headers)
    ensures first != -1 ==> HashOf(batch[i]) !in headers
  {
    if first != -1 {
      FreshAfterUnknown(headers, genesis, batch, first, i);
    } else {
      HashesElements(batch[..i], batch[i]);
    }
  }

  lemma FreshAfterUnknown(headers: set<Hash>, genesis: Hash, batch: seq<Block>, first: nat, i: nat)
    requires Closed(headers, genesis) && Contiguous(batch) && first < i < |batch|
    requires batch[0].parent in headers && HashOf(batch[first]) !in headers
    ensures HashOf(batch[i]) !in headers + Hashes(batch[..i])
  {
    if HashOf(batch[i]) in headers {
      KnownPrefix(headers, genesis, batch, first, i);
    }
    ClosedWellFormed(headers, genesis, batch[0].parent);
    forall j | 0 <= j < i
      ensures batch[j].number < batch[i].number
    {
      BatchNumber(batch, i);
      BatchNumber(batch, j);
    }
    HashesElements(batch[..i], batch[i]);
  }

  /** A missing entry reads as the zero hash. */
  function ReadCanonical(canonical: map<nat, Hash>, n: nat): Hash {
    if n in canonical then canonical[n] else Zero
  }

  /** Every assignment names a stored header of its number, and number 0 is assigned. */
  ghost predicate Marks(canonical: map<nat, Hash>, headers: set<Hash>) {
    0 in canonical && MarksStored(canonical, headers)
  }

  ghost predicate MarksStored(canonical: map<nat, Hash>, headers: set<Hash>) {
    forall n: nat :: n in canonical ==> Has(headers, canonical[n], n)
  }

  ghost function KeysFrom(canonical: map<nat, Hash>, from: nat): set<nat> {
    set n | n in canonical && n >= from
  }

  /** Deletes the assignments from the given number up to the first gap, which is returned. */
  method DeleteUpwards(canonical: map<nat, Hash>, from: nat) returns (c: map<nat, Hash>, ghost gap: nat)
    ensures from <= gap && ReadCanonical(canonical, gap) == Zero
    ensures forall n: nat :: from <= n < gap ==> n in canonical
    ensures c == map n | n in canonical && !(from <= n < gap) :: canonical[n]
  {
    c := canonical;
    var i := from;
    while ReadCanonical(canonical, i) != Zero
      invariant from <= i && forall n: nat :: from <= n < i ==> n in canonical
      invariant c == map n | n in canonical && !(from <= n < i) :: canonical[n]
      decreases KeysFrom(canonical, i)
    {
      assert i in KeysFrom(canonical, i) && KeysFrom(canonical, i + 1) == KeysFrom(canonical, i) - {i};
      c := c - {i};
      i := i + 1;
    }
    gap := i;
  }

  /** The entries of the chain of start numbered above met replace those of the assignment. */
  ghost predicate WrittenAbove(c: map<nat, Hash>, pending: map<nat, Hash>, start: Hash, met: nat) {
    && (forall n: nat :: n in c <==> n in pending || met < n <= Num(start))
    && (forall n: nat :: n in c ==> c[n] == if met < n <= Num(start) then At(start, n) else pending[n])
  }

  /** Overwrites stale assignments going backwards until the canonical chain is met. */
  method WalkBack(canonical: map<nat, Hash>, pending: map<nat, Hash>, start: Hash, ghost headers: set<Hash>,
                  ghost genesis: Hash)
    returns (c: map<nat, Hash>, ghost met: nat)
    requires Closed(headers, genesis) && start in headers && Marks(canonical, headers)
    ensures met <= Num(start) && ReadCanonical(canonical, met) == At(start, met)
    ensures WrittenAbove(c, pending, start, met)
  {
    c := pending;
    var headHash, headNumber := start, Num(start);
    ClosedAncestors(headers, genesis, start, 0);
    OneRoot(headers, genesis, canonical);
    while ReadCanonical(canonical, headNumber) != headHash
      invariant 0 <= headNumber <= Num(start) && headHash == At(start, headNumber)
      invariant headHash in headers
      invariant WrittenAbove(c, pending, start, headNumber)
      decreases headNumber
    {
      assert headNumber > 0;
      AtStep(start, headNumber);
      assert Links(headHash, headers, genesis);
      c := c[headNumber := headHash];
      headHash, headNumber := headHash.block.parent, headNumber - 1;
    }
    met := headNumber;
  }

  /** Number 0 belongs to the genesis block alone. */
  lemma OneRoot(headers: set<Hash>, genesis: Hash, canonical: map<nat, Hash>)
    requires Closed(headers, genesis) && Marks(canonical, headers)
    ensures canonical[0] == genesis
  {
    assert Links(canonical[0], headers, genesis);
  }

  lemma AtStep(h: Hash, n: nat)
    requires WellFormed(h) && 0 < n <= Num(h)
    ensures At(h, n).HashOf? && At(h, n).block.parent == At(h, n - 1) && At(h, n - 1).HashOf?
  {
    AtFacts(h, n);
    AtFacts(h, n - 1);
    AtCompose(h, n, n - 1);
  }

  lemma MetCanonical(canonical: map<nat, Hash>, current: Hash, start: Hash, n: nat)
    requires WellFormed(current) && WellFormed(start) && IsPath(canonical, current)
    requires n <= Num(start) && ReadCanonical(canonical, n) == At(start, n)
    ensures n <= Num(current)
    ensures forall m: nat :: m <= n ==> canonical[m] == At(start, m)
  {
    AtFacts(start, n);
    forall m: nat | m <= n
      ensures canonical[m] == At(start, m)
    {
      PathsAgreeBelow(current, start, n, m);
    }
  }

  /** Once the walk has met a chain that the assignment follows, the batch's parent is followed below. */
  lemma WalkedPath(canonical: map<nat, Hash>, pending: map<nat, Hash>, c: map<nat, Hash>, current: Hash, start: Hash,
                   met: nat)
    requires WellFormed(current) && WellFormed(start) && IsPath(canonical, current)
    requires met <= Num(start) && ReadCanonical(canonical, met) == At(start, met)
    requires WrittenAbove(c, pending, start, met)
    requires forall n: nat :: n <= Num(start) && n in canonical ==> n in pending && pending[n] == canonical[n]
    ensures forall n: nat :: n <= Num(start) ==> n in c && c[n] == At(start, n)
  {
    MetCanonical(canonical, current, start, met);
  }

  lemma WrittenMarks(c: map<nat, Hash>, pending: map<nat, Hash>, headers: set<Hash>, genesis: Hash, start: Hash,
                     met: nat)
    requires Closed(headers, genesis) && start in headers && Marks(pending, headers)
    requires WrittenAbove(c, pending, start, met)
    ensures Marks(c, headers)
  {
    forall n: nat | n in c
      ensures Has(headers, c[n], n)
    {
      if met < n <= Num(start) {
        ClosedAncestors(headers, genesis, start, n);
        AtFacts(start, n);
      }
    }
  }

  /** Deletes what lies above the batch and follows the chain of its parent back to the canonical chain. */
  method Unwind(canonical: map<nat, Hash>, ghost known: set<Hash>, ghost genesis: Hash, ghost current: Hash,
                batch: seq<Block>)
    returns (c: map<nat, Hash>)
    requires Closed(known, genesis) && current in known && Marks(canonical, known)
    requires batch != [] && Contiguous(batch) && batch[0].parent in known
    ensures Marks(c, known)
    ensures IsPath(canonical, current) ==>
              MarkedUpTo(c, batch, 0) && UntouchedFrom(c, canonical, batch[0].number, batch[0].number + |batch|)
  {
    ClosedAncestors(known, genesis, current, 0);
    ClosedAncestors(known, genesis, batch[0].parent, 0);
    BatchAncestors(batch, 0);
    assert LinkedAt(batch, 0);
    var pending; ghost var gap, met;
    pending, gap := DeleteUpwards(canonical, batch[|batch| - 1].number + 1);
    c, met := WalkBack(canonical, pending, batch[0].parent, known, genesis);
    WrittenMarks(c, pending, known, genesis, batch[0].parent, met);
    if IsPath(canonical, current) {
      NoZero(canonical, current);
      WalkedPath(canonical, pending, c, current, batch[0].parent, met);
    }
  }

  /** Writes the canonical markers of an import that takes over the head. */
  method MarkCanonical(canonical: map<nat, Hash>, marker: Hash, ghost known: set<Hash>, ghost genesis: Hash,
                       current: Hash, batch: seq<Block>, inserted: seq<Hash>, firstInserted: int)
    returns (c: map<nat, Hash>, marker': Hash)
    requires Closed(known, genesis) && current in known && Marks(canonical, known)
    requires batch != [] && Contiguous(batch) && batch[0].parent in known
    requires SplitAt(known, batch, |batch|, firstInserted, inserted)
    ensures Marks(c, known + Hashes(batch)) && marker' == if firstInserted == -1 then marker else LastHash(batch)
    ensures IsPath(canonical, current) && firstInserted != -1 ==>
              (IsPath(c, LastHash(batch)) <==> batch[0].parent == current ==> firstInserted == 0)
    ensures firstInserted == -1 && batch[0].parent == current ==> c == canonical
    ensures firstInserted == -1 && batch[0].parent != current && IsPath(canonical, current) ==>
              MarkedUpTo(c, batch, 0) && UntouchedFrom(c, canonical, batch[0].number, batch[0].number + |batch|)
  {
    c, marker' := canonical, marker;
    ClosedAncestors(known, genesis, batch[0].parent, 0);
    MarksGrow(c, known, batch);
    if batch[0].parent != current {
      c := Unwind(canonical, known, genesis, current, batch);
      MarksGrow(c, known, batch);
      if firstInserted > 0 {
        c, marker' := MarkKnown(c, known, batch, firstInserted);
      }
    }
    if inserted != [] {
      ghost var c0 := c;
      c, marker' := MarkInserted(c, known, batch, inserted, firstInserted);
      if IsPath(canonical, current) && batch[0].parent == current {
        ClosedAncestors(known, genesis, current, 0);
        AppendedPath(canonical, current, c, batch, firstInserted);
      }
    }
  }

  /** Appending to the head's path: without a gap the result is the new path, with one it is not. */
  lemma AppendedPath(canonical: map<nat, Hash>, current: Hash, c: map<nat, Hash>, batch: seq<Block>, first: nat)
    requires WellFormed(current) && IsPath(canonical, current) && first < |batch| && Contiguous(batch)
    requires batch[0].parent == current
    requires MarkedUpTo(canonical, batch, first) ==> IsPath(c, LastHash(batch))
    requires forall n: nat :: n < batch[0].number + first ==>
               (n in c <==> n in canonical) && (n in c ==> c[n] == canonical[n])
    ensures IsPath(c, LastHash(batch)) <==> first == 0
  {
    assert LinkedAt(batch, 0);
    BatchAncestors(batch, 0);
    if first == 0 {
      assert MarkedUpTo(canonical, batch, 0);
    } else {
      assert batch[0].number !in c;
    }
  }

  lemma MarksGrow(c: map<nat, Hash>, known: set<Hash>, batch: seq<Block>)
    requires Marks(c, known)
    ensures Marks(c, known + Hashes(batch))
  {
  }

  /** Marks the known headers at the front of the batch. */
  method MarkKnown(c0: map<nat, Hash>, ghost known: set<Hash>, batch: seq<Block>, first: nat)
    returns (c: map<nat, Hash>, marker: Hash)
    requires Contiguous(batch) && 0 < first <= |batch| && WellFormed(batch[0].parent)
    requires Marks(c0, known + Hashes(batch))
    ensures Marks(c, known + Hashes(batch))
    ensures MarkedUpTo(c0, batch, 0) ==> MarkedUpTo(c, batch, first)
  {
    c, marker := c0, Zero;
    var i := 0;
    while i < first
      invariant 0 <= i <= first && Marks(c, known + Hashes(batch))
      invariant MarkedUpTo(c0, batch, 0) ==> MarkedUpTo(c, batch, i)
    {
      MarkStep(c, known, batch, i);
      c, marker := c[batch[i].number := HashOf(batch[i])], HashOf(batch[i]);
      i := i + 1;
    }
  }

  /** Extends the canonical chain with the newly stored headers. */
  method MarkInserted(c0: map<nat, Hash>, ghost known: set<Hash>, ghost batch: seq<Block>, inserted: seq<Hash>,
                      ghost first: nat)
    returns (c: map<nat, Hash>, marker: Hash)
    requires Contiguous(batch) && |inserted| > 0 && |batch| == first + |inserted| && WellFormed(batch[0].parent)
    requires forall j :: 0 <= j < |inserted| ==> inserted[j] == HashOf(batch[first + j])
    requires Marks(c0, known + Hashes(batch))
    ensures Marks(c, known + Hashes(batch)) && marker == LastHash(batch)
    ensures MarkedUpTo(c0, batch, first) ==> IsPath(c, LastHash(batch))
    ensures forall n: nat :: n < batch[0].number + first ==> (n in c <==> n in c0) && (n in c ==> c[n] == c0[n])
  {
    c, marker := c0, Zero;
    var j := 0;
    while j < |inserted|
      invariant 0 <= j <= |inserted| && Marks(c, known + Hashes(batch))
      invariant MarkedUpTo(c0, batch, first) ==> MarkedUpTo(c, batch, first + j)
      invariant forall n: nat :: n < batch[0].number + first ==> (n in c <==> n in c0) && (n in c ==> c[n] == c0[n])
      invariant j == |inserted| ==> marker == LastHash(batch)
    {
      MarkStep(c, known, batch, first + j);
      c, marker := c[Num(inserted[j]) := inserted[j]], inserted[j];
      j := j + 1;
    }
    if MarkedUpTo(c0, batch, first) {
      MarkedAll(c, batch);
    }
  }

  /** The assignment already follows the batch through its first i headers and holds nothing above the last one. */
  ghost predicate MarkedUpTo(c: map<nat, Hash>, batch: seq<Block>, i: nat)
    requires batch != [] && i <= |batch|
  {
    && (forall n: nat :: n in c ==> n < batch[0].number + |batch|)
    && (forall n: nat :: n < batch[0].number + i ==> n in c)
    && (forall n: nat :: n < batch[0].number ==> n in c && c[n] == At(batch[0].parent, n))
    && (forall j :: 0 <= j < i ==> batch[0].number + j in c && c[batch[0].number + j] == HashOf(batch[j]))
  }

  ghost predicate UntouchedFrom(c: map<nat, Hash>, canonical: map<nat, Hash>, from: nat, to: nat) {
    forall n: nat :: n >= from ==> (n in c <==> n in canonical && n < to) && (n in c ==> c[n] == canonical[n])
  }

  lemma MarkStep(c: map<nat, Hash>, known: set<Hash>, batch: seq<Block>, i: nat)
    requires i < |batch| && Contiguous(batch) && WellFormed(batch[0].parent) && Marks(c, known + Hashes(batch))
    ensures batch[i].number == batch[0].number + i
    ensures Marks(c[batch[i].number := HashOf(batch[i])], known + Hashes(batch))
    ensures MarkedUpTo(c, batch, i) ==> MarkedUpTo(c[batch[i].number := HashOf(batch[i])], batch, i + 1)
  {
    BatchNumber(batch, i);
    HashesElements(batch, batch[i]);
    MarkOne(c, known + Hashes(batch), batch[i]);
    if MarkedUpTo(c, batch, i) {
      MarkNext(c, batch, i);
    }
  }

  lemma MarkOne(c: map<nat, Hash>, headers: set<Hash>, b: Block)
    requires Marks(c, headers) && HashOf(b) in headers
    ensures Marks(c[b.number := HashOf(b)], headers)
  {
  }

  lemma MarkNext(c: map<nat, Hash>, batch: seq<Block>, i: nat)
    requires i < |batch| && MarkedUpTo(c, batch, i) && batch[i].number == batch[0].number + i
    ensures MarkedUpTo(c[batch[i].number := HashOf(batch[i])], batch, i + 1)
  {
  }

  lemma MarkedAll(c: map<nat, Hash>, batch: seq<Block>)
    requires batch != [] && Contiguous(batch) && WellFormed(batch[0].parent) && MarkedUpTo(c, batch, |batch|)
    ensures IsPath(c, LastHash(batch))
  {
    BatchAncestors(batch, 0);
    forall n: nat | n <= Num(LastHash(batch))
      ensures n in c && c[n] == At(LastHash(batch), n)
    {
      BatchAncestors(batch, n);
      var j := n - batch[0].number;
      assert 0 <= j < |batch| ==> c[batch[0].number + j] == HashOf(batch[j]);
    }
  }

  lemma NoZero(canonical: map<nat, Hash>, current: Hash)
    requires WellFormed(current) && IsPath(canonical, current)
    ensures forall n: nat :: n in canonical ==> canonical[n] != Zero
  {
    forall n: nat | n in canonical
      ensures canonical[n] != Zero
    {
      AtFacts(current, n);
    }
  }

  /** The outcome of an import whose parent is known: every header is stored, the head moves by the fork choice. */
  ghost predicate ImportOutcome(known: set<Hash>, current: Hash, batch: seq<Block>, coin: bool, headers': set<Hash>,
                                current': Hash, r: WriteResult)
    requires batch != []
  {
    var last := LastHash(batch);
    var takesOver := TakesOver(Td(last), Td(current), Num(last), Num(current), coin);
    var allKnown := AllKnown(known, batch);
    var added := |headers'| - |known|;
    && headers' == known + Hashes(batch)
    && current' == (if takesOver then last else current)
    && r == Written(if allKnown then NonStat else if takesOver then CanonStat else SideStat,
                    |batch| - added, added, last)
  }

  /**
   Whether assignment and marker follow the head after an import if they did before: unless another head
   takes over with headers that were all known, or with known headers directly above the old head.
   */
  ghost predicate KeepsFollowing(known: set<Hash>, current: Hash, batch: seq<Block>, coin: bool)
    requires batch != []
  {
    var last := LastHash(batch);
    || !TakesOver(Td(last), Td(current), Num(last), Num(current), coin)
    || last == current
    || (!AllKnown(known, batch) && (batch[0].parent == current ==> HashOf(batch[0]) !in known))
  }

  /** The head of an import is the better one; a best head stays best. */
  lemma ImportChooses(known: set<Hash>, genesis: Hash, current: Hash, batch: seq<Block>, coin: bool,
                      headers': set<Hash>, current': Hash, r: WriteResult)
    requires Closed(known, genesis) && batch != [] && Contiguous(batch) && batch[0].parent in known
    requires ImportOutcome(known, current, batch, coin, headers', current', r)
    ensures Chosen(current, LastHash(batch), coin, current') && !Better(current, current')
    ensures BestIn(current, known) ==> BestIn(current', headers')
  {
    HashesElements(batch, batch[|batch| - 1]);
    forall h | h in Hashes(batch)
      ensures !Better(h, LastHash(batch))
    {
      HashesAreHashes(batch, h);
      HashesElements(batch, h.block);
      var j :| 0 <= j < |batch| && batch[j] == h.block;
      BatchTdGrows(batch, j);
    }
  }

  /** From a heaviest head, an unknown header in the batch is enough. */
  lemma HeaviestKeepsFollowing(known: set<Hash>, genesis: Hash, current: Hash, batch: seq<Block>, coin: bool)
    requires Closed(known, genesis) && HeaviestIn(current, known)
    requires batch != [] && Contiguous(batch) && batch[0].parent in known
    ensures KeepsFollowing(known, current, batch, coin) <==>
              var last := LastHash(batch);
              !(TakesOver(Td(last), Td(current), Num(last), Num(current), coin) && AllKnown(known, batch)
                && last != current)
  {
    assert LinkedAt(batch, 0);
    if batch[0].parent == current {
      assert Td(HashOf(batch[0])) > Td(current);
    }
  }

  lemma TdLookup(tds: map<Hash, nat>, headers: set<Hash>, h: Hash)
    requires TdsExact(tds, headers) && h in headers
    ensures h in tds && tds[h] == Td(h)
  {
  }

  lemma UnknownKeepsFollowing(known: set<Hash>, genesis: Hash, current: Hash, batch: seq<Block>, coin: bool)
    requires Closed(known, genesis) && batch != [] && Contiguous(batch) && batch[0].parent in known
    ensures HeaviestIn(current, known) && !AllKnown(known, batch) ==> KeepsFollowing(known, current, batch, coin)
  {
    if HeaviestIn(current, known) {
      HeaviestKeepsFollowing(known, genesis, current, batch, coin);
    }
  }

  /** What callers may do to a header chain. */
  datatype Op = Import(batch: seq<Block>, coin: bool) | Rollback(head: nat, updateFn: Hash -> (nat, bool))

  datatype Snap = Snap(headers: set<Hash>, current: Hash)

  ghost predicate OpStep(s: Snap, op: Op, s': Snap) {
    match op
    case Import(batch, coin) =>
      if batch == [] || batch[0].parent !in s.headers then s' == s
      else exists r :: ImportOutcome(s.headers, s.current, batch, coin, s'.headers, s'.current, r)
    case Rollback(head, updateFn) =>
      if Num(s.current) <= head then s' == s
      else
        var target := ForcedTarget(updateFn, s.current, head);
        s' == Snap(HeadersUpTo(s.headers, target), At(s.current, target))
  }

  ghost predicate OpKeepsFollowing(s: Snap, op: Op) {
    op.Import? && op.batch != [] && op.batch[0].parent in s.headers ==>
      KeepsFollowing(s.headers, s.current, op.batch, op.coin)
  }

  class HeaderChain {
    const genesis: Hash
    var headers: set<Hash>
    var tds: map<Hash, nat>
    var canonical: map<nat, Hash>
    var currentHeader: Hash
    var headMarker: Hash

    /** Parent-closed headers, exact total difficulties, a stored head, and assignments of stored headers. */
    ghost predicate StoreValid()
      reads this
    {
      Closed(headers, genesis) && TdsExact(tds, headers) && currentHeader in headers && Marks(canonical, headers)
    }

    ghost predicate HeadIsHeaviest()
      reads this
    {
      HeaviestIn(currentHeader, headers)
    }

    /** No stored header is heavier than the head, or as heavy and lower. */
    ghost predicate HeadIsBest()
      reads this
    {
      BestIn(currentHeader, headers)
    }

    ghost predicate CanonicalFollowsHead()
      reads this
    {
      IsPath(canonical, currentHeader) && headMarker == currentHeader
    }

    ghost function Snapshot(): Snap
      reads this
    {
      Snap(headers, currentHeader)
    }

    ghost predicate Valid()
      reads this
    {
      StoreValid() && HeadIsHeaviest() && CanonicalFollowsHead()
    }

    constructor (genesis: Block)
      requires LocallyValid(genesis) && genesis.parent.Zero?
      ensures Valid() && headers == {HashOf(genesis)} && currentHeader == this.genesis == HashOf(genesis)
    {
      var hash := HashOf(genesis);
      this.genesis, headers, currentHeader, headMarker := hash, {hash}, hash, hash;
      tds, canonical := map[hash := genesis.difficulty], map[0 := hash];
      new;
      forall h | h in headers
        ensures Links(h, headers, this.genesis)
      {
      }
    }

    /** Opens a stored chain: the head is what the head block marker names, or genesis if that is not stored. */
    constructor Open(headers: set<Hash>, tds: map<Hash, nat>, canonical: map<nat, Hash>, marker: Hash, headBlock: Hash)
      requires Marks(canonical, headers) && Closed(headers, canonical[0]) && TdsExact(tds, headers)
      ensures StoreValid() && genesis == canonical[0]
      ensures currentHeader == if headBlock in headers then headBlock else genesis
      ensures this.headers == headers && this.tds == tds && this.canonical == canonical && headMarker == marker
    {
      genesis := canonical[0];
      this.headers, this.tds, this.canonical, headMarker := headers, tds, canonical, marker;
      currentHeader := if headBlock in headers then headBlock else canonical[0];
    }

    /** Imports a batch of headers; coin is the random tie break between equally heavy heads of one height. */
    method WriteHeaders(batch: seq<Block>, coin: bool) returns (r: WriteResult)
      requires StoreValid() && Contiguous(batch)
      modifies this
      ensures StoreValid() && Td(currentHeader) >= Td(old(currentHeader))
      ensures old(HeadIsHeaviest()) ==> HeadIsHeaviest()
      ensures old(HeadIsBest()) ==> HeadIsBest()
      ensures Td(currentHeader) == Td(old(currentHeader)) ==> Num(currentHeader) <= Num(old(currentHeader))
      ensures batch != [] && batch[0].parent in old(headers) ==>
                Chosen(old(currentHeader), LastHash(batch), coin, currentHeader)
      ensures batch == [] ==> unchanged(this) && r == Written(NonStat, 0, 0, Zero)
      ensures batch != [] && batch[0].parent !in old(headers) ==> unchanged(this) && r == UnknownAncestor
      ensures batch != [] && batch[0].parent in old(headers) ==>
                ImportOutcome(old(headers), old(currentHeader), batch, coin, headers, currentHeader, r)
      ensures batch != [] && batch[0].parent in old(headers) && IsPath(old(canonical), old(currentHeader)) ==>
                (IsPath(canonical, currentHeader) <==> KeepsFollowing(old(headers), old(currentHeader), batch, coin))
      ensures batch != [] && batch[0].parent in old(headers) && old(headMarker) == old(currentHeader) ==>
                KeepsFollowing(old(headers), old(currentHeader), batch, coin) ==> headMarker == currentHeader
      ensures old(Valid()) && !AllKnown(old(headers), batch) ==> Valid()
    {
      if batch == [] {
        return Written(NonStat, 0, 0, Zero);
      }
      if batch[0].parent !in tds {
        return UnknownAncestor;
      }
      hide Closed, Marks, IsPath, HeaviestIn, AllKnown, KeepsFollowing, ImportOutcome, Contiguous, BestIn, Chosen;
      UnknownKeepsFollowing(headers, genesis, currentHeader, batch, coin);
      r := WriteBatch(batch, coin);
      ImportChooses(old(headers), genesis, old(currentHeader), batch, coin, headers, currentHeader, r);
    }

    /** The import of a batch whose parent is known. */
    method WriteBatch(batch: seq<Block>, coin: bool) returns (r: WriteResult)
      requires StoreValid() && Contiguous(batch) && batch != [] && batch[0].parent in headers
      modifies this
      ensures StoreValid() && Td(currentHeader) >= Td(old(currentHeader))
      ensures old(HeadIsHeaviest()) ==> HeadIsHeaviest()
      ensures ImportOutcome(old(headers), old(currentHeader), batch, coin, headers, currentHeader, r)
      ensures IsPath(old(canonical), old(currentHeader)) ==>
                (IsPath(canonical, currentHeader) <==> KeepsFollowing(old(headers), old(currentHeader), batch, coin))
      ensures old(headMarker) == old(currentHeader) && KeepsFollowing(old(headers), old(currentHeader), batch, coin) ==>
                headMarker == currentHeader
    {
      hide Closed, Marks, MarksStored, IsPath, HeaviestIn, AllKnown, TakesOver, KeepsFollowing, SplitAt, Hashes,
           Td, TdsExact, Contiguous;
      ghost var known := headers;
      var headers', tds', inserted, firstInserted, newTd := StoreBatch(headers, tds, genesis, batch);
      headers, tds := headers', tds';
      TdLookup(tds, headers, currentHeader);
      var status;
      canonical, headMarker, currentHeader, status :=
        AdvanceHead(canonical, headMarker, currentHeader, known, genesis, batch, inserted, firstInserted, newTd,
                    tds[currentHeader], coin);
      return Written(status, |batch| - |inserted|, |inserted|, LastHash(batch));
    }

    /**
     Rewinds the chain to a lower head, deleting every header, total difficulty and canonical
     assignment above it on all forks. updateFn is the callback that moves the block markers; it
     may force a lower target, which is returned.
     */
    method SetHead(head: nat, updateFn: Hash -> (nat, bool)) returns (target: nat)
      requires Closed(headers, genesis) && TdsExact(tds, headers) && currentHeader in headers
      requires MarksStored(canonical, headers)
      modifies this
      ensures Closed(headers, genesis) && TdsExact(tds, headers) && currentHeader in headers
      ensures MarksStored(canonical, headers) && (0 in canonical <==> 0 in old(canonical))
      ensures Num(old(currentHeader)) <= head ==> unchanged(this) && target == head
      ensures Num(old(currentHeader)) > head ==>
                && target == ForcedTarget(updateFn, old(currentHeader), head)
                && Obeys(updateFn, old(currentHeader), head, target)
                && currentHeader == headMarker == At(old(currentHeader), target)
                && headers == HeadersUpTo(old(headers), target)
                && canonical == (map n | n in old(canonical) && n <= target :: old(canonical)[n])
                && (IsPath(old(canonical), old(currentHeader)) ==> CanonicalFollowsHead())
    {
      target := head;
      if Num(currentHeader) <= head {
        return;
      }
      ghost var top := currentHeader;
      ClosedAncestors(headers, genesis, top, 0);
      hide Obeys;
      ForcedObeys(updateFn, top, head);
      var leftovers := LeftoverHeights(headers, Num(currentHeader) + 1, genesis);
      assert forall n: nat :: n in canonical ==> Has(headers, canonical[n], n) && n < leftovers;
      // The first round also wipes the leftovers above the head.
      var headers', tds', canonical' := PruneLeftovers(headers, tds, canonical, Num(currentHeader) + 1, leftovers);
      currentHeader, target, headers', tds', canonical' :=
        Rewind(headers, tds, canonical, headers', tds', canonical', currentHeader, head, updateFn);
      headMarker := currentHeader;
      RewoundStore(headers, tds, canonical, headers', tds', canonical', genesis, top, target);
      headers, tds, canonical := headers', tds', canonical';
    }

    method Do(op: Op)
      requires StoreValid() && (op.Import? ==> Contiguous(op.batch))
      modifies this
      ensures StoreValid() && OpStep(old(Snapshot()), op, Snapshot())
      ensures op.Import? ==> Td(currentHeader) >= Td(old(currentHeader)) && (old(HeadIsHeaviest()) ==> HeadIsHeaviest())
      ensures op.Import? && Td(currentHeader) == Td(old(currentHeader)) ==>
                Num(currentHeader) <= Num(old(currentHeader))
      ensures op.Import? && old(HeadIsBest()) ==> HeadIsBest()
      ensures old(CanonicalFollowsHead()) ==> (CanonicalFollowsHead() <==> OpKeepsFollowing(old(Snapshot()), op))
    {
      hide Closed, MarksStored, IsPath, HeaviestIn, KeepsFollowing, ImportOutcome, Contiguous, TdsExact, BestIn, Chosen;
      match op {
        case Import(batch, coin) =>
          var _ := WriteHeaders(batch, coin);
        case Rollback(head, updateFn) =>
          var _ := SetHead(head, updateFn);
      }
    }

    /**
     Any sequence of imports and rewinds. Total difficulties stay exact and the head stored; without a
     rewind the head stays heaviest, and lowest of the heaviest, and never gets lighter, or higher at the
     same weight; and the canonical chain follows the head as
     long as no import is a takeover by known headers.
     */
    method Serve(ops: seq<Op>) returns (ghost trace: seq<Snap>)
      requires StoreValid() && forall op :: op in ops && op.Import? ==> Contiguous(op.batch)
      modifies this
      ensures StoreValid()
      ensures |trace| == |ops| + 1 && trace[0] == old(Snapshot()) && trace[|ops|] == Snapshot()
      ensures forall i :: 0 <= i < |ops| ==> OpStep(trace[i], ops[i], trace[i + 1])
      ensures (forall op :: op in ops ==> op.Import?) ==>
                Td(currentHeader) >= Td(old(currentHeader)) && (old(HeadIsHeaviest()) ==> HeadIsHeaviest())
      ensures (forall op :: op in ops ==> op.Import?) && Td(currentHeader) == Td(old(currentHeader)) ==>
                Num(currentHeader) <= Num(old(currentHeader))
      ensures (forall op :: op in ops ==> op.Import?) && old(HeadIsBest()) ==> HeadIsBest()
      ensures old(CanonicalFollowsHead()) && (forall i :: 0 <= i < |ops| ==> OpKeepsFollowing(trace[i], ops[i])) ==>
                CanonicalFollowsHead()
    {
      hide Closed, Marks, IsPath, HeaviestIn, OpStep, OpKeepsFollowing, Contiguous, TdsExact, BestIn;
      trace := [Snapshot()];
      for k := 0 to |ops|
        invariant StoreValid()
        invariant |trace| == k + 1 && trace[0] == old(Snapshot()) && trace[k] == Snapshot()
        invariant forall i :: 0 <= i < k ==> OpStep(trace[i], ops[i], trace[i + 1])
        invariant (forall op :: op in ops ==> op.Import?) ==>
                    Td(currentHeader) >= Td(old(currentHeader)) && (old(HeadIsHeaviest()) ==> HeadIsHeaviest())
        invariant (forall op :: op in ops ==> op.Import?) ==>
                    && (Td(currentHeader) == Td(old(currentHeader)) ==> Num(currentHeader) <= Num(old(currentHeader)))
                    && (old(HeadIsBest()) ==> HeadIsBest())
        invariant old(CanonicalFollowsHead()) && (forall i :: 0 <= i < k ==> OpKeepsFollowing(trace[i], ops[i])) ==>
                    CanonicalFollowsHead()
      {
        assert ops[k] in ops;
        Do(ops[k]);
        trace := trace + [Snapshot()];
      }
    }

    /**
     The ancestor'th ancestor, found by single steps until the canonical chain is met and by one
     jump from there. At most maxNonCanonical steps are made; the unused budget is returned.
     */
    method GetAncestor(hash: Hash, number: nat, ancestor: nat, maxNonCanonical: nat)
      returns (h: Hash, n: nat, budget: nat)
      requires Closed(headers, genesis) && MarksStored(canonical, headers)
      ensures ancestor == 0 ==> h == hash && n == number && budget == maxNonCanonical
      ensures ancestor > 0 && hash != Zero && !(Has(headers, hash, number) && ancestor <= number) ==>
                h == Zero && n == 0
      ensures ancestor == 1 <= number && Has(headers, hash, number) ==> h == hash.block.parent
      ensures 2 <= ancestor <= number && Has(headers, hash, number) ==>
                h == Answer(canonical, hash, ancestor, maxNonCanonical)
      ensures ancestor > 0 && hash != Zero && h != Zero ==> n == number - ancestor && Has(headers, h, n)
      ensures ancestor > 0 && hash == Zero ==>
                (h, n) == if 1 < ancestor <= number && number !in canonical
                          then (ReadCanonical(canonical, number - ancestor), number - ancestor) else (Zero, 0)
      ensures maxNonCanonical - ancestor <= budget <= maxNonCanonical && (ancestor == 1 ==> budget == maxNonCanonical)
      ensures 2 <= ancestor <= number && Has(headers, hash, number) ==>
                Spends(canonical, hash, ancestor, maxNonCanonical, h, budget)
    {
      budget := maxNonCanonical;
      if ancestor > number {
        return Zero, 0, budget;
      }
      ghost var known := Has(headers, hash, number);
      NotStoredZero(headers, genesis, canonical);
      if known {
        ClosedAncestors(headers, genesis, hash, number - ancestor);
        AtFacts(hash, number - ancestor);
      }
      if ancestor == 1 {
        if Has(headers, hash, number) {
          AtStep(hash, number);
          return hash.block.parent, number - 1, budget;
        }
        return Zero, 0, budget;
      }
      h, n := hash, number;
      var left := ancestor;
      while left != 0
        invariant 0 <= left <= ancestor
        invariant hash == Zero ==> left == ancestor
        invariant n == number - (ancestor - left) && budget == maxNonCanonical - (ancestor - left)
        invariant known ==> h == At(hash, n) && Has(headers, h, n)
        invariant !known ==> h == hash && left == ancestor
        invariant forall m: nat {:trigger MeetsAt(canonical, hash, m)} ::
                    n < m <= number ==> !MeetsAt(canonical, hash, m)
        decreases left
      {
        if ReadCanonical(canonical, n) == h {
          if known {
            assert MeetsAt(canonical, hash, n);
          }
          return ReadCanonical(canonical, n - left), n - left, budget;
        }
        if budget == 0 {
          return Zero, 0, budget;
        }
        budget, left := budget - 1, left - 1;
        if !Has(headers, h, n) {
          return Zero, 0, budget;
        }
        ClosedAncestors(headers, genesis, hash, n - 1);
        AtStep(hash, n);
        AtFacts(hash, n - 1);
        h, n := h.block.parent, n - 1;
      }
    }
  }

  /** The target of a rewind after the callback has seen every block it steps onto. */
  ghost function ForcedTarget(updateFn: Hash -> (nat, bool), current: Hash, target: nat): nat
    decreases current
  {
    if current.Zero? || Num(current) <= target then target
    else
      var (newHead, force) := updateFn(current.block.parent);
      ForcedTarget(updateFn, current.block.parent, if force && newHead < target then newHead else target)
  }

  /** A callback that never forces leaves the requested target in place; one that does only lowers it. */
  lemma {:induction false} UnforcedTarget(updateFn: Hash -> (nat, bool), current: Hash, target: nat)
    ensures ForcedTarget(updateFn, current, target) <= target
    ensures (forall h :: !updateFn(h).1) ==> ForcedTarget(updateFn, current, target) == target
    decreases current
  {
    if current.HashOf? && Num(current) > target {
      var (newHead, force) := updateFn(current.block.parent);
      UnforcedTarget(updateFn, current.block.parent, if force && newHead < target then newHead else target);
    }
  }

  ghost predicate ForcedAt(updateFn: Hash -> (nat, bool), current: Hash, n: nat, final: nat) {
    final <= n < Num(current) && updateFn(At(current, n)).1 && updateFn(At(current, n)).0 == final
  }

  /** Every force met on the way is obeyed, and nothing else lowers the target. */
  ghost predicate Obeys(updateFn: Hash -> (nat, bool), current: Hash, target: nat, final: nat) {
    && final <= target
    && (forall n: nat {:trigger At(current, n)} :: final <= n < Num(current) && updateFn(At(current, n)).1 ==>
          final <= updateFn(At(current, n)).0)
    && (final == target || exists n: nat :: ForcedAt(updateFn, current, n, final))
  }

  lemma {:induction false} ForcedObeys(updateFn: Hash -> (nat, bool), current: Hash, target: nat)
    requires WellFormed(current)
    ensures Obeys(updateFn, current, target, ForcedTarget(updateFn, current, target))
    decreases current
  {
    if Num(current) > target {
      var parent := current.block.parent;
      var (newHead, force) := updateFn(parent);
      var next := if force && newHead < target then newHead else target;
      var final := ForcedTarget(updateFn, parent, next);
      ForcedObeys(updateFn, parent, next);
      assert At(current, Num(parent)) == At(parent, Num(parent)) == parent;
      assert forall n: nat {:trigger At(parent, n)} :: n <= Num(parent) ==> At(current, n) == At(parent, n);
      if final != next {
        var n: nat :| ForcedAt(updateFn, parent, n, final);
        assert ForcedAt(updateFn, current, n, final);
      } else if final != target {
        assert ForcedAt(updateFn, current, Num(parent), final);
      }
    }
  }

  /** The batch under construction deletes exactly the heights from n on. */
  ghost predicate Pruned(headers: set<Hash>, tds: map<Hash, nat>, canonical: map<nat, Hash>,
                         headers': set<Hash>, tds': map<Hash, nat>, canonical': map<nat, Hash>, n: nat)
    requires tds.Keys == headers
  {
    && (forall h :: h in headers' <==> h in headers && Num(h) < n)
    && (forall h :: h in tds' <==> h in headers')
    && (forall h :: h in tds' ==> tds'[h] == tds[h])
    && (forall m: nat :: m in canonical' <==> m in canonical && m < n)
    && (forall m: nat :: m in canonical' ==> canonical'[m] == canonical[m])
  }

  /** Deletes one height: the headers and total difficulties of all forks and the canonical assignment. */
  method Prune(ghost headers: set<Hash>, ghost tds: map<Hash, nat>, ghost canonical: map<nat, Hash>,
               headers0: set<Hash>, tds0: map<Hash, nat>, canonical0: map<nat, Hash>, n: nat)
    returns (headers': set<Hash>, tds': map<Hash, nat>, canonical': map<nat, Hash>)
    requires tds.Keys == headers && Pruned(headers, tds, canonical, headers0, tds0, canonical0, n + 1)
    ensures Pruned(headers, tds, canonical, headers', tds', canonical', n)
  {
    headers', tds', canonical' := headers0, tds0, canonical0 - {n};
    var hashes := AllHashes(headers0, n);
    while hashes != {}
      invariant forall h :: h in hashes ==> h in headers && Num(h) == n
      invariant forall h :: h in headers' <==> h in headers && (Num(h) < n || h in hashes)
      invariant forall h :: h in tds' <==> h in headers'
      invariant forall h :: h in tds' ==> tds'[h] == tds[h]
      decreases hashes
    {
      var hash :| hash in hashes;
      headers', tds', hashes := headers' - {hash}, tds' - {hash}, hashes - {hash};
    }
  }

  /** Deletes the heights from the highest one down to the given one. */
  method PruneLeftovers(headers: set<Hash>, tds: map<Hash, nat>, canonical: map<nat, Hash>, from: nat, to: nat)
    returns (headers': set<Hash>, tds': map<Hash, nat>, canonical': map<nat, Hash>)
    requires tds.Keys == headers && from <= to
    requires forall h :: h in headers ==> Num(h) < to
    requires forall n: nat :: n in canonical ==> n < to
    ensures Pruned(headers, tds, canonical, headers', tds', canonical', from)
  {
    headers', tds', canonical' := headers, tds, canonical;
    var num := to;
    while num > from
      invariant from <= num <= to
      invariant Pruned(headers, tds, canonical, headers', tds', canonical', num)
    {
      num := num - 1;
      headers', tds', canonical' := Prune(headers, tds, canonical, headers', tds', canonical', num);
    }
  }

  /** All stored hashes of one height, canonical or not. */
  function AllHashes(headers: set<Hash>, n: nat): set<Hash> {
    set h | h in headers && Num(h) == n
  }

  function HeadersUpTo(headers: set<Hash>, n: nat): set<Hash> {
    set h | h in headers && Num(h) <= n
  }

  ghost function HeadersFrom(headers: set<Hash>, n: nat): set<Hash> {
    set h | h in headers && Num(h) >= n
  }

  /** The heights above the head that still hold headers form one unbroken range. */
  method LeftoverHeights(headers: set<Hash>, from: nat, ghost genesis: Hash) returns (to: nat)
    requires Closed(headers, genesis)
    ensures from <= to
    ensures forall h :: h in headers ==> Num(h) < to
    ensures forall n: nat :: from <= n < to ==> AllHashes(headers, n) != {}
  {
    to := from;
    while AllHashes(headers, to) != {}
      invariant from <= to
      invariant forall n: nat :: from <= n < to ==> AllHashes(headers, n) != {}
      decreases HeadersFrom(headers, to)
    {
      var h :| h in AllHashes(headers, to);
      assert h in HeadersFrom(headers, to) && h !in HeadersFrom(headers, to + 1);
      assert HeadersFrom(headers, to + 1) <= HeadersFrom(headers, to);
      to := to + 1;
    }
    forall h | h in headers
      ensures Num(h) < to
    {
      if Num(h) >= to {
        HeightsBelowAreFilled(headers, genesis, h, to);
      }
    }
  }

  lemma HeightsBelowAreFilled(headers: set<Hash>, genesis: Hash, h: Hash, n: nat)
    requires Closed(headers, genesis) && h in headers && n <= Num(h)
    ensures AllHashes(headers, n) != {}
  {
    ClosedAncestors(headers, genesis, h, n);
    AtFacts(h, n);
    assert At(h, n) in AllHashes(headers, n);
  }

  /** Steps the head back one parent at a time, deleting each height it leaves. */
  method Rewind(ghost headers: set<Hash>, ghost tds: map<Hash, nat>, ghost canonical: map<nat, Hash>,
                headers0: set<Hash>, tds0: map<Hash, nat>, canonical0: map<nat, Hash>,
                top: Hash, head: nat, updateFn: Hash -> (nat, bool))
    returns (current: Hash, target: nat, headers': set<Hash>, tds': map<Hash, nat>, canonical': map<nat, Hash>)
    requires WellFormed(top) && tds.Keys == headers && head < Num(top)
    requires Pruned(headers, tds, canonical, headers0, tds0, canonical0, Num(top) + 1)
    ensures target == ForcedTarget(updateFn, top, head) && target <= head
    ensures current == At(top, target)
    ensures Pruned(headers, tds, canonical, headers', tds', canonical', target + 1)
  {
    current, target, headers', tds', canonical' := top, head, headers0, tds0, canonical0;
    while Num(current) > target
      invariant target <= Num(current) <= Num(top) && target <= head
      invariant current == At(top, Num(current))
      invariant ForcedTarget(updateFn, top, head) == ForcedTarget(updateFn, current, target)
      invariant Pruned(headers, tds, canonical, headers', tds', canonical', Num(current) + 1)
      decreases Num(current)
    {
      var num := Num(current);
      AtStep(top, num);
      AtFacts(top, num - 1);
      var parent := current.block.parent;
      var (newHead, force) := updateFn(parent);
      if force && newHead < target {
        target := newHead;
      }
      current := parent;
      headers', tds', canonical' := Prune(headers, tds, canonical, headers', tds', canonical', num);
    }
  }

  lemma RewoundStore(headers: set<Hash>, tds: map<Hash, nat>, canonical: map<nat, Hash>, headers': set<Hash>,
                     tds': map<Hash, nat>, canonical': map<nat, Hash>, genesis: Hash, top: Hash, target: nat)
    requires Closed(headers, genesis) && TdsExact(tds, headers) && top in headers && MarksStored(canonical, headers)
    requires target <= Num(top) && Pruned(headers, tds, canonical, headers', tds', canonical', target + 1)
    ensures headers' == HeadersUpTo(headers, target)
    ensures Closed(headers', genesis) && TdsExact(tds', headers') && At(top, target) in headers'
    ensures MarksStored(canonical', headers') && (0 in canonical' <==> 0 in canonical)
    ensures canonical' == map n | n in canonical && n <= target :: canonical[n]
    ensures IsPath(canonical, top) ==> IsPath(canonical', At(top, target))
  {
    assert headers' == HeadersUpTo(headers, target);
    ClosedUpTo(headers, genesis, target);
    ClosedAncestors(headers, genesis, top, target);
    AtFacts(top, target);
    if IsPath(canonical, top) {
      RewoundPath(canonical, canonical', top, target);
    }
  }

  lemma RewoundPath(canonical: map<nat, Hash>, canonical': map<nat, Hash>, top: Hash, n: nat)
    requires WellFormed(top) && IsPath(canonical, top) && n <= Num(top)
    requires forall m: nat :: m in canonical' <==> m in canonical && m <= n
    requires forall m: nat :: m in canonical' ==> canonical'[m] == canonical[m]
    ensures IsPath(canonical', At(top, n))
  {
    AtFacts(top, n);
    forall m: nat | m <= n
      ensures canonical'[m] == At(At(top, n), m)
    {
      AtCompose(top, n, m);
    }
  }

  lemma ClosedUpTo(headers: set<Hash>, genesis: Hash, n: nat)
    requires Closed(headers, genesis)
    ensures Closed(HeadersUpTo(headers, n), genesis)
  {
    assert Links(genesis, headers, genesis);
    forall h | h in HeadersUpTo(headers, n)
      ensures Links(h, HeadersUpTo(headers, n), genesis)
    {
      assert Links(h, headers, genesis);
    }
  }

  /** The block and number name a stored header. */
  predicate Has(headers: set<Hash>, hash: Hash, number: nat) {
    hash in headers && Num(hash) == number
  }

  lemma NotStoredZero(headers: set<Hash>, genesis: Hash, canonical: map<nat, Hash>)
    requires Closed(headers, genesis) && MarksStored(canonical, headers)
    ensures Zero !in headers && forall n: nat :: n in canonical ==> canonical[n] != Zero
  {
    assert Zero in headers ==> Links(Zero, headers, genesis);
  }

  /** The chain of h is canonical at a number. */
  predicate MeetsAt(canonical: map<nat, Hash>, h: Hash, n: nat) {
    ReadCanonical(canonical, n) == At(h, n)
  }

  /** Within the budget, the walk from h meets the canonical chain before the ancestor is reached. */
  ghost predicate Jumps(canonical: map<nat, Hash>, h: Hash, ancestor: nat, budget: nat)
    requires ancestor <= Num(h)
  {
    exists n: nat {:trigger MeetsAt(canonical, h, n)} ::
      Num(h) - ancestor < n <= Num(h) <= n + budget && MeetsAt(canonical, h, n)
  }

  /** Steps are spent down to where the canonical chain is met, and no further. */
  ghost predicate Spends(canonical: map<nat, Hash>, h: Hash, ancestor: nat, budget: nat, answer: Hash, left: nat)
    requires ancestor <= Num(h)
  {
    && (forall m: nat {:trigger MeetsAt(canonical, h, m)} :: m <= Num(h) && MeetsAt(canonical, h, m) ==>
          budget - left <= Num(h) - m)
    && (answer != Zero && !Jumps(canonical, h, ancestor, budget) ==> budget - left == ancestor)
  }

  /** What a query for a distant ancestor answers: the canonical entry if the walk can jump, else where it ends. */
  ghost function Answer(canonical: map<nat, Hash>, h: Hash, ancestor: nat, budget: nat): Hash
    requires ancestor <= Num(h)
  {
    if Jumps(canonical, h, ancestor, budget) then ReadCanonical(canonical, Num(h) - ancestor)
    else if ancestor <= budget then At(h, Num(h) - ancestor)
    else Zero
  }

  // When the canonical entries can be trusted.

  predicate LinkedBelow(canonical: map<nat, Hash>, n: nat)
    requires n in canonical
  {
    n == 0 || (n - 1 in canonical && canonical[n].HashOf? && canonical[n].block.parent == canonical[n - 1])
  }

  /** Each entry's parent is the entry below. */
  ghost predicate LinkedMap(canonical: map<nat, Hash>) {
    forall n: nat {:trigger LinkedBelow(canonical, n)} :: n in canonical ==> LinkedBelow(canonical, n)
  }

  lemma PathIsLinked(canonical: map<nat, Hash>, current: Hash)
    requires WellFormed(current) && IsPath(canonical, current)
    ensures LinkedMap(canonical)
  {
    forall n: nat | n in canonical
      ensures LinkedBelow(canonical, n)
    {
      if n > 0 {
        AtStep(current, n);
      }
    }
  }

  /** Down a linked map lie the ancestors of its entries. */
  lemma {:induction false} LinkedWalk(canonical: map<nat, Hash>, headers: set<Hash>, genesis: Hash, n: nat, m: nat)
    requires Closed(headers, genesis) && MarksStored(canonical, headers) && LinkedMap(canonical)
    requires n in canonical && m <= n
    ensures m in canonical && canonical[m] == At(canonical[n], m)
    decreases n
  {
    assert LinkedBelow(canonical, n);
    ClosedWellFormed(headers, genesis, canonical[n]);
    if m < n {
      LinkedWalk(canonical, headers, genesis, n - 1, m);
    }
  }

  /** Walking back from a stored header and jumping along a linked map land on the same ancestor. */
  lemma JumpIsWalk(headers: set<Hash>, genesis: Hash, canonical: map<nat, Hash>, start: Hash, n: nat, m: nat)
    requires Closed(headers, genesis) && MarksStored(canonical, headers) && LinkedMap(canonical) && start in headers
    requires m <= n <= Num(start) && MeetsAt(canonical, start, n)
    ensures MeetsAt(canonical, start, m) && At(start, m).HashOf?
  {
    ClosedAncestors(headers, genesis, start, 0);
    AtFacts(start, n);
    AtFacts(start, m);
    LinkedWalk(canonical, headers, genesis, n, m);
    AtCompose(start, n, m);
  }

  /** On a linked map the answer is the ancestor, and it is given iff the canonical chain is met within the budget. */
  lemma LinkedAnswer(headers: set<Hash>, genesis: Hash, canonical: map<nat, Hash>, h: Hash, ancestor: nat, budget: nat)
    requires Closed(headers, genesis) && MarksStored(canonical, headers) && LinkedMap(canonical) && h in headers
    requires 0 < ancestor <= Num(h)
    ensures var r := Answer(canonical, h, ancestor, budget);
            && (r != Zero <==> ancestor <= budget || MeetsAt(canonical, h, Num(h) - budget))
            && (r != Zero ==> r == Ancestor(h, ancestor) == At(h, Num(h) - ancestor))
  {
    ClosedAncestors(headers, genesis, h, 0);
    AtFacts(h, Num(h) - ancestor);
    AncestorIsAt(h, ancestor);
    if Jumps(canonical, h, ancestor, budget) {
      var n: nat :| Num(h) - ancestor < n <= Num(h) <= n + budget && MeetsAt(canonical, h, n);
      JumpIsWalk(headers, genesis, canonical, h, n, Num(h) - ancestor);
      if budget <= Num(h) {
        JumpIsWalk(headers, genesis, canonical, h, n, Num(h) - budget);
      }
    }
  }

  /** Entries at least two apart are ancestors of each other. */
  ghost predicate FarLinked(canonical: map<nat, Hash>) {
    forall n: nat, m: nat {:trigger canonical[n], canonical[m]} ::
      n in canonical && m in canonical && m + 2 <= n ==> canonical[m] == At(canonical[n], m)
  }

  /** A stored child of the entry at n that is not canonical itself. */
  predicate OffChain(canonical: map<nat, Hash>, headers: set<Hash>, n: nat, c: Hash)
    requires n in canonical
  {
    c in headers && c.HashOf? && c.block.parent == canonical[n] && ReadCanonical(canonical, Num(c)) != c
  }

  /** Neighbouring entries are linked where a header forks off above them. */
  ghost predicate ForksLinked(canonical: map<nat, Hash>, headers: set<Hash>) {
    forall n: nat, c: Hash {:trigger OffChain(canonical, headers, n, c)} ::
      n in canonical && n > 0 && n - 1 in canonical && OffChain(canonical, headers, n, c) ==>
        canonical[n - 1] == At(canonical[n], n - 1)
  }

  /** A linked map has both. */
  lemma LinkedIsTrusted(canonical: map<nat, Hash>, headers: set<Hash>, genesis: Hash)
    requires Closed(headers, genesis) && MarksStored(canonical, headers) && LinkedMap(canonical)
    ensures FarLinked(canonical) && ForksLinked(canonical, headers)
  {
    forall n: nat, m: nat | n in canonical && m < n
      ensures m in canonical && canonical[m] == At(canonical[n], m)
    {
      LinkedWalk(canonical, headers, genesis, n, m);
    }
  }

  ghost predicate RightAnswer(canonical: map<nat, Hash>, h: Hash, ancestor: nat, budget: nat) {
    2 <= ancestor <= Num(h) ==>
      Answer(canonical, h, ancestor, budget) == Zero || Answer(canonical, h, ancestor, budget) == Ancestor(h, ancestor)
  }

  /**
   Queries for distant ancestors are answered rightly, whenever they are answered, exactly if canonical entries at
   least two apart are ancestors of each other, and neighbouring ones wherever a stored header forks off above.
   */
  lemma AnswersRightIff(headers: set<Hash>, genesis: Hash, canonical: map<nat, Hash>)
    requires Closed(headers, genesis) && MarksStored(canonical, headers)
    ensures (forall h, ancestor: nat, budget: nat {:trigger RightAnswer(canonical, h, ancestor, budget)} ::
               h in headers ==> RightAnswer(canonical, h, ancestor, budget)) <==>
            FarLinked(canonical) && ForksLinked(canonical, headers)
  {
    if FarLinked(canonical) && ForksLinked(canonical, headers) {
      forall h, ancestor: nat, budget: nat | h in headers
        ensures RightAnswer(canonical, h, ancestor, budget)
      {
        if 2 <= ancestor <= Num(h) {
          LinkedIsRight(headers, genesis, canonical, h, ancestor, budget);
        }
      }
    }
    if forall h, ancestor: nat, budget: nat {:trigger RightAnswer(canonical, h, ancestor, budget)} ::
         h in headers ==> RightAnswer(canonical, h, ancestor, budget)
    {
      forall n: nat, m: nat | n in canonical && m in canonical && m + 2 <= n
        ensures canonical[m] == At(canonical[n], m)
      {
        RightIsFar(headers, genesis, canonical, n, m);
      }
      forall n: nat, c: Hash | n in canonical && n > 0 && n - 1 in canonical && OffChain(canonical, headers, n, c)
        ensures canonical[n - 1] == At(canonical[n], n - 1)
      {
        RightIsNear(headers, genesis, canonical, n, c);
      }
    }
  }

  /** The highest number at which the walk meets the canonical chain, above which it is off the chain. */
  lemma {:induction false} FirstMeeting(canonical: map<nat, Hash>, h: Hash, n: nat, top: nat) returns (f: nat)
    requires n <= top && MeetsAt(canonical, h, n)
    ensures n <= f <= top && MeetsAt(canonical, h, f)
    ensures forall m: nat {:trigger MeetsAt(canonical, h, m)} :: f < m <= top ==> !MeetsAt(canonical, h, m)
    decreases top - n
  {
    if next: nat :| n < next <= top && MeetsAt(canonical, h, next) {
      f := FirstMeeting(canonical, h, next, top);
    } else {
      f := n;
    }
  }

  lemma LinkedIsRight(headers: set<Hash>, genesis: Hash, canonical: map<nat, Hash>, h: Hash, ancestor: nat, budget: nat)
    requires Closed(headers, genesis) && MarksStored(canonical, headers) && h in headers && 2 <= ancestor <= Num(h)
    requires FarLinked(canonical) && ForksLinked(canonical, headers)
    ensures RightAnswer(canonical, h, ancestor, budget)
  {
    ClosedAncestors(headers, genesis, h, 0);
    AncestorIsAt(h, ancestor);
    var m := Num(h) - ancestor;
    if Jumps(canonical, h, ancestor, budget) && m in canonical {
      var k: nat :| m < k <= Num(h) <= k + budget && MeetsAt(canonical, h, k);
      var n := FirstMeeting(canonical, h, k, Num(h));
      AtFacts(h, n);
      AtCompose(h, n, m);
      assert n in canonical && canonical[n] == At(h, n);
      if m + 1 == n {
        ClosedAncestors(headers, genesis, h, n + 1);
        AtStep(h, n + 1);
        AtFacts(h, n + 1);
        assert !MeetsAt(canonical, h, n + 1);
        assert OffChain(canonical, headers, n, At(h, n + 1));
      }
    }
  }

  lemma RightIsFar(headers: set<Hash>, genesis: Hash, canonical: map<nat, Hash>, n: nat, m: nat)
    requires Closed(headers, genesis) && MarksStored(canonical, headers)
    requires n in canonical && m in canonical && m + 2 <= n
    requires RightAnswer(canonical, canonical[n], n - m, 0)
    ensures canonical[m] == At(canonical[n], m)
  {
    var h := canonical[n];
    NotStoredZero(headers, genesis, canonical);
    ClosedWellFormed(headers, genesis, h);
    AncestorIsAt(h, n - m);
    assert MeetsAt(canonical, h, n);
    assert Jumps(canonical, h, n - m, 0);
  }

  lemma RightIsNear(headers: set<Hash>, genesis: Hash, canonical: map<nat, Hash>, n: nat, c: Hash)
    requires Closed(headers, genesis) && MarksStored(canonical, headers)
    requires n in canonical && n > 0 && n - 1 in canonical && OffChain(canonical, headers, n, c)
    requires RightAnswer(canonical, c, 2, 1)
    ensures canonical[n - 1] == At(canonical[n], n - 1)
  {
    NotStoredZero(headers, genesis, canonical);
    ClosedWellFormed(headers, genesis, c);
    assert Num(c) == n + 1 && At(c, n) == canonical[n] && At(c, n - 1) == At(canonical[n], n - 1);
    AncestorIsAt(c, 2);
    assert MeetsAt(canonical, c, n);
    assert Jumps(canonical, c, 2, 1);
  }

  /** The fork choice and the marker updates that follow the storage of a batch. */
  method AdvanceHead(canonical: map<nat, Hash>, marker: Hash, current: Hash, ghost known: set<Hash>,
                     ghost genesis: Hash, batch: seq<Block>, inserted: seq<Hash>, firstInserted: int, newTd: nat,
                     localTd: nat, coin: bool)
    returns (canonical': map<nat, Hash>, marker': Hash, current': Hash, status: WriteStatus)
    requires Closed(known, genesis) && current in known && Marks(canonical, known)
    requires batch != [] && Contiguous(batch) && batch[0].parent in known
    requires SplitAt(known, batch, |batch|, firstInserted, inserted)
    requires newTd == Td(LastHash(batch)) && localTd == Td(current)
    ensures var last := LastHash(batch);
            var takesOver := TakesOver(newTd, localTd, Num(last), Num(current), coin);
            && current' == (if takesOver then last else current)
            && status == (if AllKnown(known, batch) then NonStat else if takesOver then CanonStat else SideStat)
    ensures Marks(canonical', known + Hashes(batch)) && current' in known + Hashes(batch) && Td(current') >= Td(current)
    ensures HeaviestIn(current, known) ==> HeaviestIn(current', known + Hashes(batch))
    ensures IsPath(canonical, current) ==>
              (IsPath(canonical', current') <==> KeepsFollowing(known, current, batch, coin))
    ensures marker == current && KeepsFollowing(known, current, batch, coin) ==> marker' == current'
  {
    canonical', marker', current', status := canonical, marker, current, SideStat;
    SplitMeansKnown(known, batch, firstInserted, inserted);
    HashesElements(batch, batch[|batch| - 1]);
    MarksGrow(canonical, known, batch);
    if HeaviestIn(current, known) {
      HeaviestAfter(known, genesis, batch, current);
    }
    if TakesOver(newTd, localTd, Num(LastHash(batch)), Num(current), coin) {
      canonical', marker' := MarkCanonical(canonical, marker, known, genesis, current, batch, inserted, firstInserted);
      if IsPath(canonical, current) {
        Followed(canonical, canonical', known, genesis, current, batch, firstInserted, inserted);
      }
      current', status := LastHash(batch), CanonStat;
    }
    if inserted == [] {
      status := NonStat;
    }
  }

  /** Whether the assignment follows the new head, in terms of the batch alone. */
  lemma Followed(canonical: map<nat, Hash>, c: map<nat, Hash>, known: set<Hash>, genesis: Hash, current: Hash,
                 batch: seq<Block>, first: int, inserted: seq<Hash>)
    requires Closed(known, genesis) && current in known && IsPath(canonical, current)
    requires batch != [] && Contiguous(batch) && batch[0].parent in known
    requires SplitAt(known, batch, |batch|, first, inserted) && Td(LastHash(batch)) >= Td(current)
    requires first != -1 ==> (IsPath(c, LastHash(batch)) <==> batch[0].parent == current ==> first == 0)
    requires first == -1 && batch[0].parent == current ==> c == canonical
    requires first == -1 && batch[0].parent != current ==>
               MarkedUpTo(c, batch, 0) && UntouchedFrom(c, canonical, batch[0].number, batch[0].number + |batch|)
    ensures first != -1 ==> LastHash(batch) != current
    ensures IsPath(c, LastHash(batch)) <==>
              || LastHash(batch) == current
              || (!AllKnown(known, batch) && (batch[0].parent == current ==> HashOf(batch[0]) !in known))
  {
    SplitMeansKnown(known, batch, first, inserted);
    if first != -1 {
      assert HashOf(batch[first]) !in known && LastHash(batch) !in known;
    } else if batch[0].parent == current {
      assert LinkedAt(batch, 0);
      ClosedAncestors(known, genesis, current, 0);
      BatchAncestors(batch, 0);
      assert Num(LastHash(batch)) !in canonical;
    } else {
      KnownTakeover(canonical, c, known, genesis, current, batch);
    }
  }

  /**
   Such a takeover is possible: two equally heavy children of the genesis block are imported, and a lucky
   coin when the second one is imported again. The canonical chain then does not follow the head.
   */
  method KnownTakeoverExample() returns (hc: HeaderChain)
    ensures hc.StoreValid() && hc.HeadIsHeaviest() && !IsPath(hc.canonical, hc.currentHeader)
  {
    hide IsPath, HeaviestIn, KeepsFollowing, Closed, Marks;
    var genesis := Block(Zero, 0, 1, 0, [], 0);
    var one, two := Block(HashOf(genesis), 1, 1, 0, [], 1), Block(HashOf(genesis), 1, 1, 0, [], 2);
    assert Contiguous([one]) && Contiguous([two]);
    hc := new HeaderChain(genesis);
    assert one in [one] && two in [two];
    assert !AllKnown(hc.headers, [one]);
    var _ := hc.WriteHeaders([one], false);
    assert Hashes([one]) == {HashOf(one)} && HashOf(two) !in hc.headers;
    assert !AllKnown(hc.headers, [two]) && hc.currentHeader == HashOf(one);
    var _ := hc.WriteHeaders([two], false);
    assert hc.Valid() && hc.currentHeader == HashOf(one);
    TwoSiblings(hc.headers, hc.currentHeader, genesis, one, two);
    var _ := hc.WriteHeaders([two], true);
  }

  lemma TwoSiblings(headers: set<Hash>, current: Hash, genesis: Block, one: Block, two: Block)
    requires HashOf(two) in headers && current == HashOf(one) != HashOf(two)
    requires one.parent == two.parent == HashOf(genesis) && one.difficulty == two.difficulty && one.number == two.number
    ensures !KeepsFollowing(headers, current, [two], true)
  {
    assert Td(HashOf(one)) == Td(HashOf(two));
    assert AllKnown(headers, [two]);
  }

  lemma SplitMeansKnown(known: set<Hash>, batch: seq<Block>, first: int, inserted: seq<Hash>)
    requires batch != [] && SplitAt(known, batch, |batch|, first, inserted)
    ensures first == -1 <==> AllKnown(known, batch)
    ensures first == -1 <==> inserted == []
  {
    if first != -1 {
      assert HashOf(batch[first]) !in known && batch[first] in batch;
    }
  }

  /** After the import, the old head or the last imported header is heaviest. */
  lemma HeaviestAfter(known: set<Hash>, genesis: Hash, batch: seq<Block>, current: Hash)
    requires Closed(known, genesis) && HeaviestIn(current, known)
    requires batch != [] && Contiguous(batch) && batch[0].parent in known
    ensures Td(LastHash(batch)) <= Td(current) ==> HeaviestIn(current, known + Hashes(batch))
    ensures Td(LastHash(batch)) >= Td(current) ==> HeaviestIn(LastHash(batch), known + Hashes(batch))
  {
    HashesElements(batch, batch[|batch| - 1]);
    forall h | h in Hashes(batch)
      ensures Td(h) <= Td(LastHash(batch))
    {
      HashesAreHashes(batch, h);
      HashesElements(batch, h.block);
      var j :| 0 <= j < |batch| && batch[j] == h.block;
      BatchTdGrows(batch, j);
    }
  }

  lemma {:induction false} BatchTdGrows(batch: seq<Block>, j: nat)
    requires Contiguous(batch) && j < |batch|
    ensures Td(HashOf(batch[j])) <= Td(LastHash(batch))
    ensures j < |batch| - 1 ==> Td(HashOf(batch[j])) < Td(LastHash(batch))
    decreases |batch| - j
  {
    if j < |batch| - 1 {
      BatchTdGrows(batch, j + 1);
      assert LinkedAt(batch, j + 1);
      assert Td(HashOf(batch[j + 1])) == batch[j + 1].difficulty + Td(HashOf(batch[j]));
    }
  }

  lemma {:induction false} HashesAreHashes(batch: seq<Block>, h: Hash)
    requires h in Hashes(batch)
    ensures h.HashOf?
  {
    if h != HashOf(batch[|batch| - 1]) {
      HashesAreHashes(batch[..|batch| - 1], h);
    }
  }

  /** A takeover by headers that are all known leaves the markers of the old chain in place. */
  lemma KnownTakeover(canonical: map<nat, Hash>, c: map<nat, Hash>, known: set<Hash>, genesis: Hash, current: Hash,
                      batch: seq<Block>)
    requires Closed(known, genesis) && current in known && IsPath(canonical, current)
    requires batch != [] && Contiguous(batch) && batch[0].parent in known && AllKnown(known, batch)
    requires Td(LastHash(batch)) >= Td(current)
    requires MarkedUpTo(c, batch, 0) && UntouchedFrom(c, canonical, batch[0].number, batch[0].number + |batch|)
    ensures IsPath(c, LastHash(batch)) <==> LastHash(batch) == current
  {
    var last := LastHash(batch);
    ClosedAncestors(known, genesis, current, 0);
    ClosedAncestors(known, genesis, batch[0].parent, 0);
    BatchAncestors(batch, Num(last));
    if last == current {
      forall n: nat | n <= Num(last)
        ensures n in c && c[n] == At(last, n)
      {
        BatchAncestors(batch, n);
      }
    } else {
      if Num(last) < Num(current) && At(current, Num(last)) == last {
        TdStrict(current, Num(last));
      }
      assert Num(last) in c ==> c[Num(last)] == At(current, Num(last)) != last;
    }
  }
}
