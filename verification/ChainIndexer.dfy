/**
 core/chain_indexer.go: the section indexer as a state machine. Head notifications, queries and
 checkpoints take the lock; the worker processes a section without it while the chain database may
 change arbitrarily between any two of its reads.
 */
module Indexer {
  import opened Common
  import opened ChainTree
  import opened Headers
  import Blocks

  /** What one read of the chain database can see. */
  datatype Chain = Chain(canonical: map<nat, Hash>, headers: set<Hash>)

  type Positive = n: nat | n > 0 witness 1

  /** Section counters, the checkpoint and the section heads of the index database. */
  datatype Index = Index(size: Positive, confirms: nat, checkpoint: nat, checkpointHead: Hash,
                         stored: nat, known: nat, cascaded: int, heads: map<nat, Hash>)

  datatype Worker = Idle | Running(section: nat, oldHead: Hash) | Failed

  /** A notification cascaded to the child indexers. */
  datatype Notice = Notice(head: int, reorg: bool)

  /** Exactly k parent links lead from h to prev. */
  predicate Descends(h: Hash, prev: Hash, k: nat)
    decreases k
  {
    if k == 0 then h == prev else h.HashOf? && Descends(h.block.parent, prev, k - 1)
  }

  function SectionHead(ix: Index, s: int): Hash {
    if s >= 0 && s in ix.heads then ix.heads[s] else Zero
  }

  function SetValidSections(ix: Index, n: nat): Index {
    ix.(stored := n, heads := map s | s in ix.heads && !(n <= s < ix.stored) :: ix.heads[s])
  }

  /** Number of the last block of the section before s. */
  function LastBlock(ix: Index, s: nat): int {
    s * ix.size - 1
  }

  function CanonicalAt(canonical: map<nat, Hash>, n: int): Hash {
    if n >= 0 then ReadCanonical(canonical, n) else Zero
  }

  /** Drops stored sections above the checkpoint until the last one is canonical. */
  function VerifyLastHead(ix: Index, canonical: map<nat, Hash>): Index
    decreases ix.stored
  {
    if ix.stored > 0 && ix.stored > ix.checkpoint
       && SectionHead(ix, ix.stored - 1) != CanonicalAt(canonical, LastBlock(ix, ix.stored))
    then VerifyLastHead(SetValidSections(ix, ix.stored - 1), canonical)
    else ix
  }

  /** The section heads from the checkpoint on are chained, each one section above its predecessor. */
  ghost predicate Linked(ix: Index, s: nat) {
    && s in ix.heads
    && Descends(ix.heads[s], SectionHead(ix, s - 1), ix.size)
    && Num(ix.heads[s]) == LastBlock(ix, s + 1)
  }

  ghost predicate Inv(ix: Index) {
    && (forall s: nat :: s in ix.heads ==> s < ix.stored && ix.heads[s] != Zero)
    && (forall s: nat :: ix.checkpoint - 1 <= s < ix.stored ==> s in ix.heads)
    && (forall s: nat :: ix.checkpoint <= s < ix.stored ==> Linked(ix, s))
    && (ix.stored > 0 ==> ix.stored - 1 in ix.heads)
  }

  lemma SetValidKeeps(ix: Index, n: nat)
    requires Inv(ix) && (n == 0 || (n <= ix.stored && n - 1 in ix.heads))
    ensures Inv(SetValidSections(ix, n))
  {
    var ix' := SetValidSections(ix, n);
    forall s: nat | ix'.checkpoint <= s < ix'.stored
      ensures Linked(ix', s)
    {
      assert Linked(ix, s);
    }
  }

  lemma {:induction false} VerifyKeeps(ix: Index, canonical: map<nat, Hash>)
    requires Inv(ix)
    ensures Inv(VerifyLastHead(ix, canonical))
    ensures VerifyLastHead(ix, canonical).checkpoint == ix.checkpoint && VerifyLastHead(ix, canonical).size == ix.size
    ensures VerifyLastHead(ix, canonical).stored <= ix.stored
    decreases ix.stored
  {
    if ix.stored > 0 && ix.stored > ix.checkpoint
       && SectionHead(ix, ix.stored - 1) != CanonicalAt(canonical, LastBlock(ix, ix.stored)) {
      SetValidKeeps(ix, ix.stored - 1);
      VerifyKeeps(SetValidSections(ix, ix.stored - 1), canonical);
    }
  }

  /** The effect of a head notification: the new index, the notice for the children, and whether the worker is woken. */
  function NewHead(ix: Index, canonical: map<nat, Hash>, head: nat, reorg: bool): (Index, Option<Notice>, bool) {
    if reorg then
      var sections := (head + 1) / ix.size;
      var known := if sections < ix.checkpoint then 0 else sections;
      var stored := if sections < ix.checkpoint then ix.checkpoint else sections;
      var ix1 := if known < ix.known then ix.(known := known) else ix;
      var ix2 := if stored < ix1.stored then SetValidSections(ix1, stored) else ix1;
      if known * ix.size < ix2.cascaded then
        (ix2.(cascaded := known * ix.size), Some(Notice(known * ix.size, true)), false)
      else (ix2, None, false)
    else if head < ix.confirms then (ix, None, false)
    else
      var complete := (head + 1 - ix.confirms) / ix.size;
      var sections := if complete < ix.checkpoint then 0 else complete;
      if sections <= ix.known then (ix, None, false)
      else if ix.known < ix.checkpoint && CanonicalAt(canonical, LastBlock(ix, ix.checkpoint)) != ix.checkpointHead then
        (ix, None, false)
      else (ix.(known := sections), None, true)
  }

  // What a notification means, in numbers of blocks.

  /** Exactly the first s sections end so far below the head that the confirmations lie on top. */
  ghost predicate Confirmed(ix: Index, head: nat, s: nat) {
    s * ix.size + ix.confirms <= head + 1 < (s + 1) * ix.size + ix.confirms
  }

  /** Exactly the first s sections end at or below the head. */
  ghost predicate EndsBy(ix: Index, head: nat, s: nat) {
    s * ix.size <= head + 1 < (s + 1) * ix.size
  }

  /** The checkpoint has been reached and its block is the canonical one, or it had been reached before. */
  ghost predicate Reaches(ix: Index, canonical: map<nat, Hash>, s: nat) {
    && s >= ix.checkpoint
    && (ix.known < ix.checkpoint ==> CanonicalAt(canonical, ix.checkpoint * ix.size - 1) == ix.checkpointHead)
  }

  /** A head without a reorganisation: only the known count may grow, to the confirmed one, and wakes the worker. */
  ghost predicate Announces(ix: Index, canonical: map<nat, Hash>, head: nat, ix': Index, notice: Option<Notice>,
                            wake: bool) {
    && ix' == ix.(known := ix'.known) && notice == None && ix'.known >= ix.known && (wake <==> ix'.known > ix.known)
    && (ix'.known > ix.known ==> Confirmed(ix, head, ix'.known) && Reaches(ix, canonical, ix'.known))
    && (forall s: nat :: s > ix.known && Confirmed(ix, head, s) && Reaches(ix, canonical, s) ==> ix'.known == s)
  }

  /** A reorganisation: the counts are cut to the sections that end by its head, but not below the checkpoint. */
  ghost predicate RollsBack(ix: Index, head: nat, ix': Index, notice: Option<Notice>, wake: bool) {
    && !wake && ix' == ix.(stored := ix'.stored, known := ix'.known, cascaded := ix'.cascaded, heads := ix'.heads)
    && (exists s: nat :: EndsBy(ix, head, s)
                         && ix'.stored == Lesser(ix.stored, if s < ix.checkpoint then ix.checkpoint else s)
                         && ix'.known == Lesser(ix.known, if s < ix.checkpoint then 0 else s)
                         && ix'.cascaded == Lesser(ix.cascaded, (if s < ix.checkpoint then 0 else s) * ix.size))
    && (forall s: nat :: s in ix'.heads <==> s in ix.heads && !(ix'.stored <= s < ix.stored))
    && (forall s: nat :: s in ix'.heads ==> ix'.heads[s] == ix.heads[s])
    && notice == if ix'.cascaded < ix.cascaded then Some(Notice(ix'.cascaded, true)) else None
  }

  function Lesser(a: int, b: int): int {
    if a <= b then a else b
  }

  lemma DivEnds(n: nat, size: Positive, s: nat)
    ensures s == n / size <==> s * size <= n < (s + 1) * size
  {
    var q := n / size;
    assert q * size <= n < (q + 1) * size;
    if s < q {
      SectionsApart(s + 1, q, size);
    } else if q < s {
      SectionsApart(q + 1, s, size);
    }
  }

  lemma SectionsApart(s: nat, t: nat, size: Positive)
    requires s <= t
    ensures s * size <= t * size
  {
  }

  lemma NewHeadMeans(ix: Index, canonical: map<nat, Hash>, head: nat, reorg: bool)
    ensures var (ix', notice, wake) := NewHead(ix, canonical, head, reorg);
            if reorg then RollsBack(ix, head, ix', notice, wake)
            else Announces(ix, canonical, head, ix', notice, wake)
  {
    if reorg {
      var sections: nat := (head + 1) / ix.size;
      DivEnds(head + 1, ix.size, sections);
      assert EndsBy(ix, head, sections);
    } else {
      ConfirmedIs(ix, head);
    }
  }

  lemma ConfirmedIs(ix: Index, head: nat)
    ensures forall s: nat :: Confirmed(ix, head, s) <==>
                               head + 1 >= ix.confirms && s == (head + 1 - ix.confirms) / ix.size
  {
    forall s: nat
      ensures Confirmed(ix, head, s) <==> head + 1 >= ix.confirms && s == (head + 1 - ix.confirms) / ix.size
    {
      if head + 1 >= ix.confirms {
        DivEnds(head + 1 - ix.confirms, ix.size, s);
      }
    }
  }

  /** The check of the last section drops exactly the sections above the checkpoint that end off the chain. */
  lemma {:induction false} VerifyDrops(ix: Index, canonical: map<nat, Hash>)
    ensures Verified(ix, canonical, VerifyLastHead(ix, canonical))
    decreases ix.stored
  {
    hide Verified;
    if ix.stored == 0 || !OffSection(ix, canonical, ix.stored - 1) {
      VerifiedSame(ix, canonical);
    } else {
      VerifyDrops(SetValidSections(ix, ix.stored - 1), canonical);
      VerifiedStep(ix, canonical, VerifyLastHead(ix, canonical));
    }
  }

  lemma VerifiedSame(ix: Index, canonical: map<nat, Hash>)
    requires ix.stored > 0 ==> !OffSection(ix, canonical, ix.stored - 1)
    ensures Verified(ix, canonical, ix)
  {
  }

  lemma VerifiedStep(ix: Index, canonical: map<nat, Hash>, ix': Index)
    requires ix.stored > 0 && OffSection(ix, canonical, ix.stored - 1)
    requires Verified(SetValidSections(ix, ix.stored - 1), canonical, ix')
    ensures Verified(ix, canonical, ix')
  {
    hide CanonicalAt;
    var next := SetValidSections(ix, ix.stored - 1);
    forall s: nat | s < ix.stored - 1
      ensures OffSection(next, canonical, s) <==> OffSection(ix, canonical, s)
    {
    }
  }

  ghost predicate OffSection(ix: Index, canonical: map<nat, Hash>, s: nat) {
    s >= ix.checkpoint && SectionHead(ix, s) != CanonicalAt(canonical, (s + 1) * ix.size - 1)
  }

  /** Only section heads off the chain are dropped, from the top down to the first that is on it. */
  ghost predicate Verified(ix: Index, canonical: map<nat, Hash>, ix': Index) {
    && ix' == ix.(stored := ix'.stored, heads := ix'.heads) && ix'.stored <= ix.stored
    && (forall s: nat {:trigger OffSection(ix, canonical, s)} :: ix'.stored <= s < ix.stored ==>
          OffSection(ix, canonical, s))
    && (ix'.stored > 0 ==> !OffSection(ix, canonical, ix'.stored - 1))
    && (forall s: nat :: s in ix'.heads <==> s in ix.heads && !(ix'.stored <= s < ix.stored))
    && (forall s: nat :: s in ix'.heads ==> ix'.heads[s] == ix.heads[s])
  }

  function AddCheckpoint(ix: Index, section: nat, head: Hash): Index {
    if ix.checkpoint >= section + 1 || section < ix.stored then ix
    else SetValidSections(ix.(checkpoint := section + 1, checkpointHead := head, heads := ix.heads[section := head]),
                          section + 1)
  }

  /** A checkpoint above the stored sections and any earlier one covers all up to it; another changes nothing. */
  ghost predicate Checkpoints(ix: Index, section: nat, head: Hash, ix': Index) {
    if section < ix.stored || section < ix.checkpoint then ix' == ix
    else
      && ix'.stored == ix'.checkpoint == section + 1 && SectionHead(ix', section) == ix'.checkpointHead == head
      && ix'.known == ix.known && ix'.cascaded == ix.cascaded
      && forall s: nat :: s != section ==> SectionHead(ix', s) == SectionHead(ix, s)
  }

  lemma CheckpointMeans(ix: Index, section: nat, head: Hash)
    ensures Checkpoints(ix, section, head, AddCheckpoint(ix, section, head))
  {
  }

  /**
   Processing a section header by header. Each read may see another state of the database:
   read 2k is that of the canonical hash, read 2k + 1 that of the header.
   */
  function ProcessFrom(size: nat, first: nat, last: Hash, seen: nat -> Chain, k: nat): Option<Hash>
    requires k <= size
    decreases size - k
  {
    if k == size then Some(last)
    else
      var hash := ReadCanonical(seen(2 * k).canonical, first + k);
      if hash == Zero || !Has(seen(2 * k + 1).headers, hash, first + k) || hash.block.parent != last then None
      else ProcessFrom(size, first, hash, seen, k + 1)
  }

  /** However the chain changed meanwhile, a processed section descends from the head it started at. */
  lemma {:induction false} ProcessDescends(size: nat, first: nat, start: Hash, last: Hash, seen: nat -> Chain, k: nat)
    requires k <= size && Descends(last, start, k) && ProcessFrom(size, first, last, seen, k).Some?
    requires k > 0 ==> last != Zero && Num(last) == first + k - 1
    ensures var h := ProcessFrom(size, first, last, seen, k).value;
            Descends(h, start, size) && (size > 0 ==> h != Zero && Num(h) == first + size - 1)
    decreases size - k
  {
    if k < size {
      var hash := ReadCanonical(seen(2 * k).canonical, first + k);
      ProcessDescends(size, first, start, hash, seen, k + 1);
    }
  }

  /** The locked end of an update: the section is recorded unless it failed or its base was reorganised away. */
  function Finish(ix: Index, canonical: map<nat, Hash>, section: nat, oldHead: Hash, result: Option<Hash>): Index {
    if result.Some? && (section == 0 || oldHead == SectionHead(ix, section - 1)) then
      var ix' := SetValidSections(ix.(heads := ix.heads[section := result.value]), section + 1);
      ix'.(cascaded := LastBlock(ix', ix'.stored))
    else
      var ix' := VerifyLastHead(ix, canonical);
      ix'.(known := ix'.stored)
  }

  /** A section that was not recorded is not tried again before the next notification. */
  lemma FinishMeans(ix: Index, canonical: map<nat, Hash>, section: nat, oldHead: Hash, result: Option<Hash>)
    ensures var ix' := Finish(ix, canonical, section, oldHead, result);
            if result.Some? && (section == 0 || SectionHead(ix, section - 1) == oldHead) then
              && ix'.stored == section + 1 && SectionHead(ix', section) == result.value && ix'.known == ix.known
              && ix'.cascaded == (section + 1) * ix.size - 1
              && (forall s: nat :: s < section ==> SectionHead(ix', s) == SectionHead(ix, s))
            else ix'.known == ix'.stored && Verified(ix, canonical, ix'.(known := ix.known))
  {
    VerifyDrops(ix, canonical);
  }

  datatype World = World(ix: Index, worker: Worker, chain: Chain)

  datatype Event =
    | ChainChanges(chain: Chain)
    | HeadNotified(head: nat, reorg: bool)
    | SectionsQueried
    | CheckpointAdded(section: nat, sectionHead: Hash)
    | UpdateStarted
    | BackendResetFailed
    | UpdateFinished(seen: nat -> Chain, backendOk: bool)

  function Step(w: World, ev: Event): World {
    match ev
    case ChainChanges(chain) => w.(chain := chain)
    case HeadNotified(head, reorg) => w.(ix := NewHead(w.ix, w.chain.canonical, head, reorg).0)
    case SectionsQueried => w.(ix := VerifyLastHead(w.ix, w.chain.canonical))
    case CheckpointAdded(section, head) => w.(ix := AddCheckpoint(w.ix, section, head))
    case UpdateStarted =>
      if w.worker.Idle? && w.ix.known > w.ix.stored then
        var ix := VerifyLastHead(w.ix, w.chain.canonical);
        w.(ix := ix, worker := Running(ix.stored, SectionHead(ix, ix.stored - 1)))
      else w
    case BackendResetFailed =>
      if w.worker.Running? then w.(ix := SetValidSections(w.ix, 0), worker := Failed) else w
    case UpdateFinished(seen, backendOk) =>
      match w.worker
      case Idle => w
      case Failed => World(Finish(w.ix, w.chain.canonical, 0, Zero, None), Idle, w.chain)
      case Running(section, oldHead) =>
        var result := if backendOk then ProcessFrom(w.ix.size, section * w.ix.size, oldHead, seen, 0) else None;
        World(Finish(w.ix, w.chain.canonical, section, oldHead, result), Idle, w.chain)
  }

  ghost predicate WorldInv(w: World) {
    Inv(w.ix) && (w.worker.Running? ==> (w.worker.oldHead == Zero <==> w.worker.section == 0))
  }

  /** Checkpoints name real blocks. */
  predicate Sane(ev: Event) {
    ev.CheckpointAdded? ==> ev.sectionHead != Zero
  }

  lemma NewHeadKeeps(ix: Index, canonical: map<nat, Hash>, head: nat, reorg: bool)
    requires Inv(ix)
    ensures Inv(NewHead(ix, canonical, head, reorg).0)
  {
    if reorg {
      var sections := (head + 1) / ix.size;
      var known := if sections < ix.checkpoint then 0 else sections;
      var stored := if sections < ix.checkpoint then ix.checkpoint else sections;
      var ix1 := if known < ix.known then ix.(known := known) else ix;
      SameLinks(ix, ix1);
      if stored < ix1.stored {
        SetValidKeeps(ix1, stored);
        SameLinks(SetValidSections(ix1, stored), NewHead(ix, canonical, head, reorg).0);
      } else {
        SameLinks(ix1, NewHead(ix, canonical, head, reorg).0);
      }
    } else {
      SameLinks(ix, NewHead(ix, canonical, head, reorg).0);
    }
  }

  /** The known and cascaded counters do not matter to the invariant. */
  lemma SameLinks(ix: Index, ix': Index)
    requires Inv(ix) && ix' == ix.(known := ix'.known, cascaded := ix'.cascaded)
    ensures Inv(ix')
  {
    forall s: nat | ix'.checkpoint <= s < ix'.stored
      ensures Linked(ix', s)
    {
      assert Linked(ix, s);
    }
  }

  lemma FinishKeeps(ix: Index, canonical: map<nat, Hash>, section: nat, oldHead: Hash, result: Option<Hash>)
    requires Inv(ix) && (oldHead == Zero <==> section == 0)
    requires result.Some? ==> && result.value != Zero && Descends(result.value, oldHead, ix.size)
                              && Num(result.value) == LastBlock(ix, section + 1)
    ensures Inv(Finish(ix, canonical, section, oldHead, result))
  {
    if result.Some? && (section == 0 || oldHead == SectionHead(ix, section - 1)) {
      var ix' := Finish(ix, canonical, section, oldHead, result);
      forall s: nat | ix'.checkpoint <= s < ix'.stored
        ensures Linked(ix', s)
      {
        if s < section {
          assert Linked(ix, s);
        }
      }
    } else {
      VerifyKeeps(ix, canonical);
      var ix' := VerifyLastHead(ix, canonical);
      SameLinks(ix', ix'.(known := ix'.stored));
    }
  }

  lemma StepKeeps(w: World, ev: Event)
    requires WorldInv(w) && Sane(ev)
    ensures WorldInv(Step(w, ev))
  {
    match ev
    case ChainChanges(_) =>
    case HeadNotified(head, reorg) => NewHeadKeeps(w.ix, w.chain.canonical, head, reorg);
    case SectionsQueried => VerifyKeeps(w.ix, w.chain.canonical);
    case CheckpointAdded(section, head) => CheckpointKeeps(w.ix, section, head);
    case UpdateStarted => VerifyKeeps(w.ix, w.chain.canonical);
    case BackendResetFailed => SetValidKeeps(w.ix, 0);
    case UpdateFinished(seen, backendOk) =>
      match w.worker
      case Idle =>
      case Failed => FinishKeeps(w.ix, w.chain.canonical, 0, Zero, None);
      case Running(section, oldHead) =>
        var result := if backendOk then ProcessFrom(w.ix.size, section * w.ix.size, oldHead, seen, 0) else None;
        if result.Some? {
          ProcessDescends(w.ix.size, section * w.ix.size, oldHead, oldHead, seen, 0);
          SectionSpan(section, w.ix.size);
        }
        FinishKeeps(w.ix, w.chain.canonical, section, oldHead, result);
  }

  lemma SectionSpan(s: nat, size: nat)
    ensures s * size + size == (s + 1) * size
  {
  }

  lemma CheckpointKeeps(ix: Index, section: nat, head: Hash)
    requires Inv(ix) && head != Zero
    ensures Inv(AddCheckpoint(ix, section, head))
  {
  }

  function Run(w: World, evs: seq<Event>): World
    decreases |evs|
  {
    if evs == [] then w else Run(Step(w, evs[0]), evs[1..])
  }

  /** The chaining of the section heads survives every interleaving. */
  lemma {:induction false} RunKeeps(w: World, evs: seq<Event>)
    requires WorldInv(w) && forall i :: 0 <= i < |evs| ==> Sane(evs[i])
    ensures WorldInv(Run(w, evs))
    decreases |evs|
  {
    if evs != [] {
      StepKeeps(w, evs[0]);
      RunKeeps(Step(w, evs[0]), evs[1..]);
    }
  }

  lemma {:induction false} DescendsIsAncestor(h: Hash, prev: Hash, k: nat)
    requires Descends(h, prev, k)
    ensures Ancestor(h, k) == prev
    decreases k
  {
    if k > 0 {
      DescendsIsAncestor(h.block.parent, prev, k - 1);
    }
  }

  lemma {:induction false} VerifyEnds(ix: Index, canonical: map<nat, Hash>)
    ensures var ix' := VerifyLastHead(ix, canonical);
            ix'.stored > ix'.checkpoint ==>
              SectionHead(ix', ix'.stored - 1) == CanonicalAt(canonical, LastBlock(ix', ix'.stored))
    decreases ix.stored
  {
    if ix.stored > 0 && ix.stored > ix.checkpoint
       && SectionHead(ix, ix.stored - 1) != CanonicalAt(canonical, LastBlock(ix, ix.stored)) {
      VerifyEnds(SetValidSections(ix, ix.stored - 1), canonical);
    }
  }

  lemma {:induction false} AncestorTwice(h: Hash, k: nat, l: nat)
    ensures Ancestor(Ancestor(h, k), l) == Ancestor(h, k + l)
    decreases k
  {
    if k > 0 && h.HashOf? {
      AncestorTwice(h.block.parent, k - 1, l);
    }
  }

  /** How many blocks lie between the end of a section and the last stored one. */
  function Distance(ix: Index, s: nat): nat
    requires s < ix.stored
  {
    (ix.stored - 1 - s) * ix.size
  }

  /** Every stored section head from the checkpoint's own on is an ancestor of the last one. */
  lemma {:induction false} HeadIsAncestor(ix: Index, s: nat)
    requires Inv(ix) && ix.checkpoint - 1 <= s < ix.stored
    ensures SectionHead(ix, s) == Ancestor(SectionHead(ix, ix.stored - 1), Distance(ix, s)) != Zero
    decreases ix.stored - s
  {
    if s < ix.stored - 1 {
      HeadIsAncestor(ix, s + 1);
      assert Linked(ix, s + 1);
      DescendsIsAncestor(ix.heads[s + 1], ix.heads[s], ix.size);
      SectionSpan(ix.stored - 2 - s, ix.size);
      AncestorTwice(SectionHead(ix, ix.stored - 1), Distance(ix, s + 1), ix.size);
    }
  }

  /** Every stored section head from the checkpoint's own on is the canonical block of its number. */
  ghost predicate HeadsOnChain(ix: Index, canonical: map<nat, Hash>) {
    forall s: nat {:trigger SectionHead(ix, s)} :: ix.checkpoint - 1 <= s < ix.stored ==>
      SectionHead(ix, s) == CanonicalAt(canonical, LastBlock(ix, s + 1)) != Zero
  }

  /** The canonical entry at the end of a section is an ancestor of the one at the end of the last section. */
  ghost predicate EndLinked(ix: Index, canonical: map<nat, Hash>, s: nat)
    requires s < ix.stored
  {
    CanonicalAt(canonical, LastBlock(ix, s + 1)) ==
    Ancestor(CanonicalAt(canonical, LastBlock(ix, ix.stored)), Distance(ix, s))
  }

  ghost predicate EndsLinked(ix: Index, canonical: map<nat, Hash>) {
    forall s: nat {:trigger EndLinked(ix, canonical, s)} :: ix.checkpoint - 1 <= s < ix.stored ==>
      EndLinked(ix, canonical, s)
  }

  lemma VerifiedOnChain(ix: Index, canonical: map<nat, Hash>)
    requires Inv(ix)
    ensures var ix' := VerifyLastHead(ix, canonical);
            ix'.stored > ix'.checkpoint ==> (HeadsOnChain(ix', canonical) <==> EndsLinked(ix', canonical))
  {
    VerifyKeeps(ix, canonical);
    VerifyEnds(ix, canonical);
    var ix' := VerifyLastHead(ix, canonical);
    if ix'.stored > ix'.checkpoint {
      forall s: nat | ix'.checkpoint - 1 <= s < ix'.stored
        ensures EndLinked(ix', canonical, s) <==>
                SectionHead(ix', s) == CanonicalAt(canonical, LastBlock(ix', s + 1)) != Zero
      {
        HeadIsAncestor(ix', s);
      }
    }
  }

  /** A parent-closed store whose canonical entries are stored and linked. */
  ghost predicate LinkedChain(chain: Chain, genesis: Hash) {
    Closed(chain.headers, genesis) && MarksStored(chain.canonical, chain.headers) && LinkedMap(chain.canonical)
  }

  /** A linked canonical map is linked at the section ends. */
  lemma LinkedEnds(ix: Index, canonical: map<nat, Hash>, headers: set<Hash>, genesis: Hash)
    requires Closed(headers, genesis) && MarksStored(canonical, headers) && LinkedMap(canonical)
    requires ix.stored > 0 && CanonicalAt(canonical, LastBlock(ix, ix.stored)) != Zero
    ensures EndsLinked(ix, canonical)
  {
    SectionAtLeast(ix.stored - 1, ix.size);
    var n: nat := LastBlock(ix, ix.stored);
    forall s: nat | s < ix.stored
      ensures EndLinked(ix, canonical, s)
    {
      SectionAtLeast(s, ix.size);
      EndDistance(ix, s);
      LinkedWalk(canonical, headers, genesis, n, LastBlock(ix, s + 1));
      ClosedWellFormed(headers, genesis, canonical[n]);
      AncestorIsAt(canonical[n], Distance(ix, s));
    }
  }

  lemma EndDistance(ix: Index, s: nat)
    requires s < ix.stored
    ensures LastBlock(ix, s + 1) + Distance(ix, s) == LastBlock(ix, ix.stored)
  {
    calc {
      (s + 1) * ix.size + (ix.stored - 1 - s) * ix.size;
      ((s + 1) + (ix.stored - 1 - s)) * ix.size;
      ix.stored * ix.size;
    }
  }

  lemma SectionAtLeast(s: nat, size: Positive)
    ensures (s + 1) * size >= size
  {
  }

  /**
   Whatever happened before, when a query reports more sections than the checkpoint covers, every reported section head
   from the checkpoint's own on is canonical exactly if the canonical entries at the section ends are ancestors of the
   last of them. On a linked canonical map they always are.
   */
  lemma SectionsAreCanonical(w: World, evs: seq<Event>, genesis: Hash)
    requires WorldInv(w) && forall i :: 0 <= i < |evs| ==> Sane(evs[i])
    ensures var w' := Step(Run(w, evs), SectionsQueried);
            w'.ix.stored > w'.ix.checkpoint ==>
              && (HeadsOnChain(w'.ix, w'.chain.canonical) <==> EndsLinked(w'.ix, w'.chain.canonical))
              && (LinkedChain(w'.chain, genesis) ==> HeadsOnChain(w'.ix, w'.chain.canonical))
  {
    RunKeeps(w, evs);
    var r := Run(w, evs);
    VerifiedOnChain(r.ix, r.chain.canonical);
    var w' := Step(r, SectionsQueried);
    if w'.ix.stored > w'.ix.checkpoint && LinkedChain(w'.chain, genesis) {
      VerifyKeeps(r.ix, r.chain.canonical);
      VerifyEnds(r.ix, r.chain.canonical);
      HeadIsAncestor(w'.ix, w'.ix.stored - 1);
      LinkedEnds(w'.ix, w'.chain.canonical, w'.chain.headers, genesis);
    }
  }

  // The index catches up with a chain that stands still.

  /** The last stored section ends on the chain, and every known section can be read. */
  ghost predicate Ready(w: World, genesis: Hash) {
    && w.worker.Idle? && LinkedChain(w.chain, genesis)
    && (forall n: nat :: n < w.ix.known * w.ix.size ==> n in w.chain.canonical)
    && (w.ix.stored > 0 ==> StoredOnChain(w.ix, w.chain.canonical, w.ix.stored - 1))
  }

  ghost predicate StoredOnChain(ix: Index, canonical: map<nat, Hash>, s: nat) {
    SectionHead(ix, s) == CanonicalAt(canonical, (s + 1) * ix.size - 1)
  }

  /** On an unchanging linked chain a section is processed to its last canonical block. */
  lemma {:induction false} ProcessCompletes(size: nat, first: nat, last: Hash, chain: Chain, genesis: Hash, k: nat)
    requires k <= size && LinkedChain(chain, genesis)
    requires forall n: nat :: n < first + size ==> n in chain.canonical
    requires last == CanonicalAt(chain.canonical, first + k - 1)
    ensures ProcessFrom(size, first, last, (_: nat) => chain, k) == Some(CanonicalAt(chain.canonical, first + size - 1))
    decreases size - k
  {
    if k < size {
      var n := first + k;
      assert LinkedBelow(chain.canonical, n);
      NotStoredZero(chain.headers, genesis, chain.canonical);
      assert Links(chain.canonical[n], chain.headers, genesis);
      ProcessCompletes(size, first, chain.canonical[n], chain, genesis, k + 1);
    }
  }

  /** Two steps of the worker. */
  function Round(chain: Chain): seq<Event> {
    [UpdateStarted, UpdateFinished((_: nat) => chain, true)]
  }

  function Rounds(chain: Chain, n: nat): seq<Event> {
    if n == 0 then [] else Round(chain) + Rounds(chain, n - 1)
  }

  lemma RoundIs(w: World)
    ensures Run(w, Round(w.chain)) == Step(Step(w, UpdateStarted), UpdateFinished((_: nat) => w.chain, true))
  {
    var evs := Round(w.chain);
    assert evs[1..] == [evs[1]] && evs[1..][1..] == [];
  }

  lemma {:induction false} RunAppends(w: World, evs: seq<Event>, more: seq<Event>)
    ensures Run(w, evs + more) == Run(Run(w, evs), more)
    decreases |evs|
  {
    if evs == [] {
      assert evs + more == more;
    } else {
      RunAppends(Step(w, evs[0]), evs[1..], more);
      assert (evs + more)[1..] == evs[1..] + more;
    }
  }

  /** A round of a worker that is behind stores the next section, with its canonical head. */
  lemma RoundStores(w: World, genesis: Hash)
    requires Ready(w, genesis) && w.ix.stored < w.ix.known
    ensures var w' := Run(w, Round(w.chain));
            && Ready(w', genesis) && w'.chain == w.chain
            && w'.ix == w.ix.(stored := w.ix.stored + 1, heads := w'.ix.heads, cascaded := w'.ix.cascaded)
            && w'.ix.cascaded == (w.ix.stored + 1) * w.ix.size - 1
            && (forall s: nat :: s < w.ix.stored ==> SectionHead(w'.ix, s) == SectionHead(w.ix, s))
            && StoredOnChain(w'.ix, w.chain.canonical, w.ix.stored)
  {
    hide ProcessFrom, Finish, LinkedChain, CanonicalAt, VerifyLastHead;
    RoundIs(w);
    var ix, chain := w.ix, w.chain;
    var s := ix.stored;
    var head := SectionHead(ix, s - 1);
    VerifyPasses(ix, chain.canonical);
    SectionSpan(s, ix.size);
    SectionsApart(s + 1, ix.known, ix.size);
    var result := CanonicalAt(chain.canonical, (s + 1) * ix.size - 1);
    assert ProcessFrom(ix.size, s * ix.size, head, (_: nat) => chain, 0) == Some(result) by {
      HeadAt(ix, chain.canonical);
      ProcessCompletes(ix.size, s * ix.size, head, chain, genesis, 0);
    }
    FinishStores(ix, chain.canonical, result);
  }

  lemma HeadAt(ix: Index, canonical: map<nat, Hash>)
    requires ix.stored > 0 ==> StoredOnChain(ix, canonical, ix.stored - 1)
    ensures SectionHead(ix, ix.stored - 1) == CanonicalAt(canonical, ix.stored * ix.size - 1)
  {
  }

  lemma VerifyPasses(ix: Index, canonical: map<nat, Hash>)
    requires ix.stored > 0 ==> StoredOnChain(ix, canonical, ix.stored - 1)
    ensures VerifyLastHead(ix, canonical) == ix
  {
  }

  /** Recording the section that follows the stored ones. */
  lemma FinishStores(ix: Index, canonical: map<nat, Hash>, result: Hash)
    ensures var ix' := Finish(ix, canonical, ix.stored, SectionHead(ix, ix.stored - 1), Some(result));
            && ix' == ix.(stored := ix.stored + 1, heads := ix'.heads, cascaded := (ix.stored + 1) * ix.size - 1)
            && (forall s: nat :: s < ix.stored ==> SectionHead(ix', s) == SectionHead(ix, s))
            && SectionHead(ix', ix.stored) == result
  {
  }

  /** Over a chain that stands still, the worker stores all known sections with their canonical heads. */
  lemma {:induction false} CatchesUp(w: World, genesis: Hash)
    requires Ready(w, genesis) && w.ix.stored <= w.ix.known
    ensures var w' := Run(w, Rounds(w.chain, w.ix.known - w.ix.stored));
            && w'.ix.stored == w'.ix.known == w.ix.known && w'.worker.Idle? && w'.ix.size == w.ix.size
            && (forall s: nat :: s < w.ix.stored ==> SectionHead(w'.ix, s) == SectionHead(w.ix, s))
            && (forall s: nat {:trigger StoredOnChain(w'.ix, w.chain.canonical, s)} :: w.ix.stored <= s < w.ix.known ==>
                  StoredOnChain(w'.ix, w.chain.canonical, s))
    decreases w.ix.known - w.ix.stored
  {
    hide Ready, Round, Step;
    if w.ix.stored == w.ix.known {
      ReadyIdle(w, genesis);
    } else {
      RoundStores(w, genesis);
      var w1 := Run(w, Round(w.chain));
      var rest := w.ix.known - w.ix.stored - 1;
      RunAppends(w, Round(w.chain), Rounds(w.chain, rest));
      CatchesUp(w1, genesis);
    }
  }

  lemma ReadyIdle(w: World, genesis: Hash)
    requires Ready(w, genesis)
    ensures w.worker.Idle?
  {
  }

  /**
   After a takeover that leaves entries above the head, an index of the old chain passes the check of its last section
   although an earlier section head is not canonical any more.
   */
  method StaleSectionsExample() returns (bc: Blocks.BlockChain, ghost ix: Index)
    ensures bc.Valid() && Inv(ix) && ix.stored > ix.checkpoint
    ensures VerifyLastHead(ix, bc.canonical) == ix && !HeadsOnChain(ix, bc.canonical)
  {
    var three, heavy;
    bc, three, heavy := Blocks.Overtaken();
    ix := OldIndex(bc.genesis, three);
    StaleSection(bc.canonical, bc.genesis, three, heavy, ix);
  }

  /** The index of a chain of height 3 in sections of one block. */
  ghost function OldIndex(genesis: Hash, three: Hash): Index
    requires Blocks.IsHeight3(genesis, three)
  {
    var two := three.block.parent;
    Index(1, 0, 0, Zero, 4, 4, 3, map[0 := genesis, 1 := two.block.parent, 2 := two, 3 := three])
  }

  lemma StaleSection(canonical: map<nat, Hash>, genesis: Hash, three: Hash, heavy: Hash, ix: Index)
    requires Blocks.IsHeight3(genesis, three) && genesis.block.parent == Zero && ix == OldIndex(genesis, three)
    requires 1 in canonical && canonical[1] == heavy && 3 in canonical && canonical[3] == three && heavy != At(three, 1)
    ensures Inv(ix) && VerifyLastHead(ix, canonical) == ix && !HeadsOnChain(ix, canonical)
  {
    var two := three.block.parent;
    var one := two.block.parent;
    forall s: nat | s < 4
      ensures Linked(ix, s)
    {
      assert Descends(ix.heads[s].block.parent, SectionHead(ix, s - 1), 0);
    }
    assert At(three, 1) == At(two, 1) == one;
    assert SectionHead(ix, 1) != CanonicalAt(canonical, LastBlock(ix, 2));
  }

  /** A fresh indexer satisfies the invariant. */
  lemma FreshInv(size: Positive, confirms: nat, chain: Chain)
    ensures WorldInv(World(Index(size, confirms, 0, Zero, 0, 0, 0, map[]), Idle, chain))
  {
  }

  class ChainIndexer {
    const size: Positive
    const confirms: nat
    var checkpoint: nat
    var checkpointHead: Hash
    var stored: nat
    var known: nat
    var cascaded: int
    var heads: map<nat, Hash>

    ghost function State(): Index
      reads this
    {
      Index(size, confirms, checkpoint, checkpointHead, stored, known, cascaded, heads)
    }

    constructor (size: Positive, confirms: nat)
      ensures State() == Index(size, confirms, 0, Zero, 0, 0, 0, map[])
    {
      this.size, this.confirms := size, confirms;
      checkpoint, checkpointHead, stored, known, cascaded, heads := 0, Zero, 0, 0, 0, map[];
    }

    method SetValid(sections: nat)
      modifies `stored, `heads
      ensures State() == SetValidSections(old(State()), sections)
    {
      while stored > sections
        invariant stored <= old(stored) && (stored >= sections || stored == old(stored))
        invariant heads == map s | s in old(heads) && !(stored <= s < old(stored)) :: old(heads)[s]
        decreases stored
      {
        stored := stored - 1;
        heads := heads - {stored};
      }
      stored := sections;
    }

    method VerifyLast(canonical: map<nat, Hash>)
      modifies `stored, `heads
      ensures State() == VerifyLastHead(old(State()), canonical)
    {
      while stored > 0 && stored > checkpoint
        invariant VerifyLastHead(State(), canonical) == VerifyLastHead(old(State()), canonical)
        decreases stored
      {
        var head := if stored - 1 in heads then heads[stored - 1] else Zero;
        if head == CanonicalAt(canonical, stored * size - 1) {
          return;
        }
        SetValid(stored - 1);
      }
    }

    method Notify(canonical: map<nat, Hash>, head: nat, reorg: bool) returns (notice: Option<Notice>, wake: bool)
      modifies this
      ensures (State(), notice, wake) == NewHead(old(State()), canonical, head, reorg)
      ensures reorg ==> RollsBack(old(State()), head, State(), notice, wake)
      ensures !reorg ==> Announces(old(State()), canonical, head, State(), notice, wake)
    {
      hide RollsBack, Announces;
      NewHeadMeans(State(), canonical, head, reorg);
      notice, wake := None, false;
      if reorg {
        var knownSections := (head + 1) / size;
        var storedSections := knownSections;
        if knownSections < checkpoint {
          knownSections, storedSections := 0, checkpoint;
        }
        if knownSections < known {
          known := knownSections;
        }
        if storedSections < stored {
          SetValid(storedSections);
        }
        if knownSections * size < cascaded {
          cascaded := knownSections * size;
          notice := Some(Notice(cascaded, true));
        }
        return;
      }
      if head >= confirms {
        var sections := (head + 1 - confirms) / size;
        if sections < checkpoint {
          sections := 0;
        }
        if sections > known {
          if known < checkpoint && CanonicalAt(canonical, checkpoint * size - 1) != checkpointHead {
            return;
          }
          known := sections;
          wake := true;
        }
      }
    }

    method Checkpoint(section: nat, head: Hash)
      modifies this
      ensures State() == AddCheckpoint(old(State()), section, head) && Checkpoints(old(State()), section, head, State())
    {
      hide Checkpoints;
      CheckpointMeans(State(), section, head);
      if checkpoint >= section + 1 || section < stored {
        return;
      }
      checkpoint, checkpointHead := section + 1, head;
      heads := heads[section := head];
      SetValid(section + 1);
    }

    /**
     The stored section count, the last block it covers and its head, after rolling back stale sections. With no
     section stored the last block wraps around to the largest machine word.
     */
    method Sections(canonical: map<nat, Hash>) returns (count: nat, lastBlock: nat, head: Hash)
      modifies `stored, `heads
      ensures State() == VerifyLastHead(old(State()), canonical) && Verified(old(State()), canonical, State())
      ensures count == stored && lastBlock == Wrap(LastBlock(State(), stored))
      ensures head == SectionHead(State(), stored - 1)
    {
      hide Verified;
      VerifyDrops(State(), canonical);
      VerifyLast(canonical);
      count, lastBlock := stored, Wrap(stored * size - 1);
      head := if stored > 0 && stored - 1 in heads then heads[stored - 1] else Zero;
    }

    /** Takes the lock, picks the section to process and releases the lock again. */
    method Start(canonical: map<nat, Hash>) returns (worker: Worker)
      modifies `stored, `heads
      ensures old(known > stored) ==>
                State() == VerifyLastHead(old(State()), canonical)
                    && worker == Running(stored, SectionHead(State(), stored - 1))
      ensures old(known <= stored) ==> State() == old(State()) && worker == Idle
    {
      worker := Idle;
      if known > stored {
        VerifyLast(canonical);
        worker := Running(stored, if stored > 0 && stored - 1 in heads then heads[stored - 1] else Zero);
      }
    }

    /** Processes one section without the lock. */
    method ProcessSection(section: nat, oldHead: Hash, seen: nat -> Chain) returns (result: Option<Hash>)
      ensures result == ProcessFrom(size, section * size, oldHead, seen, 0)
    {
      var last := oldHead;
      var k := 0;
      while k < size
        invariant 0 <= k <= size
        invariant ProcessFrom(size, section * size, last, seen, k) ==
                  ProcessFrom(size, section * size, oldHead, seen, 0)
      {
        var number := section * size + k;
        var hash := ReadCanonical(seen(2 * k).canonical, number);
        if hash == Zero {
          return None;
        }
        if !Has(seen(2 * k + 1).headers, hash, number) {
          return None;
        } else if hash.block.parent != last {
          return None;
        }
        last, k := hash, k + 1;
      }
      return Some(last);
    }

    /** Takes the lock again and records or discards the processed section. */
    method Complete(canonical: map<nat, Hash>, section: nat, oldHead: Hash, result: Option<Hash>)
      returns (notice: Option<Notice>)
      modifies this
      ensures State() == Finish(old(State()), canonical, section, oldHead, result)
      ensures notice.Some? <==> result.Some? && (section == 0 || oldHead == SectionHead(old(State()), section - 1))
      ensures notice.Some? ==> notice == Some(Notice(cascaded, false))
    {
      if result.Some? && (section == 0 || oldHead == (if section - 1 in heads then heads[section - 1] else Zero)) {
        heads := heads[section := result.value];
        SetValid(section + 1);
        cascaded := stored * size - 1;
        notice := Some(Notice(cascaded, false));
      } else {
        VerifyLast(canonical);
        known := stored;
        notice := None;
      }
    }
  }
}
