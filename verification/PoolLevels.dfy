/**
 The fairness rule of the pending lists (core/tx_pool.go, truncatePending) as water filling: every account
 that is not local keeps its lowest transactions up to one common level.
 */
module PoolLevels {
  import opened Common
  import opened ChainTree
  import opened TxItems
  import opened PoolAccount
  import opened PoolBook

  ghost function SumUp(keys: set<Address>, f: Address -> nat): nat {
    if keys == {} then 0
    else
      var a :| a in keys;
      f(a) + SumUp(keys - {a}, f)
  }

  lemma {:induction false} SumRemove(keys: set<Address>, f: Address -> nat, a: Address)
    requires a in keys
    ensures SumUp(keys, f) == f(a) + SumUp(keys - {a}, f)
    decreases |keys|
  {
    var c :| c in keys && SumUp(keys, f) == f(c) + SumUp(keys - {c}, f);
    if c != a {
      SumRemove(keys - {c}, f, a);
      SumRemove(keys - {a}, f, c);
      assert keys - {c} - {a} == keys - {a} - {c};
    }
  }

  lemma {:induction false} SumMonotone(keys: set<Address>, f: Address -> nat, g: Address -> nat)
    requires forall a :: a in keys ==> f(a) <= g(a)
    ensures SumUp(keys, f) <= SumUp(keys, g)
    decreases |keys|
  {
    if keys != {} {
      var a :| a in keys;
      SumRemove(keys, f, a);
      SumRemove(keys, g, a);
      SumMonotone(keys - {a}, f, g);
    }
  }

  lemma SumSame(keys: set<Address>, f: Address -> nat, g: Address -> nat)
    requires forall a :: a in keys ==> f(a) == g(a)
    ensures SumUp(keys, f) == SumUp(keys, g)
  {
    SumMonotone(keys, f, g);
    SumMonotone(keys, g, f);
  }

  function SizeOf(m: Lists): Address -> nat {
    a => |ListOf(m, a)|
  }

  /** How many transactions the lists hold together. */
  ghost function Count(m: Lists): nat {
    SumUp(m.Keys, SizeOf(m))
  }

  function LevelSize(m: Lists, locals: set<Address>, level: nat): Address -> nat {
    a => if a in locals then |ListOf(m, a)| else Min(|ListOf(m, a)|, level)
  }

  /** How many there would be if every account that is not local kept at most level of them. */
  ghost function LevelTotal(m: Lists, locals: set<Address>, level: nat): nat {
    SumUp(m.Keys, LevelSize(m, locals, level))
  }

  lemma LevelMonotone(m: Lists, locals: set<Address>, lo: nat, hi: nat)
    requires lo <= hi
    ensures LevelTotal(m, locals, lo) <= LevelTotal(m, locals, hi)
  {
    SumMonotone(m.Keys, LevelSize(m, locals, lo), LevelSize(m, locals, hi));
  }

  /** Drops the highest transactions until no more than level are left. */
  ghost function CapAccount(x: Account, level: nat): Account
    decreases |x.pending|
  {
    if |x.pending| <= level then x else CapAccount(DropHighest(x), level)
  }

  lemma {:induction false} CapFacts(x: Account, level: nat)
    ensures CapAccount(x, level).pending == Lowest(x.pending, level) && CapAccount(x, level).queue == x.queue
    ensures |CapAccount(x, level).pending| == Min(|x.pending|, level)
    decreases |x.pending|
  {
    if |x.pending| > level {
      CapFacts(DropHighest(x), level);
    }
  }

  /** Capping one lower drops one more. */
  lemma {:induction false} CapStep(x: Account, level: nat)
    requires |x.pending| > level
    ensures CapAccount(x, level) == DropHighest(CapAccount(x, level + 1))
    decreases |x.pending|
  {
    if |x.pending| > level + 1 {
      CapStep(DropHighest(x), level);
    }
  }

  ghost function LevelAccount(b: Book, a: Address, level: nat): Account
    requires Complete(b)
  {
    if a in b.locals then Get(b, a) else CapAccount(Get(b, a), level)
  }

  ghost predicate LevelAt(b0: Book, b: Book, done: set<Address>, level: nat, a: Address)
    requires Complete(b0) && Complete(b) && level > 0
  {
    Get(b, a) == LevelAccount(b0, a, if a in done then level - 1 else level)
  }

  /** Some accounts have been cut to one below the level, all others to the level. */
  ghost predicate Levelling(b0: Book, b: Book, done: set<Address>, level: nat)
    requires Complete(b0) && level > 0
  {
    && SameWorld(b0, b) && Complete(b) && SoundBook(b)
    && forall a: Address {:trigger LevelAt(b0, b, done, level, a)} :: LevelAt(b0, b, done, level, a)
  }

  /** Every account that is not local has been cut to the level. */
  ghost predicate Levelled(b0: Book, b: Book, level: nat)
    requires Complete(b0) && level > 0
  {
    Levelling(b0, b, {}, level)
  }

  /** No account that is not local holds more than the level. */
  ghost predicate AllWithin(b: Book, level: nat)
    requires Complete(b)
  {
    forall a: Address :: a !in b.locals ==> |Get(b, a).pending| <= level
  }

  lemma AlreadyLevel(b: Book, level: nat)
    requires SoundBook(b) && level > 0 && AllWithin(b, level)
    ensures Levelled(b, b, level)
  {
    forall a: Address
      ensures LevelAt(b, b, {}, level, a)
    {
      assert a !in b.locals ==> |Get(b, a).pending| <= level;
    }
  }

  lemma LevelStep(b0: Book, b: Book, done: set<Address>, level: nat, a: Address)
    requires SoundBook(b0) && level > 1 && Levelling(b0, b, done, level) && a !in done && a !in b0.locals
    requires |Get(b, a).pending| == level && SoundBook(Put(b, a, DropHighest(Get(b, a))))
    ensures Levelling(b0, Put(b, a, DropHighest(Get(b, a))), done + {a}, level)
  {
    var c := Put(b, a, DropHighest(Get(b, a)));
    assert LevelAt(b0, b, done, level, a);
    CapFacts(Get(b0, a), level);
    CapStep(Get(b0, a), level - 1);
    forall d: Address
      ensures LevelAt(b0, c, done + {a}, level, d)
    {
      assert LevelAt(b0, b, done, level, d);
      GetPut(b, a, DropHighest(Get(b, a)), d);
    }
  }

  /** A round is over when all accounts at the level have had their turn. */
  lemma LevelRound(b0: Book, b: Book, done: set<Address>, level: nat)
    requires Complete(b0) && level > 1 && Levelling(b0, b, done, level) && done !! b0.locals
    requires forall a: Address :: a !in b0.locals && |Get(b0, a).pending| >= level ==> a in done
    ensures Levelled(b0, b, level - 1)
  {
    var lower: nat := level - 1;
    forall a: Address
      ensures LevelAt(b0, b, {}, lower, a)
    {
      assert LevelAt(b0, b, done, level, a);
      if a !in done && a !in b0.locals {
        assert |Get(b0, a).pending| < level;
      }
    }
  }

  lemma LevelSizes(b0: Book, b: Book, level: nat, a: Address)
    requires Complete(b0) && level > 0 && Levelled(b0, b, level)
    ensures |Get(b, a).pending| == LevelSize(b0.pending, b0.locals, level)(a)
  {
    assert LevelAt(b0, b, {}, level, a);
    if a !in b0.locals {
      CapFacts(Get(b0, a), level);
    }
  }

  /** Cutting to a positive level empties no list. */
  lemma LevelKeys(b0: Book, b: Book, level: nat)
    requires SoundBook(b0) && level > 0 && Levelled(b0, b, level)
    ensures b.pending.Keys == b0.pending.Keys
  {
    forall a: Address
      ensures a in b.pending <==> a in b0.pending
    {
      LevelSizes(b0, b, level, a);
      assert Filled(b.pending, a) && Filled(b0.pending, a);
    }
  }

  /** What a levelled pool holds. */
  lemma LevelCounts(b0: Book, b: Book, level: nat)
    requires SoundBook(b0) && level > 0 && Levelled(b0, b, level)
    ensures b.pending.Keys == b0.pending.Keys && Count(b.pending) == LevelTotal(b0.pending, b0.locals, level)
  {
    LevelKeys(b0, b, level);
    forall a: Address | a in b.pending
      ensures SizeOf(b.pending)(a) == LevelSize(b0.pending, b0.locals, level)(a)
    {
      LevelSizes(b0, b, level, a);
    }
    SumSame(b.pending.Keys, SizeOf(b.pending), LevelSize(b0.pending, b0.locals, level));
  }

  lemma DropSize(x: Account)
    requires x.pending != map[]
    ensures |DropHighest(x).pending| == |x.pending| - 1
    ensures |x.pending| >= 2 ==> DropHighest(x).pending != map[]
  {
    var g := GreatestKey(x.pending);
    assert (x.pending - {g}).Keys == x.pending.Keys - {g};
  }

  /** One transaction less in one list of at least two. */
  lemma CountDrop(b: Book, a: Address)
    requires SoundBook(b) && |Get(b, a).pending| >= 2
    ensures Count(Put(b, a, DropHighest(Get(b, a))).pending) == Count(b.pending) - 1
  {
    var x := Get(b, a);
    DropSize(x);
    CountSet(b.pending, a, DropHighest(x).pending);
  }

  lemma CountsOne(m: Lists, a: Address)
    requires a in m
    ensures |m[a]| <= Count(m)
  {
    SumRemove(m.Keys, SizeOf(m), a);
  }

  lemma CountSet(m: Lists, a: Address, l: Items)
    requires a in m
    ensures Count(m[a := l]) == Count(m) - |m[a]| + |l|
  {
    var m' := m[a := l];
    assert m'.Keys == m.Keys;
    SumRemove(m.Keys, SizeOf(m), a);
    SumRemove(m.Keys, SizeOf(m'), a);
    SumSame(m.Keys - {a}, SizeOf(m), SizeOf(m'));
  }

  /**
   The outcome of the truncation of a pool over the limit: the level is the largest whose total fits the
   limit, or the guaranteed allowance if none does.
   */
  ghost predicate WaterLevel(b0: Book, b: Book, level: nat, accountSlots: nat, globalSlots: nat)
    requires Complete(b0)
  {
    && 0 < accountSlots <= level && Levelled(b0, b, level)
    && (LevelTotal(b0.pending, b0.locals, level) <= globalSlots || level == accountSlots)
    && NoneFitsAbove(b0, level, globalSlots)
  }

  /** There is only one such level. */
  lemma WaterLevelUnique(b0: Book, b: Book, c: Book, level: nat, other: nat, accountSlots: nat, globalSlots: nat)
    requires Complete(b0) && Count(b0.pending) > globalSlots
    requires WaterLevel(b0, b, level, accountSlots, globalSlots) && WaterLevel(b0, c, other, accountSlots, globalSlots)
    ensures level == other
  {
  }

  /** The accounts that may be cut: not local and over the allowance. */
  predicate Spams(pending: Lists, locals: set<Address>, accountSlots: nat, a: Address) {
    a in pending && a !in locals && |pending[a]| > accountSlots
  }

  /** The spammers met so far are the offenders; those not met yet are no larger than the level. */
  ghost predicate Met(b0: Book, offenders: seq<Address>, spammers: set<Address>, level: nat, accountSlots: nat) {
    && (forall a :: Spams(b0.pending, b0.locals, accountSlots, a) <==> a in offenders || a in spammers)
    && (forall a :: a in spammers ==> a !in offenders && |ListOf(b0.pending, a)| <= level)
    && (offenders == [] && spammers == {} ==> level == accountSlots)
    && (offenders == [] && spammers != {} ==> exists a :: a in spammers && |ListOf(b0.pending, a)| == level)
  }

  /** The state of the gradual reduction. */
  ghost predicate Meeting(b0: Book, b: Book, offenders: seq<Address>, spammers: set<Address>, level: nat,
                          accountSlots: nat, globalSlots: nat)
    requires Complete(b0)
  {
    && 0 < accountSlots <= level && Levelled(b0, b, level) && NoneFitsAbove(b0, level, globalSlots)
    && Met(b0, offenders, spammers, level, accountSlots)
    && (Count(b.pending) > globalSlots ==> Cuttable(b0, offenders, level))
  }

  /** Accounts that can be cut once more below the level. */
  ghost predicate Cuttable(b0: Book, targets: seq<Address>, level: nat)
    requires Complete(b0)
  {
    && (forall a :: a in targets ==> a !in b0.locals && |Get(b0, a).pending| >= level)
    && (forall i, j :: 0 <= i < j < |targets| ==> targets[i] != targets[j])
  }

  lemma NextCut(b0: Book, b: Book, targets: seq<Address>, i: nat, level: nat)
    requires SoundBook(b0) && level > 1 && Cuttable(b0, targets, level) && i < |targets|
    requires Levelling(b0, b, Taken(targets, i), level)
    ensures targets[i] in b.pending && |Get(b, targets[i]).pending| == level && targets[i] !in Taken(targets, i)
    ensures Taken(targets, i + 1) == Taken(targets, i) + {targets[i]}
  {
    var a := targets[i];
    TakenStep(targets, i);
    assert a in targets;
    assert LevelAt(b0, b, Taken(targets, i), level, a);
    CapFacts(Get(b0, a), level);
  }

  lemma TakenStep(targets: seq<Address>, i: nat)
    requires i < |targets| && forall i, j :: 0 <= i < j < |targets| ==> targets[i] != targets[j]
    ensures targets[i] !in Taken(targets, i) && Taken(targets, i + 1) == Taken(targets, i) + {targets[i]}
  {
  }

  ghost function Taken(targets: seq<Address>, i: nat): set<Address>
    requires i <= |targets|
  {
    set k | 0 <= k < i :: targets[k]
  }

  /** No higher level fits the limit. */
  ghost predicate NoneFitsAbove(b0: Book, level: nat, globalSlots: nat) {
    forall higher: nat :: higher > level ==> LevelTotal(b0.pending, b0.locals, higher) > globalSlots
  }

  /** All accounts over the floor are among the targets. */
  ghost predicate Reaches(b0: Book, targets: seq<Address>, floor: nat)
    requires Complete(b0)
  {
    forall a: Address :: a !in b0.locals && |Get(b0, a).pending| > floor ==> a in targets
  }

  /** The targets are being brought down towards the floor. */
  ghost predicate Lowering(b0: Book, b: Book, targets: seq<Address>, floor: nat, level: nat, globalSlots: nat)
    requires Complete(b0)
  {
    && 0 < floor <= level && Levelled(b0, b, level) && Cuttable(b0, targets, level)
    && Reaches(b0, targets, floor) && NoneFitsAbove(b0, level, globalSlots)
  }

  lemma LoweringStep(b0: Book, b: Book, c: Book, targets: seq<Address>, floor: nat, level: nat, globalSlots: nat)
    requires SoundBook(b0) && Lowering(b0, b, targets, floor, level, globalSlots) && level > floor
    requires Count(b.pending) > globalSlots && Levelling(b0, c, Taken(targets, |targets|), level)
    ensures Lowering(b0, c, targets, floor, level - 1, globalSlots)
  {
    hide Levelling, LevelTotal, Count;
    LevelCounts(b0, b, level);
    RoundDone(b0, c, targets, level);
  }

  /** The targets all hold as many as the level. */
  lemma LoweringSize(b0: Book, b: Book, targets: seq<Address>, floor: nat, level: nat, globalSlots: nat, a: Address)
    requires Complete(b0) && Lowering(b0, b, targets, floor, level, globalSlots) && a in targets
    ensures |ListOf(b.pending, a)| == level
  {
    LevelSizes(b0, b, level, a);
  }

  lemma RoundDone(b0: Book, b: Book, targets: seq<Address>, level: nat)
    requires Complete(b0) && level > 1 && Cuttable(b0, targets, level)
             && Levelling(b0, b, Taken(targets, |targets|), level)
    requires Reaches(b0, targets, level - 1)
    ensures Levelled(b0, b, level - 1)
  {
    var done := Taken(targets, |targets|);
    forall a | a in targets
      ensures a in done
    {
      var k :| 0 <= k < |targets| && targets[k] == a;
    }
    LevelRound(b0, b, done, level);
  }

  lemma {:induction false} LargestExists(m: Lists, keys: set<Address>) returns (a: Address)
    requires keys != {}
    ensures a in keys && forall c :: c in keys ==> |ListOf(m, c)| <= |ListOf(m, a)|
    decreases |keys|
  {
    a :| a in keys;
    if keys != {a} {
      var c := LargestExists(m, keys - {a});
      a := if |ListOf(m, c)| > |ListOf(m, a)| then c else a;
    }
  }

  /** Before the first spammer is met the level is that of the largest. */
  lemma MeetingStarts(b: Book, spammers: set<Address>, accountSlots: nat, globalSlots: nat) returns (level: nat)
    requires SoundBook(b) && accountSlots > 0 && Count(b.pending) > globalSlots
    requires forall a :: Spams(b.pending, b.locals, accountSlots, a) <==> a in spammers
    ensures Meeting(b, b, [], spammers, level, accountSlots, globalSlots)
  {
    level := accountSlots;
    if spammers != {} {
      var a := LargestExists(b.pending, spammers);
      level := |ListOf(b.pending, a)|;
    }
    forall a: Address | a !in b.locals
      ensures |Get(b, a).pending| <= level
    {
      assert Spams(b.pending, b.locals, accountSlots, a) || |ListOf(b.pending, a)| <= accountSlots;
    }
    AlreadyLevel(b, level);
    LevelCounts(b, b, level);
    forall higher: nat | higher > level
      ensures LevelTotal(b.pending, b.locals, higher) > globalSlots
    {
      LevelMonotone(b.pending, b.locals, level, higher);
    }
  }

  /** The first spammer met is at the level. */
  lemma MeetFirst(b0: Book, b: Book, spammers: set<Address>, level: nat, accountSlots: nat, globalSlots: nat,
                  a: Address)
    requires Complete(b0) && Meeting(b0, b, [], spammers, level, accountSlots, globalSlots)
    requires a in spammers && forall c :: c in spammers ==> |ListOf(b0.pending, c)| <= |ListOf(b0.pending, a)|
    ensures Meeting(b0, b, [a], spammers - {a}, level, accountSlots, globalSlots)
  {
    assert Spams(b0.pending, b0.locals, accountSlots, a);
  }

  /** The next spammer is not above the level, and all larger ones are offenders. */
  lemma MeetNext(b0: Book, b: Book, offenders: seq<Address>, spammers: set<Address>, level: nat,
                 accountSlots: nat, globalSlots: nat, a: Address)
    requires Complete(b0) && Meeting(b0, b, offenders, spammers, level, accountSlots, globalSlots)
    requires Count(b.pending) > globalSlots && a in spammers
    requires forall c :: c in spammers ==> |ListOf(b0.pending, c)| <= |ListOf(b0.pending, a)|
    ensures accountSlots < |ListOf(b0.pending, a)| <= level
    ensures Lowering(b0, b, offenders, |ListOf(b0.pending, a)|, level, globalSlots)
  {
    assert Spams(b0.pending, b0.locals, accountSlots, a);
    var floor := |ListOf(b0.pending, a)|;
    forall c: Address | c !in b0.locals && |Get(b0, c).pending| > floor
      ensures c in offenders
    {
      assert Spams(b0.pending, b0.locals, accountSlots, c);
    }
  }

  /** Spammers not yet met have kept all their transactions. */
  lemma SpammersUntouched(b0: Book, b: Book, offenders: seq<Address>, spammers: set<Address>, level: nat,
                          accountSlots: nat, globalSlots: nat)
    requires SoundBook(b0) && Meeting(b0, b, offenders, spammers, level, accountSlots, globalSlots)
    ensures forall a :: a in spammers ==> a in b.pending && a in b0.pending && |b.pending[a]| == |b0.pending[a]|
  {
    LevelCounts(b0, b, level);
    forall a | a in spammers
      ensures a in b.pending && a in b0.pending && |b.pending[a]| == |b0.pending[a]|
    {
      assert Spams(b0.pending, b0.locals, accountSlots, a);
      LevelSizes(b0, b, level, a);
    }
  }

  lemma MeetingStep(b0: Book, b: Book, offenders: seq<Address>, spammers: set<Address>, level0: nat, level: nat,
                    accountSlots: nat, globalSlots: nat, a: Address)
    requires Complete(b0) && offenders != [] && Met(b0, offenders, spammers, level0, accountSlots) && a in spammers
    requires 0 < accountSlots < |ListOf(b0.pending, a)|
    requires forall c :: c in spammers ==> |ListOf(b0.pending, c)| <= |ListOf(b0.pending, a)|
    requires Lowering(b0, b, offenders, |ListOf(b0.pending, a)|, level, globalSlots)
    requires Count(b.pending) <= globalSlots || level == |ListOf(b0.pending, a)|
    ensures Meeting(b0, b, offenders + [a], spammers - {a}, level, accountSlots, globalSlots)
  {
    assert Spams(b0.pending, b0.locals, accountSlots, a);
  }

  lemma MeetingEnds(b0: Book, b: Book, offenders: seq<Address>, spammers: set<Address>, level: nat,
                    accountSlots: nat, globalSlots: nat)
    requires SoundBook(b0) && Meeting(b0, b, offenders, spammers, level, accountSlots, globalSlots)
    ensures Count(b.pending) <= globalSlots || (offenders == [] && spammers == {}) ==>
              WaterLevel(b0, b, level, accountSlots, globalSlots)
    ensures Count(b.pending) > globalSlots && spammers == {} ==>
              Lowering(b0, b, offenders, accountSlots, level, globalSlots)
  {
    LevelCounts(b0, b, level);
    if spammers == {} {
      forall c: Address | c !in b0.locals && |Get(b0, c).pending| > accountSlots
        ensures c in offenders
      {
        assert Spams(b0.pending, b0.locals, accountSlots, c);
      }
    }
  }

  lemma LoweringEnds(b0: Book, b: Book, offenders: seq<Address>, level: nat, accountSlots: nat, globalSlots: nat)
    requires SoundBook(b0) && Lowering(b0, b, offenders, accountSlots, level, globalSlots)
    requires Count(b.pending) <= globalSlots || level == accountSlots
    ensures WaterLevel(b0, b, level, accountSlots, globalSlots)
  {
    LevelCounts(b0, b, level);
  }

  lemma {:induction false} CapTrimmed(x: Account, nonce: nat, f: Tx -> bool, top: nat, level: nat)
    requires level > 0 && Trimmed(x, nonce, f, top)
    ensures IsTrimmed(CapAccount(x, level), nonce, f)
    ensures Abreast(CapAccount(x, level), nonce) <==> Abreast(x, nonce)
    decreases |x.pending|
  {
    if |x.pending| > level {
      if top <= nonce + 1 {
        assert x.pending.Keys <= {nonce};
        SubsetOfOne(x.pending.Keys, nonce);
      }
      DropTrimmed(x, nonce, f, top);
      assert GreatestKey(x.pending) in x.pending;
      CapTrimmed(DropHighest(x), nonce, f, top - 1, level);
    }
  }

  // Truncation can cut a gap away.

  lemma {:induction false} SpanSize(m: Items, lo: nat, hi: nat)
    requires Spans(m, lo, hi) && lo <= hi
    ensures |m| == hi - lo
    decreases hi - lo
  {
    if lo == hi {
      assert m.Keys == {};
    } else {
      assert hi - 1 in m;
      SpanSize(m - {hi - 1}, lo, hi - 1);
    }
  }

  /** Dropping the highest transaction leaves the gap, or the run below it if that was all above. */
  lemma DropGapped(x: Account, nonce: nat, f: Tx -> bool, top: nat, lo: nat)
    requires Gapped(x, nonce, f, top, lo)
    ensures var g := GreatestKey(x.pending);
            if g > lo then Gapped(DropHighest(x), nonce, f, top, lo)
            else Trimmed(DropHighest(x), nonce, f, top) && |x.pending| == top - nonce + 1
  {
    var g := GreatestKey(x.pending);
    assert g >= lo;
    if g == lo {
      assert Spans(x.pending - {lo}, nonce, top);
      SpanSize(x.pending - {lo}, nonce, top);
    }
  }

  lemma GappedSize(x: Account, nonce: nat, f: Tx -> bool, top: nat, lo: nat)
    requires Gapped(x, nonce, f, top, lo)
    ensures |x.pending| > top - nonce
  {
    var run := Below(x.pending, lo);
    SpanSize(run, nonce, top);
    SubsetSize(run.Keys + {lo}, x.pending.Keys);
  }

  /** Cut to a level, the account keeps the gap exactly if the level exceeds the run below it. */
  lemma {:induction false} CapGapped(x: Account, nonce: nat, f: Tx -> bool, top: nat, lo: nat, level: nat)
    requires level > 0 && Gapped(x, nonce, f, top, lo)
    ensures if level <= top - nonce then IsTrimmed(CapAccount(x, level), nonce, f)
            else Gapped(CapAccount(x, level), nonce, f, top, lo)
    decreases |x.pending|
  {
    hide Gapped, Trimmed, DropHighest;
    GappedSize(x, nonce, f, top, lo);
    if |x.pending| > level {
      DropGapped(x, nonce, f, top, lo);
      DropSize(x);
      if GreatestKey(x.pending) > lo {
        CapGapped(DropHighest(x), nonce, f, top, lo, level);
      } else {
        CapTrimmed(DropHighest(x), nonce, f, top, level);
      }
    }
  }

  /** A gap that promotion leaves in the account's list and truncation to the level, if any, does not cut away. */
  ghost predicate Stuck(x: Account, nonce: nat, f: Tx -> bool, level: Option<nat>) {
    && x.virtual == nonce && x.pending != map[] && LeavesGap(x, nonce, f, LeastKey(x.pending))
    && (level.Some? ==> level.value > Gap(Eligible(x, nonce, f), nonce) - nonce)
  }

  ghost function CapTo(z: Account, level: Option<nat>): Account {
    if level.Some? then CapAccount(z, level.value) else z
  }

  /** What demotion leaves of any account after a reset. */
  lemma LooseDemotes(x: Account, nonce: nat, f: Tx -> bool, cap: Option<nat>) returns (top: nat)
    requires IsLoose(x, nonce, f) && SmallAccount(x)
    ensures var z := Demote(Promote(x, nonce, f, cap), nonce, f);
            if Stuck(x, nonce, f, None)
            then Gapped(z, nonce, f, Gap(Eligible(x, nonce, f), nonce), LeastKey(x.pending))
            else Trimmed(z, nonce, f, top)
  {
    hide Trimmed, Gapped, Demote, Promote, Lifted, Readies, Eligible, Gap, SmallAccount;
    top := 0;
    if lo: nat, hi: nat :| Lowered(x, nonce, lo, hi) {
      assert lo in x.pending && LeastKey(x.pending) == lo;
      top := LoweredDemotes(x, nonce, f, cap, lo, hi);
    } else {
      var lo: nat, hi: nat :| Adrift(x, nonce, f, lo, hi);
      if x.pending != map[] {
        var n :| n in x.pending;
        assert lo in x.pending && LeastKey(x.pending) <= lo;
      }
      PromoteSmall(x, nonce, f, cap);
      var t := PromoteLifts(x, nonce, f, cap, lo, hi);
      top := DemoteTrims(Promote(x, nonce, f, cap), nonce, f, t);
    }
  }

  /**
   What a run makes of any account after a reset: promotion, demotion, truncation to a level if the pool is over its
   limit, a cut of the queue, and the new virtual nonce. It ends settled exactly if it is not stuck with a gap.
   */
  lemma LooseSettlesIff(x: Account, nonce: nat, f: Tx -> bool, cap: Option<nat>, level: Option<nat>, queue: Items)
    requires IsLoose(x, nonce, f) && SmallAccount(x) && (level.Some? ==> level.value > 0)
    requires var z := CapTo(Demote(Promote(x, nonce, f, cap), nonce, f), level);
             forall n: nat :: n in queue ==> n in z.queue
    ensures var z := CapTo(Demote(Promote(x, nonce, f, cap), nonce, f), level);
            Settled(Refresh(Account(z.pending, queue, z.virtual)), nonce, f) <==> !Stuck(x, nonce, f, level)
  {
    hide Demote, Promote, Eligible, Gap, LeastKey, LeavesGap, Refresh, Settled, CapAccount;
    var d := Demote(Promote(x, nonce, f, cap), nonce, f);
    var z := CapTo(d, level);
    var w := Account(z.pending, queue, z.virtual);
    var top := LooseDemotes(x, nonce, f, cap);
    PromoteSmall(x, nonce, f, cap);
    DemoteSmall(Promote(x, nonce, f, cap), nonce, f);
    CapSmall(d, level);
    if Stuck(x, nonce, f, None) {
      var t, lo := Gap(Eligible(x, nonce, f), nonce), LeastKey(x.pending);
      if level.Some? {
        CapGapped(d, nonce, f, t, lo, level.value);
      }
      if Stuck(x, nonce, f, level) {
        GappedUnsettled(w, nonce, f, t, lo);
      } else {
        TrimmedSettles(z, w, nonce, f);
      }
    } else {
      if level.Some? {
        CapTrimmed(d, nonce, f, top, level.value);
      }
      TrimmedSettles(z, w, nonce, f);
    }
  }

  lemma CapSmall(z: Account, level: Option<nat>)
    requires SmallAccount(z)
    ensures Small(CapTo(z, level).pending)
  {
    if level.Some? {
      CapFacts(z, level.value);
      LowestIsPart(z.pending, level.value);
    }
  }

  lemma TrimmedSettles(z: Account, w: Account, nonce: nat, f: Tx -> bool)
    requires IsTrimmed(z, nonce, f) && w.pending == z.pending && w.virtual == z.virtual && Small(z.pending)
    requires forall n: nat :: n in w.queue ==> n in z.queue
    ensures Settled(Refresh(w), nonce, f)
  {
    var top: nat :| Trimmed(z, nonce, f, top);
    assert Trimmed(w, nonce, f, top);
    RefreshSettles(w, nonce, f, top);
  }

  lemma SubsetOfOne(s: set<nat>, n: nat)
    requires s <= {n}
    ensures |s| <= 1
  {
    assert s == {} || s == {n};
  }

  /** The truncation leaves every account a payable run from its state nonce on. */
  lemma LevelledTrimmed(b0: Book, b: Book, level: nat)
    requires Complete(b0) && level > 0 && Levelled(b0, b, level) && TrimmedBook(b0)
    ensures TrimmedBook(b) && SameStanding(b0, b)
  {
    forall a: Address
      ensures IsTrimmed(Get(b, a), NonceOf(b.world, a), FilterOf(b, a))
      ensures AbreastIn(b, a) <==> AbreastIn(b0, a)
    {
      assert LevelAt(b0, b, {}, level, a);
      var top := BookTrimmed(b0, a);
      CapTrimmed(Get(b0, a), NonceOf(b0.world, a), FilterOf(b0, a), top, level);
    }
  }

  lemma LevelledSmall(b0: Book, b: Book, level: nat)
    requires Complete(b0) && level > 0 && Levelled(b0, b, level) && SmallBook(b0)
    ensures SmallBook(b)
  {
    forall a: Address
      ensures SmallAccount(Get(b, a))
    {
      assert LevelAt(b0, b, {}, level, a);
      assert Small(Get(b0, a).pending) && Small(Get(b0, a).queue);
      CapFacts(Get(b0, a), level);
      LowestIsPart(Get(b0, a).pending, level);
    }
  }
}
