/**
 The lists of the transaction pool as a value: what each account has pending and queued, its virtual nonce,
 and the chain state they are judged against.
 */
module PoolBook {
  import opened Common
  import opened ChainTree
  import opened TxItems
  import opened PoolAccount

  type Lists = map<Address, Items>

  datatype Funds = Funds(nonce: nat, balance: nat)

  type World = map<Address, Funds>

  function NonceOf(w: World, a: Address): nat {
    if a in w then w[a].nonce else 0
  }

  function BalanceOf(w: World, a: Address): nat {
    if a in w then w[a].balance else 0
  }

  ghost function StateNonces(w: World): imap<Address, nat> {
    imap a: Address | true :: NonceOf(w, a)
  }

  datatype Book = Book(pending: Lists, queue: Lists, virtual: imap<Address, nat>, world: World, maxGas: nat,
                       locals: set<Address>)

  function ListOf(m: Lists, a: Address): Items {
    if a in m then m[a] else map[]
  }

  /** An account whose list becomes empty is deleted. */
  function SetList(m: Lists, a: Address, l: Items): Lists {
    if l == map[] then m - {a} else m[a := l]
  }

  ghost function Get(b: Book, a: Address): Account
    requires a in b.virtual
  {
    Account(ListOf(b.pending, a), ListOf(b.queue, a), b.virtual[a])
  }

  ghost function Put(b: Book, a: Address, x: Account): Book {
    b.(pending := SetList(b.pending, a, x.pending), queue := SetList(b.queue, a, x.queue),
       virtual := b.virtual[a := x.virtual])
  }

  /** What the account's transactions must stay within. */
  function FilterOf(b: Book, a: Address): Tx -> bool {
    Unaffordable(BalanceOf(b.world, a), b.maxGas)
  }

  predicate Filled(m: Lists, a: Address) {
    a in m ==> m[a] != map[]
  }

  ghost predicate NoEmpty(m: Lists) {
    forall a: Address {:trigger Filled(m, a)} :: Filled(m, a)
  }

  ghost predicate Complete(b: Book) {
    forall a: Address :: a in b.virtual
  }

  /** No list is empty, every list holds its account's own transactions, and pending and queued nonces differ. */
  ghost predicate SoundBook(b: Book) {
    && NoEmpty(b.pending) && NoEmpty(b.queue) && Complete(b)
    && forall a: Address {:trigger Sound(a, Get(b, a))} :: Sound(a, Get(b, a))
  }

  ghost predicate InLists(m: Lists, tx: Tx) {
    Holds(ListOf(m, tx.sender), tx)
  }

  /** The transaction is in one of the lists. */
  ghost predicate Pooled(b: Book, tx: Tx) {
    InLists(b.pending, tx) || InLists(b.queue, tx)
  }

  lemma GetPut(b: Book, a: Address, x: Account, c: Address)
    requires Complete(b)
    ensures Complete(Put(b, a, x))
    ensures Get(Put(b, a, x), c) == if c == a then x else Get(b, c)
  {
  }

  lemma SetSame(m: Lists, a: Address)
    requires NoEmpty(m)
    ensures SetList(m, a, ListOf(m, a)) == m
  {
    assert Filled(m, a);
  }

  lemma SetTwice(m: Lists, a: Address, l: Items, l': Items)
    ensures SetList(SetList(m, a, l), a, l') == SetList(m, a, l') && ListOf(SetList(m, a, l), a) == l
  {
  }

  lemma OverwriteVirtual(v: imap<Address, nat>, a: Address, n: nat, n': nat)
    ensures v[a := n][a := n'] == v[a := n']
  {
  }

  lemma SameVirtual(v: imap<Address, nat>, a: Address)
    requires a in v
    ensures v[a := v[a]] == v
  {
  }

  lemma PutQueue(b: Book, a: Address, q: Items)
    requires Complete(b) && NoEmpty(b.pending)
    ensures Put(b, a, Account(ListOf(b.pending, a), q, b.virtual[a])) == b.(queue := SetList(b.queue, a, q))
  {
    SetSame(b.pending, a);
    SameVirtual(b.virtual, a);
  }

  lemma PutPending(b: Book, a: Address, p: Items, v: nat)
    requires Complete(b) && NoEmpty(b.queue)
    ensures Put(b, a, Account(p, ListOf(b.queue, a), v)) ==
            b.(pending := SetList(b.pending, a, p), virtual := b.virtual[a := v])
  {
    SetSame(b.queue, a);
  }

  lemma PutSound(b: Book, a: Address, x: Account)
    requires SoundBook(b) && Sound(a, x)
    ensures SoundBook(Put(b, a, x))
  {
    forall c: Address
      ensures Sound(c, Get(Put(b, a, x), c))
      ensures Filled(Put(b, a, x).pending, c) && Filled(Put(b, a, x).queue, c)
    {
      assert Sound(c, Get(b, c)) && Filled(b.pending, c) && Filled(b.queue, c);
      GetPut(b, a, x, c);
    }
  }

  lemma PutPooled(b: Book, a: Address, x: Account, tx: Tx)
    requires Complete(b)
    ensures Pooled(Put(b, a, x), tx) <==>
            if tx.sender == a then Holds(x.pending, tx) || Holds(x.queue, tx) else Pooled(b, tx)
  {
  }

  ghost function RemoveTx(b: Book, tx: Tx): Book
    requires Complete(b)
  {
    if Pooled(b, tx) then Put(b, tx.sender, Remove(Get(b, tx.sender), tx.nonce)) else b
  }

  /** Removing a transaction takes it out of the lists and leaves all others in. */
  lemma RemovePooled(b: Book, tx: Tx, other: Tx)
    requires SoundBook(b)
    ensures Pooled(RemoveTx(b, tx), other) <==> Pooled(b, other) && other != tx
  {
    var a := tx.sender;
    assert Sound(a, Get(b, a));
    if Pooled(b, tx) {
      PutPooled(b, a, Remove(Get(b, a), tx.nonce), other);
    }
  }

  lemma RemoveTxSound(b: Book, tx: Tx)
    requires SoundBook(b)
    ensures SoundBook(RemoveTx(b, tx))
  {
    assert Sound(tx.sender, Get(b, tx.sender));
    RemoveSound(tx.sender, Get(b, tx.sender), tx.nonce);
    PutSound(b, tx.sender, Remove(Get(b, tx.sender), tx.nonce));
  }

  ghost function RemoveAll(b: Book, txs: seq<Tx>): (r: Book)
    requires Complete(b)
    ensures Complete(r) && r.world == b.world && r.maxGas == b.maxGas && r.locals == b.locals
  {
    if txs == [] then b else RemoveTx(RemoveAll(b, txs[..|txs| - 1]), txs[|txs| - 1])
  }

  lemma RemoveAllStep(b: Book, txs: seq<Tx>, i: nat)
    requires Complete(b) && i < |txs|
    ensures RemoveAll(b, txs[..i + 1]) == RemoveTx(RemoveAll(b, txs[..i]), txs[i])
  {
    assert txs[..i + 1][..i] == txs[..i];
  }

  // The states of the whole pool during and between runs.

  ghost predicate SettledBook(b: Book)
    requires Complete(b)
  {
    forall a: Address :: Settled(Get(b, a), NonceOf(b.world, a), FilterOf(b, a))
  }

  ghost predicate SmallBook(b: Book)
    requires Complete(b)
  {
    forall a: Address :: Small(Get(b, a).pending) && Small(Get(b, a).queue)
  }

  ghost predicate IsAdrift(x: Account, nonce: nat, f: Tx -> bool) {
    exists lo: nat, hi: nat :: Adrift(x, nonce, f, lo, hi)
  }

  ghost predicate AdriftBook(b: Book)
    requires Complete(b)
  {
    forall a: Address :: IsAdrift(Get(b, a), NonceOf(b.world, a), FilterOf(b, a))
  }

  ghost predicate IsLowered(x: Account, nonce: nat) {
    exists lo: nat, hi: nat :: Lowered(x, nonce, lo, hi)
  }

  /** The account during a reset, whether its state nonce was raised or lowered. */
  ghost predicate IsLoose(x: Account, nonce: nat, f: Tx -> bool) {
    IsAdrift(x, nonce, f) || IsLowered(x, nonce)
  }

  ghost predicate LooseBook(b: Book)
    requires Complete(b)
  {
    forall a: Address :: IsLoose(Get(b, a), NonceOf(b.world, a), FilterOf(b, a))
  }

  ghost predicate IsLifted(x: Account, nonce: nat, f: Tx -> bool) {
    exists top: nat :: Lifted(x, nonce, f, top)
  }

  ghost predicate IsTrimmed(x: Account, nonce: nat, f: Tx -> bool) {
    exists top: nat :: Trimmed(x, nonce, f, top)
  }

  ghost predicate TrimmedBook(b: Book)
    requires Complete(b)
  {
    forall a: Address :: IsTrimmed(Get(b, a), NonceOf(b.world, a), FilterOf(b, a))
  }

  lemma PutSettled(b: Book, a: Address, y: Account)
    requires Complete(b) && SettledBook(b) && Settled(y, NonceOf(b.world, a), FilterOf(b, a))
    ensures SettledBook(Put(b, a, y))
  {
    forall c: Address
      ensures Settled(Get(Put(b, a, y), c), NonceOf(b.world, c), FilterOf(b, c))
    {
      GetPut(b, a, y, c);
    }
  }

  lemma PutAdrift(b: Book, a: Address, y: Account, lo: nat, hi: nat)
    requires Complete(b) && AdriftBook(b) && Adrift(y, NonceOf(b.world, a), FilterOf(b, a), lo, hi)
    ensures AdriftBook(Put(b, a, y))
  {
    forall c: Address
      ensures IsAdrift(Get(Put(b, a, y), c), NonceOf(b.world, c), FilterOf(b, c))
    {
      GetPut(b, a, y, c);
    }
  }

  lemma PutLoose(b: Book, a: Address, y: Account)
    requires Complete(b) && LooseBook(b) && IsLoose(y, NonceOf(b.world, a), FilterOf(b, a))
    ensures LooseBook(Put(b, a, y))
  {
    forall c: Address
      ensures IsLoose(Get(Put(b, a, y), c), NonceOf(b.world, c), FilterOf(b, c))
    {
      GetPut(b, a, y, c);
    }
  }

  lemma RemoveLoose(x: Account, nonce: nat, f: Tx -> bool, n: nat)
    requires IsLoose(x, nonce, f)
    ensures IsLoose(Remove(x, n), nonce, f)
  {
    hide Adrift, Lowered, Remove;
    if IsAdrift(x, nonce, f) {
      var lo: nat, hi: nat :| Adrift(x, nonce, f, lo, hi);
      RemoveAdrift(x, nonce, f, lo, hi, n);
    } else {
      var lo: nat, hi: nat :| Lowered(x, nonce, lo, hi);
      RemoveLowered(x, nonce, lo, hi, n);
      if n == lo {
        VacantDrifts(Remove(x, n), nonce, f);
      }
    }
  }

  lemma InsertLoose(x: Account, nonce: nat, f: Tx -> bool, tx: Tx)
    requires IsLoose(x, nonce, f) && tx.nonce >= nonce && !f(tx)
    ensures IsLoose(if tx.nonce in x.pending then Replace(x, tx) else Enqueue(x, tx), nonce, f)
  {
    hide Adrift, Lowered, Replace, Enqueue;
    if IsAdrift(x, nonce, f) {
      var lo: nat, hi: nat :| Adrift(x, nonce, f, lo, hi);
      if tx.nonce in x.pending {
        ReplaceAdrift(x, nonce, f, lo, hi, tx);
      } else {
        EnqueueAdrift(x, nonce, f, lo, hi, tx);
      }
    } else {
      var lo: nat, hi: nat :| Lowered(x, nonce, lo, hi);
      InsertLowered(x, nonce, lo, hi, tx);
    }
  }

  /** Emptying a queue changes nothing either. */
  lemma EmptyLoose(x: Account, nonce: nat, f: Tx -> bool)
    requires IsLoose(x, nonce, f)
    ensures IsLoose(Account(x.pending, map[], x.virtual), nonce, f)
  {
    var y := Account(x.pending, map[], x.virtual);
    if IsAdrift(x, nonce, f) {
      var lo: nat, hi: nat :| Adrift(x, nonce, f, lo, hi);
      assert Adrift(y, nonce, f, lo, hi);
    } else {
      var lo: nat, hi: nat :| Lowered(x, nonce, lo, hi);
      assert Lowered(y, nonce, lo, hi);
    }
  }

  lemma PutSmall(b: Book, a: Address, y: Account)
    requires Complete(b) && SmallBook(b) && Small(y.pending) && Small(y.queue)
    ensures SmallBook(Put(b, a, y))
  {
    forall c: Address
      ensures Small(Get(Put(b, a, y), c).pending) && Small(Get(Put(b, a, y), c).queue)
    {
      GetPut(b, a, y, c);
    }
  }

  lemma BookAdrift(b: Book, a: Address) returns (lo: nat, hi: nat)
    requires Complete(b) && AdriftBook(b)
    ensures Adrift(Get(b, a), NonceOf(b.world, a), FilterOf(b, a), lo, hi)
  {
    assert IsAdrift(Get(b, a), NonceOf(b.world, a), FilterOf(b, a));
    lo, hi :| Adrift(Get(b, a), NonceOf(b.world, a), FilterOf(b, a), lo, hi);
  }

  lemma BookTrimmed(b: Book, a: Address) returns (top: nat)
    requires Complete(b) && TrimmedBook(b)
    ensures Trimmed(Get(b, a), NonceOf(b.world, a), FilterOf(b, a), top)
  {
    assert IsTrimmed(Get(b, a), NonceOf(b.world, a), FilterOf(b, a));
    top :| Trimmed(Get(b, a), NonceOf(b.world, a), FilterOf(b, a), top);
  }

  // Standing: which accounts have a virtual nonce that has not fallen behind the state.

  ghost predicate AbreastIn(b: Book, a: Address) {
    a in b.virtual && Abreast(Get(b, a), NonceOf(b.world, a))
  }

  ghost predicate AbreastBook(b: Book) {
    forall a: Address :: AbreastIn(b, a)
  }

  ghost predicate SameStanding(b: Book, b': Book) {
    forall a: Address {:trigger AbreastIn(b', a)} :: AbreastIn(b', a) <==> AbreastIn(b, a)
  }

  /** A transaction below the later state's nonce has left the account's pending list in between. */
  ghost predicate LosesStale(b: Book, b': Book, a: Address) {
    exists n: nat :: n < NonceOf(b'.world, a) && n in ListOf(b.pending, a) && n !in ListOf(b'.pending, a)
  }

  ghost predicate SteadyAt(b: Book, b': Book, a: Address)
    requires Complete(b) && Complete(b')
  {
    Steady(Get(b, a), Get(b', a), NonceOf(b.world, a))
  }

  ghost predicate SteadyBook(b: Book, b': Book)
    requires Complete(b) && Complete(b')
  {
    b'.world == b.world && forall a: Address {:trigger SteadyAt(b, b', a)} :: SteadyAt(b, b', a)
  }

  lemma SteadySame(b: Book)
    requires Complete(b)
    ensures SteadyBook(b, b)
  {
  }

  lemma SteadyBooks(b: Book, c: Book, d: Book)
    requires Complete(b) && Complete(c) && Complete(d) && SteadyBook(b, c) && SteadyBook(c, d)
    ensures SteadyBook(b, d)
  {
    forall a: Address
      ensures SteadyAt(b, d, a)
    {
      assert SteadyAt(b, c, a) && SteadyAt(c, d, a);
      SteadyThrough(Get(b, a), Get(c, a), Get(d, a), NonceOf(b.world, a));
    }
  }

  lemma PutSteady(b: Book, a: Address, y: Account)
    requires Complete(b) && Steady(Get(b, a), y, NonceOf(b.world, a))
    ensures Complete(Put(b, a, y)) && SteadyBook(b, Put(b, a, y))
  {
    forall c: Address
      ensures SteadyAt(b, Put(b, a, y), c)
    {
      GetPut(b, a, y, c);
    }
  }

  /** With no stale nonce pending, a steady change keeps every account's standing. */
  lemma SettledStanding(b: Book, b': Book)
    requires Complete(b) && Complete(b') && SettledBook(b) && SteadyBook(b, b')
    ensures SameStanding(b, b')
  {
    forall a: Address
      ensures AbreastIn(b', a) <==> AbreastIn(b, a)
    {
      assert SteadyAt(b, b', a) && Settled(Get(b, a), NonceOf(b.world, a), FilterOf(b, a));
    }
  }

  /** From a rebased book, an account is abreast exactly if it has lost no stale pending transaction since. */
  lemma RebasedStanding(b: Book, c: Book, b': Book)
    requires Complete(c) && Complete(b') && SteadyBook(c, b') && c.pending == b.pending
    requires forall a: Address :: c.virtual[a] == NonceOf(c.world, a)
    ensures forall a: Address :: AbreastIn(b', a) <==> !LosesStale(b, b', a)
  {
    forall a: Address
      ensures AbreastIn(b', a) <==> !LosesStale(b, b', a)
    {
      assert SteadyAt(c, b', a);
    }
  }

  /** Removal keeps every invariant of the pool, between runs and during a reset. */
  lemma RemoveTxKeeps(b: Book, tx: Tx)
    requires SoundBook(b)
    ensures SmallBook(b) ==> SmallBook(RemoveTx(b, tx))
    ensures SettledBook(b) ==> SettledBook(RemoveTx(b, tx))
    ensures AdriftBook(b) ==> AdriftBook(RemoveTx(b, tx))
    ensures SteadyBook(b, RemoveTx(b, tx)) && (LooseBook(b) ==> LooseBook(RemoveTx(b, tx)))
  {
    var a, n := tx.sender, tx.nonce;
    var x := Get(b, a);
    var nonce, f := NonceOf(b.world, a), FilterOf(b, a);
    SteadySame(b);
    RemoveSteady(x, nonce, n);
    PutSteady(b, a, Remove(x, n));
    if LooseBook(b) {
      RemoveLoose(x, nonce, f, n);
      PutLoose(b, a, Remove(x, n));
    }
    if SmallBook(b) {
      PutSmall(b, a, Remove(x, n));
    }
    if SettledBook(b) {
      RemoveSettled(x, nonce, f, n);
      PutSettled(b, a, Remove(x, n));
    }
    if AdriftBook(b) {
      var lo, hi := BookAdrift(b, a);
      RemoveAdrift(x, nonce, f, lo, hi, n);
      PutAdrift(b, a, Remove(x, n), lo, if n in x.pending then n else hi);
    }
  }

  lemma {:induction false} RemoveAllKeeps(b: Book, txs: seq<Tx>)
    requires SoundBook(b)
    ensures SoundBook(RemoveAll(b, txs))
    ensures SmallBook(b) ==> SmallBook(RemoveAll(b, txs))
    ensures SettledBook(b) ==> SettledBook(RemoveAll(b, txs))
    ensures AdriftBook(b) ==> AdriftBook(RemoveAll(b, txs))
    ensures SteadyBook(b, RemoveAll(b, txs)) && (LooseBook(b) ==> LooseBook(RemoveAll(b, txs)))
  {
    hide SmallBook, SettledBook, AdriftBook, SteadyBook, LooseBook;
    if txs != [] {
      RemoveAllKeeps(b, txs[..|txs| - 1]);
      RemoveTxKeeps(RemoveAll(b, txs[..|txs| - 1]), txs[|txs| - 1]);
      RemoveTxSound(RemoveAll(b, txs[..|txs| - 1]), txs[|txs| - 1]);
      SteadyBooks(b, RemoveAll(b, txs[..|txs| - 1]), RemoveAll(b, txs));
    } else {
      SteadySame(b);
    }
  }

  /** The book with a transaction that passed validation: it replaces a pending one or joins the queue. */
  ghost function Insert(b: Book, tx: Tx): Book
    requires Complete(b)
  {
    var x := Get(b, tx.sender);
    Put(b, tx.sender, if tx.nonce in x.pending then Replace(x, tx) else Enqueue(x, tx))
  }

  lemma InsertSound(b: Book, tx: Tx)
    requires SoundBook(b)
    ensures SoundBook(Insert(b, tx))
  {
    var x := Get(b, tx.sender);
    assert Sound(tx.sender, x);
    PutSound(b, tx.sender, if tx.nonce in x.pending then Replace(x, tx) else Enqueue(x, tx));
  }

  lemma InsertKeeps(b: Book, tx: Tx)
    requires SoundBook(b) && tx.nonce >= NonceOf(b.world, tx.sender) && !FilterOf(b, tx.sender)(tx)
    ensures SmallBook(b) && tx.nonce + 1 < TWO_64 ==> SmallBook(Insert(b, tx))
    ensures SettledBook(b) ==> SettledBook(Insert(b, tx))
    ensures AdriftBook(b) ==> AdriftBook(Insert(b, tx))
    ensures Complete(Insert(b, tx)) && SteadyBook(b, Insert(b, tx)) && (LooseBook(b) ==> LooseBook(Insert(b, tx)))
  {
    var a := tx.sender;
    var x := Get(b, a);
    var y := if tx.nonce in x.pending then Replace(x, tx) else Enqueue(x, tx);
    var nonce, f := NonceOf(b.world, a), FilterOf(b, a);
    InsertSteady(x, nonce, tx);
    PutSteady(b, a, y);
    if LooseBook(b) {
      InsertLoose(x, nonce, f, tx);
      PutLoose(b, a, y);
    }
    if SmallBook(b) && tx.nonce + 1 < TWO_64 {
      PutSmall(b, a, y);
    }
    if SettledBook(b) {
      if tx.nonce in x.pending {
        ReplaceSettled(x, nonce, f, tx);
      } else {
        EnqueueSettled(x, nonce, f, tx);
      }
      PutSettled(b, a, y);
    }
    if AdriftBook(b) {
      var lo, hi := BookAdrift(b, a);
      if tx.nonce in x.pending {
        ReplaceAdrift(x, nonce, f, lo, hi, tx);
      } else {
        EnqueueAdrift(x, nonce, f, lo, hi, tx);
      }
      PutAdrift(b, a, y, lo, hi);
    }
  }

  // Agreement of the lookup with the lists.

  /** The lookup holds the pooled transactions and, while they are between lists, some extra ones. */
  ghost predicate Agrees(b: Book, all: set<Tx>, extra: set<Tx>) {
    && (forall tx {:trigger Pooled(b, tx)} :: tx in all <==> Pooled(b, tx) || tx in extra)
    && (forall tx {:trigger Pooled(b, tx)} :: tx in extra ==> !Pooled(b, tx))
  }

  function Txs(m: Items): set<Tx> {
    set n | n in m :: m[n]
  }

  lemma TxsHold(m: Items, tx: Tx)
    requires Filed(m)
    ensures tx in Txs(m) <==> Holds(m, tx)
  {
  }

  lemma {:induction false} TxsSize(m: Items)
    requires Filed(m)
    ensures |Txs(m)| == |m|
    decreases |m|
  {
    if m != map[] {
      var n :| n in m;
      var rest := m - {n};
      TxsSize(rest);
      assert Txs(m) == Txs(rest) + {m[n]} by {
        assert forall k: nat :: k in m ==> k == n || (k in rest && rest[k] == m[k]);
        assert forall k: nat :: k in rest ==> k in m && rest[k] == m[k];
      }
      assert m[n] !in Txs(rest);
    } else {
      assert Txs(m) == {};
    }
  }

  function FileTx(m: Lists, tx: Tx): Lists {
    m[tx.sender := ListOf(m, tx.sender)[tx.nonce := tx]]
  }

  /** The transaction of the same nonce that filing would replace. */
  function Present(m: Lists, tx: Tx): Option<Tx> {
    if tx.nonce in ListOf(m, tx.sender) then Some(ListOf(m, tx.sender)[tx.nonce]) else None
  }

  function Recorded(all: set<Tx>, replaced: Option<Tx>, tx: Tx): set<Tx> {
    (if replaced.Some? then all - {replaced.value} else all) + {tx}
  }

  /** A transaction joins the queue, taking the place of another one of its nonce if need be. */
  lemma EnqueueAgrees(b: Book, all: set<Tx>, extra: set<Tx>, tx: Tx)
    requires SoundBook(b) && Agrees(b, all, extra) && tx.nonce !in ListOf(b.pending, tx.sender)
    requires tx in all ==> tx in extra
    ensures var replaced := Present(b.queue, tx);
            var c := b.(queue := FileTx(b.queue, tx));
            && (replaced.Some? ==> replaced.value in all && replaced.value != tx)
            && SoundBook(c) && Agrees(c, Recorded(all, replaced, tx), extra - {tx})
            && c == Put(b, tx.sender, Enqueue(Get(b, tx.sender), tx))
  {
    var a := tx.sender;
    var x := Get(b, a);
    var y := Enqueue(x, tx);
    assert Sound(a, x);
    PutSound(b, a, y);
    PutQueue(b, a, y.queue);
    assert tx.nonce in y.queue && b.(queue := FileTx(b.queue, tx)) == Put(b, a, y);
    assert tx.nonce in x.queue ==> Pooled(b, x.queue[tx.nonce]);
    forall t
      ensures t in Recorded(all, Present(b.queue, tx), tx) <==> Pooled(Put(b, a, y), t) || t in extra - {tx}
      ensures t in extra - {tx} ==> !Pooled(Put(b, a, y), t)
    {
      var before := Pooled(b, t);
      PutPooled(b, a, y, t);
    }
  }

  /** Known transactions of the account that have their nonces free in its queue. */
  ghost predicate Requeueable(q: Lists, a: Address, m: Items, extra: set<Tx>) {
    Own(a, m) && Txs(m) <= extra && m.Keys !! ListOf(q, a).Keys
  }

  /** All of the list but some nonces has been put back into the account's queue. */
  ghost predicate Requeued(q0: Lists, q: Lists, a: Address, m: Items, todo: set<nat>, extra: set<Tx>, left: set<Tx>) {
    && todo <= m.Keys
    && q == SetList(q0, a, ListOf(q0, a) + (m - todo))
    && left == extra - Txs(m - todo)
  }

  lemma RequeueStarts(q: Lists, a: Address, m: Items, extra: set<Tx>)
    requires NoEmpty(q)
    ensures Requeued(q, q, a, m, m.Keys, extra, extra)
  {
    SetSame(q, a);
    assert m - m.Keys == map[];
    assert ListOf(q, a) + (m - m.Keys) == ListOf(q, a);
  }

  lemma RequeueEnds(q0: Lists, q: Lists, a: Address, m: Items, extra: set<Tx>, left: set<Tx>)
    requires Requeued(q0, q, a, m, {}, extra, left)
    ensures q == SetList(q0, a, ListOf(q0, a) + m) && left == extra - Txs(m)
  {
    assert m - {} == m;
  }

  lemma TxsStep(m: Items, todo: set<nat>, n: nat, a: Address)
    requires Own(a, m) && n in todo && todo <= m.Keys
    ensures Txs(m - (todo - {n})) == Txs(m - todo) + {m[n]} && m[n] !in Txs(m - todo)
  {
    forall t
      ensures t in Txs(m - (todo - {n})) <==> t in Txs(m - todo) || t == m[n]
    {
      TxsHold(m - (todo - {n}), t);
      TxsHold(m - todo, t);
    }
    TxsHold(m - todo, m[n]);
  }

  lemma RequeueStep(q0: Lists, q: Lists, a: Address, m: Items, todo: set<nat>, extra: set<Tx>, left: set<Tx>, n: nat)
    requires Requeueable(q0, a, m, extra) && Requeued(q0, q, a, m, todo, extra, left) && n in todo
    ensures m[n] in left && n !in ListOf(q, a)
    ensures Requeued(q0, FileTx(q, m[n]), a, m, todo - {n}, extra, left - {m[n]})
  {
    var l := ListOf(q0, a) + (m - todo);
    assert ListOf(q, a) == l;
    assert l[n := m[n]] == ListOf(q0, a) + (m - (todo - {n}));
    assert m[n] in Txs(m);
    TxsStep(m, todo, n, a);
  }

  /** A pending transaction and those above it are taken out; the latter stay known. */
  lemma CutAgrees(b: Book, all: set<Tx>, tx: Tx)
    requires SoundBook(b) && Agrees(b, all, {}) && InLists(b.pending, tx)
    ensures var x := Get(b, tx.sender);
            var c := b.(pending := SetList(b.pending, tx.sender, Below(x.pending, tx.nonce)));
            SoundBook(c) && Agrees(c, all - {tx}, Txs(From(x.pending, tx.nonce + 1)))
  {
    var a, n := tx.sender, tx.nonce;
    var x := Get(b, a);
    var y := Account(Below(x.pending, n), x.queue, x.virtual);
    assert Sound(a, x);
    PutPending(b, a, y.pending, y.virtual);
    SameVirtual(b.virtual, a);
    PutSound(b, a, y);
    var above := From(x.pending, n + 1);
    forall t
      ensures t in all - {tx} <==> Pooled(Put(b, a, y), t) || t in Txs(above)
      ensures t in Txs(above) ==> !Pooled(Put(b, a, y), t)
    {
      var before := Pooled(b, t);
      PutPooled(b, a, y, t);
      TxsHold(above, t);
    }
  }

  lemma QueuedAgrees(b: Book, all: set<Tx>, tx: Tx)
    requires SoundBook(b) && Agrees(b, all, {}) && tx in all && tx.nonce !in Get(b, tx.sender).pending
    ensures SoundBook(RemoveTx(b, tx)) && Agrees(RemoveTx(b, tx), all - {tx}, {})
    ensures RemoveTx(b, tx) == b.(queue := SetList(b.queue, tx.sender, ListOf(b.queue, tx.sender) - {tx.nonce}))
  {
    assert Sound(tx.sender, Get(b, tx.sender)) && Pooled(b, tx);
    RemoveTxSound(b, tx);
    PutQueue(b, tx.sender, ListOf(b.queue, tx.sender) - {tx.nonce});
    forall t
      ensures t in all - {tx} <==> Pooled(RemoveTx(b, tx), t)
    {
      RemovePooled(b, tx, t);
    }
  }

  /** Known transactions that are in no list are forgotten. */
  lemma ForgetAgrees(b: Book, all: set<Tx>, extra: set<Tx>, gone: set<Tx>)
    requires Agrees(b, all, extra) && gone <= extra
    ensures gone <= all && Agrees(b, all - gone, extra - gone)
  {
    forall t | t in gone
      ensures t in all
    {
      var listed := Pooled(b, t);
    }
  }

  /** A transaction becomes pending, taking the place of another one of its nonce if need be. */
  lemma PromoteAgrees(b: Book, all: set<Tx>, extra: set<Tx>, tx: Tx, v: nat)
    requires SoundBook(b) && Agrees(b, all, extra) && tx.nonce !in ListOf(b.queue, tx.sender)
    requires tx in all ==> tx in extra
    ensures var replaced := Present(b.pending, tx);
            var c := b.(pending := FileTx(b.pending, tx), virtual := b.virtual[tx.sender := v]);
            && (replaced.Some? ==> replaced.value in all && replaced.value != tx)
            && SoundBook(c) && Agrees(c, Recorded(all, replaced, tx), extra - {tx})
            && c == Put(b, tx.sender,
                        Account(ListOf(b.pending, tx.sender)[tx.nonce := tx], ListOf(b.queue, tx.sender), v))
  {
    var a := tx.sender;
    var x := Get(b, a);
    var y := Account(x.pending[tx.nonce := tx], x.queue, v);
    assert Sound(a, x);
    PutSound(b, a, y);
    PutPending(b, a, y.pending, v);
    assert tx.nonce in y.pending && b.(pending := FileTx(b.pending, tx), virtual := b.virtual[a := v]) == Put(b, a, y);
    assert tx.nonce in x.pending ==> Pooled(b, x.pending[tx.nonce]);
    forall t
      ensures t in Recorded(all, Present(b.pending, tx), tx) <==> Pooled(Put(b, a, y), t) || t in extra - {tx}
      ensures t in extra - {tx} ==> !Pooled(Put(b, a, y), t)
    {
      var before := Pooled(b, t);
      PutPooled(b, a, y, t);
    }
  }

  /** A lost transaction whose nonce is pending was pending itself, and what is above it can be put back. */
  lemma LosesPending(b: Book, all: set<Tx>, tx: Tx)
    requires SoundBook(b) && Agrees(b, all + {tx}, {}) && tx.nonce in Get(b, tx.sender).pending
    ensures InLists(b.pending, tx)
    ensures var p := Get(b, tx.sender).pending;
            var above := From(p, tx.nonce + 1);
            && Requeueable(b.queue, tx.sender, above, Txs(above))
            && above.Keys !! ListOf(SetList(b.pending, tx.sender, Below(p, tx.nonce)), tx.sender).Keys
    ensures var x := Get(b, tx.sender);
            RemoveTx(b, tx) == b.(pending := SetList(b.pending, tx.sender, Below(x.pending, tx.nonce)),
                                  queue := SetList(b.queue, tx.sender, x.queue + From(x.pending, tx.nonce + 1)),
                                  virtual := b.virtual[tx.sender := Min(x.virtual, tx.nonce)])
  {
    hide SetList, Txs;
    assert Sound(tx.sender, Get(b, tx.sender));
    assert Pooled(b, tx);
    SetThenGet(b.pending, tx.sender, Below(Get(b, tx.sender).pending, tx.nonce));
  }

  lemma SetThenGet(m: Lists, a: Address, l: Items)
    ensures ListOf(SetList(m, a, l), a) == l
  {
  }

  /** Agreement does not depend on the virtual nonces. */
  lemma VirtualAgrees(b: Book, all: set<Tx>, extra: set<Tx>, a: Address, v: nat)
    requires SoundBook(b) && Agrees(b, all, extra)
    ensures var c := b.(virtual := b.virtual[a := v]);
            SoundBook(c) && Agrees(c, all, extra)
  {
    SameListsAgree(b, b.(virtual := b.virtual[a := v]), all, extra);
  }

  lemma TxsPart(m: Items, rest: Items, part: Items)
    requires Filed(m) && (forall n: nat :: n in m <==> n in rest || n in part) && rest.Keys !! part.Keys
    requires forall n: nat :: n in m ==> m[n] == if n in rest then rest[n] else part[n]
    ensures Txs(part) <= Txs(m) && Txs(rest) == Txs(m) - Txs(part)
  {
    forall t
      ensures t in Txs(m) <==> t in Txs(rest) || t in Txs(part)
      ensures !(t in Txs(rest) && t in Txs(part))
    {
      TxsHold(m, t);
      TxsHold(rest, t);
      TxsHold(part, t);
    }
  }

  /** An account's queue is taken out to be worked on. */
  lemma TakeQueue(b: Book, all: set<Tx>, a: Address)
    requires SoundBook(b) && Agrees(b, all, {})
    ensures var c := b.(queue := b.queue - {a});
            SoundBook(c) && Agrees(c, all, Txs(ListOf(b.queue, a)))
                && c == Put(b, a, Account(ListOf(b.pending, a), map[], b.virtual[a]))
  {
    var x := Get(b, a);
    var y := Account(x.pending, map[], x.virtual);
    assert Sound(a, x);
    PutQueue(b, a, map[]);
    PutSound(b, a, y);
    forall t
      ensures t in all <==> Pooled(Put(b, a, y), t) || t in Txs(x.queue)
      ensures t in Txs(x.queue) ==> !Pooled(Put(b, a, y), t)
    {
      var before := Pooled(b, t);
      PutPooled(b, a, y, t);
      TxsHold(x.queue, t);
    }
  }

  /** A list is put back as the account's queue. */
  lemma ReturnQueue(b: Book, all: set<Tx>, a: Address, q: Items)
    requires SoundBook(b) && Agrees(b, all, Txs(q)) && a !in b.queue && Own(a, q) && q.Keys !! ListOf(b.pending, a).Keys
    ensures var c := b.(queue := SetList(b.queue, a, q));
            SoundBook(c) && Agrees(c, all, {})
  {
    var x := Get(b, a);
    var y := Account(x.pending, q, x.virtual);
    assert Sound(a, x);
    PutQueue(b, a, q);
    PutSound(b, a, y);
    forall t
      ensures t in all <==> Pooled(Put(b, a, y), t)
    {
      var before := Pooled(b, t);
      PutPooled(b, a, y, t);
      TxsHold(q, t);
    }
  }

  /** Ready transactions of the account have been made pending, and its virtual nonce moved behind them. */
  ghost predicate Promoting(b0: Book, b: Book, a: Address, done: Items, extra: set<Tx>, left: set<Tx>)
    requires Complete(b0)
  {
    && b == b0.(pending := SetList(b0.pending, a, ListOf(b0.pending, a) + done),
                virtual := if done == map[] then b0.virtual else b0.virtual[a := Next(GreatestKey(done))])
    && left == extra - Txs(done)
  }

  lemma PromotingStarts(b: Book, a: Address, extra: set<Tx>)
    requires Complete(b) && NoEmpty(b.pending)
    ensures Promoting(b, b, a, map[], extra, extra)
  {
    SetSame(b.pending, a);
    assert ListOf(b.pending, a) + map[] == ListOf(b.pending, a);
  }

  lemma PromotingStep(b0: Book, b: Book, a: Address, done: Items, extra: set<Tx>, left: set<Tx>, tx: Tx)
    requires Complete(b0) && Promoting(b0, b, a, done, extra, left) && Own(a, done)
    requires tx.nonce !in done && tx in extra && IsGreatestKey(done[tx.nonce := tx], tx.nonce)
    requires tx.nonce !in ListOf(b0.pending, a) && tx.sender == a
    ensures Complete(b) && tx in left && tx.nonce !in ListOf(b.pending, a)
    ensures Promoting(b0, b.(pending := FileTx(b.pending, tx), virtual := b.virtual[a := Next(tx.nonce)]),
                      a, done[tx.nonce := tx], extra, left - {tx})
  {
    var p := ListOf(b0.pending, a);
    var grown: Items := p + done;
    SetTwice(b0.pending, a, grown, grown[tx.nonce := tx]);
    assert grown[tx.nonce := tx] == p + done[tx.nonce := tx];
    if done != map[] {
      OverwriteVirtual(b0.virtual, a, Next(GreatestKey(done)), Next(tx.nonce));
    }
    LowestTxs(done, tx);
    TxsHold(done, tx);
  }

  lemma PromoteOne(b0: Book, b: Book, a: Address, readies: Items, k: nat, extra: set<Tx>, left: set<Tx>)
    requires Complete(b0) && Promoting(b0, b, a, Lowest(readies, k), extra, left) && k < |readies|
    requires Own(a, readies) && Txs(readies) <= extra && readies.Keys !! ListOf(b0.pending, a).Keys
    ensures var tx := Flat(readies)[k];
            && Complete(b) && tx in left && tx.sender == a && tx.nonce !in ListOf(b.pending, a)
            && Promoting(b0, b.(pending := FileTx(b.pending, tx), virtual := b.virtual[a := Next(tx.nonce)]),
                         a, Lowest(readies, k + 1), extra, left - {tx})
  {
    var tx := Flat(readies)[k];
    LowestStep(readies, k);
    LowestIsPart(readies, k);
    TxsHold(readies, tx);
    PromotingStep(b0, b, a, Lowest(readies, k), extra, left, tx);
  }

  lemma LowestTxs(done: Items, tx: Tx)
    requires Filed(done) && tx.nonce !in done
    ensures Txs(done[tx.nonce := tx]) == Txs(done) + {tx}
  {
    forall t
      ensures t in Txs(done[tx.nonce := tx]) <==> t in Txs(done) || t == tx
    {
      TxsHold(done, t);
      TxsHold(done[tx.nonce := tx], t);
    }
  }

  function CapOf(b: Book, a: Address, accountQueue: nat): Option<nat> {
    if a in b.locals then None else Some(accountQueue)
  }

  /** The book after the queue of one account was promoted. */
  ghost function PromoteIn(b: Book, a: Address, accountQueue: nat): Book
    requires Complete(b)
  {
    Put(b, a, Promote(Get(b, a), NonceOf(b.world, a), FilterOf(b, a), CapOf(b, a, accountQueue)))
  }

  ghost function DemoteIn(b: Book, a: Address): Book
    requires Complete(b)
  {
    Put(b, a, Demote(Get(b, a), NonceOf(b.world, a), FilterOf(b, a)))
  }

  /** Without a queue there is nothing to promote. */
  lemma PromoteNothing(b: Book, a: Address, accountQueue: nat)
    requires Complete(b) && NoEmpty(b.pending) && NoEmpty(b.queue) && a !in b.queue
    ensures PromoteIn(b, a, accountQueue) == b
  {
    var x := Get(b, a);
    var f := FilterOf(b, a);
    assert Eligible(x, NonceOf(b.world, a), f) == map[];
    assert Readies(x, NonceOf(b.world, a), f) == map[];
    assert x.pending + map[] == x.pending;
    PutQueue(b, a, map[]);
    SetSame(b.queue, a);
  }

  lemma NoneReady(b: Book, a: Address)
    requires Complete(b) && a !in b.queue
    ensures Flat(ReadiesOf(b, a)) == []
  {
    assert Eligible(Get(b, a), NonceOf(b.world, a), FilterOf(b, a)) == map[];
  }

  ghost function EligibleOf(b: Book, a: Address): Items
    requires a in b.virtual
  {
    Eligible(Get(b, a), NonceOf(b.world, a), FilterOf(b, a))
  }

  ghost function ReadiesOf(b: Book, a: Address): Items
    requires a in b.virtual
  {
    Readies(Get(b, a), NonceOf(b.world, a), FilterOf(b, a))
  }

  ghost function RestOf(b: Book, a: Address): Items
    requires a in b.virtual
  {
    AfterRun(EligibleOf(b, a), b.virtual[a])
  }

  lemma SetAfterRemoval(m: Lists, a: Address, l: Items)
    ensures SetList(m - {a}, a, l) == SetList(m, a, l)
  {
  }

  /** An account is rewritten by taking its queue out first and putting it back last. */
  lemma PutInSteps(b: Book, c: Book, a: Address, y: Account)
    requires c == b.(queue := b.queue - {a}, pending := SetList(b.pending, a, y.pending),
             virtual := b.virtual[a := y.virtual])
    ensures Put(b, a, y) == c.(queue := SetList(c.queue, a, y.queue))
  {
    SetAfterRemoval(b.queue, a, y.queue);
  }

  /** Promotion as it is carried out: the queue is taken out, the ready ones are promoted, the rest is put back. */
  lemma PromoteInSteps(b: Book, c: Book, a: Address, accountQueue: nat, readies: Items, rest: Items, kept: Items,
                       extra: set<Tx>, left: set<Tx>)
    requires SoundBook(b)
    requires readies == ReadiesOf(b, a) && rest == RestOf(b, a)
    requires kept == if a in b.locals then rest else Lowest(rest, accountQueue)
    requires Promoting(b.(queue := b.queue - {a}), c, a, readies, extra, left)
    ensures PromoteIn(b, a, accountQueue) == c.(queue := SetList(c.queue, a, kept))
  {
    var y := Promote(Get(b, a), NonceOf(b.world, a), FilterOf(b, a), CapOf(b, a, accountQueue));
    assert y == Account(ListOf(b.pending, a) + readies, kept,
                        if readies == map[] then b.virtual[a] else Next(GreatestKey(readies)));
    SameVirtual(b.virtual, a);
    PutInSteps(b, c, a, y);
  }

  /** An account's pending list is taken out to be worked on. */
  lemma TakePending(b: Book, all: set<Tx>, a: Address)
    requires SoundBook(b) && Agrees(b, all, {})
    ensures var c := b.(pending := b.pending - {a});
            SoundBook(c) && Agrees(c, all, Txs(ListOf(b.pending, a)))
  {
    var x := Get(b, a);
    var y := Account(map[], x.queue, x.virtual);
    assert Sound(a, x);
    SameVirtual(b.virtual, a);
    PutPending(b, a, map[], x.virtual);
    PutSound(b, a, y);
    forall t
      ensures t in all <==> Pooled(Put(b, a, y), t) || t in Txs(x.pending)
      ensures t in Txs(x.pending) ==> !Pooled(Put(b, a, y), t)
    {
      var before := Pooled(b, t);
      PutPooled(b, a, y, t);
      TxsHold(x.pending, t);
    }
  }

  /** A list is put back as the account's pending list. */
  lemma ReturnPending(b: Book, all: set<Tx>, a: Address, p: Items)
    requires SoundBook(b) && Agrees(b, all, Txs(p)) && a !in b.pending && Own(a, p) && p.Keys !! ListOf(b.queue, a).Keys
    ensures var c := b.(pending := SetList(b.pending, a, p));
            SoundBook(c) && Agrees(c, all, {})
  {
    var x := Get(b, a);
    var y := Account(p, x.queue, x.virtual);
    assert Sound(a, x);
    SameVirtual(b.virtual, a);
    PutPending(b, a, p, x.virtual);
    PutSound(b, a, y);
    forall t
      ensures t in all <==> Pooled(Put(b, a, y), t)
    {
      var before := Pooled(b, t);
      PutPooled(b, a, y, t);
      TxsHold(p, t);
    }
  }

  /** What demotion keeps pending and what it moves to the queue. */
  ghost function KeptOf(b: Book, a: Address): Items {
    Executable(From(ListOf(b.pending, a), NonceOf(b.world, a)), FilterOf(b, a))
  }

  ghost function InvalidOf(b: Book, a: Address): Items {
    Invalidated(From(ListOf(b.pending, a), NonceOf(b.world, a)), FilterOf(b, a))
  }

  lemma DemoteParts(b: Book, a: Address)
    requires SoundBook(b)
    ensures Own(a, KeptOf(b, a)) && Own(a, InvalidOf(b, a)) && KeptOf(b, a).Keys !! InvalidOf(b, a).Keys
    ensures ListOf(b.queue, a).Keys !! KeptOf(b, a).Keys && ListOf(b.queue, a).Keys !! InvalidOf(b, a).Keys
  {
    assert Sound(a, Get(b, a));
  }

  /** Demotion as it is carried out. */
  lemma DemoteInSteps(b: Book, a: Address, queue: Lists, kept: Items)
    requires SoundBook(b)
    requires var gapped := KeptOf(b, a) != map[] && NonceOf(b.world, a) !in KeptOf(b, a);
             && kept == (if gapped then map[] else KeptOf(b, a))
             && queue == SetList(b.queue, a,
                                 ListOf(b.queue, a) + InvalidOf(b, a) + if gapped then KeptOf(b, a) else map[])
    ensures DemoteIn(b, a) == b.(pending := SetList(b.pending - {a}, a, kept), queue := queue)
  {
    SetAfterRemoval(b.pending, a, kept);
    SameVirtual(b.virtual, a);
    assert ListOf(b.queue, a) + InvalidOf(b, a) + map[] == ListOf(b.queue, a) + InvalidOf(b, a);
  }

  lemma TxsUnion(m: Items, k: Items)
    requires m.Keys !! k.Keys
    ensures Txs(m + k) == Txs(m) + Txs(k)
  {
    forall t | t in Txs(m) + Txs(k)
      ensures t in Txs(m + k)
    {
      if t in Txs(m) {
        var n :| n in m && m[n] == t;
        assert n in m + k && (m + k)[n] == t;
      } else {
        var n :| n in k && k[n] == t;
        assert n in m + k && (m + k)[n] == t;
      }
    }
  }

  lemma TxsDisjoint(m: Items, k: Items)
    requires Filed(m) && Filed(k) && m.Keys !! k.Keys
    ensures Txs(m) + Txs(k) - Txs(k) == Txs(m)
  {
    forall t | t in Txs(m)
      ensures t !in Txs(k)
    {
      TxsHold(m, t);
      TxsHold(k, t);
    }
  }

  lemma RemoveAbsent(m: Lists, a: Address)
    requires a !in m
    ensures SetList(m, a, map[]) == m
  {
  }

  lemma PostponeTwice(q: Lists, a: Address, list: Items, kept: Items)
    ensures list + map[] == list && ListOf(SetList(q, a, list), a) == list
    ensures SetList(SetList(q, a, list), a, list + kept) == SetList(q, a, list + kept)
    ensures Txs(map[]) == {} && Txs(map[]) + Txs(kept) == Txs(kept)
  {
    SetTwice(q, a, list, list + kept);
  }

  lemma {:induction false} RemoveAllPooled(b: Book, txs: seq<Tx>, other: Tx)
    requires SoundBook(b)
    ensures Pooled(RemoveAll(b, txs), other) <==> Pooled(b, other) && other !in txs
  {
    if txs != [] {
      RemoveAllKeeps(b, txs[..|txs| - 1]);
      RemoveAllPooled(b, txs[..|txs| - 1], other);
      RemovePooled(RemoveAll(b, txs[..|txs| - 1]), txs[|txs| - 1], other);
      assert txs == txs[..|txs| - 1] + [txs[|txs| - 1]];
    }
  }

  /** The list a new transaction goes to: the pending one if its nonce is taken there, else the queue. */
  ghost function TargetOf(b: Book, tx: Tx): Items {
    if tx.nonce in ListOf(b.pending, tx.sender) then ListOf(b.pending, tx.sender) else ListOf(b.queue, tx.sender)
  }

  lemma InsertPending(b: Book, tx: Tx)
    requires SoundBook(b) && tx.nonce in ListOf(b.pending, tx.sender)
    ensures Insert(b, tx) == b.(pending := FileTx(b.pending, tx))
  {
    assert tx.nonce in Replace(Get(b, tx.sender), tx).pending;
    PutPending(b, tx.sender, Replace(Get(b, tx.sender), tx).pending, b.virtual[tx.sender]);
    SameVirtual(b.virtual, tx.sender);
  }

  lemma InsertQueued(b: Book, tx: Tx)
    requires SoundBook(b) && tx.nonce !in ListOf(b.pending, tx.sender)
    ensures Insert(b, tx) == b.(queue := FileTx(b.queue, tx))
  {
    assert tx.nonce in Enqueue(Get(b, tx.sender), tx).queue;
    PutQueue(b, tx.sender, Enqueue(Get(b, tx.sender), tx).queue);
  }

  /** Replacing a pending transaction keeps the lookup in step. */
  lemma ReplaceAgrees(b: Book, all: set<Tx>, tx: Tx)
    requires SoundBook(b) && Agrees(b, all, {}) && tx.nonce in ListOf(b.pending, tx.sender) && tx !in all
    ensures var present := ListOf(b.pending, tx.sender)[tx.nonce];
            var c := b.(pending := FileTx(b.pending, tx));
            && present in all && present != tx
            && SoundBook(c) && Agrees(c, Recorded(all, Some(present), tx), {})
  {
    assert Sound(tx.sender, Get(b, tx.sender));
    PromoteAgrees(b, all, {}, tx, b.virtual[tx.sender]);
    SameVirtual(b.virtual, tx.sender);
    assert {} - {tx} == {};
  }

  /** Agreement depends only on the lists. */
  lemma SameListsAgree(b: Book, c: Book, all: set<Tx>, extra: set<Tx>)
    requires SoundBook(b) && Agrees(b, all, extra) && Complete(c) && c.pending == b.pending && c.queue == b.queue
    ensures SoundBook(c) && Agrees(c, all, extra)
  {
    forall d: Address
      ensures Sound(d, Get(c, d))
    {
      assert Sound(d, Get(b, d));
    }
    forall t
      ensures Pooled(c, t) <==> Pooled(b, t)
    {
    }
  }

  // The rounds of a run over all accounts.

  ghost function PromotedAccount(b: Book, a: Address, accountQueue: nat): Account
    requires Complete(b)
  {
    Promote(Get(b, a), NonceOf(b.world, a), FilterOf(b, a), CapOf(b, a, accountQueue))
  }

  ghost function DemotedAccount(b: Book, a: Address): Account
    requires Complete(b)
  {
    Demote(Get(b, a), NonceOf(b.world, a), FilterOf(b, a))
  }

  ghost predicate SameWorld(b0: Book, b: Book) {
    b.world == b0.world && b.maxGas == b0.maxGas && b.locals == b0.locals
  }

  /** The account has been rewritten, if its turn has come. */
  ghost predicate PromotedAt(b0: Book, b: Book, done: set<Address>, accountQueue: nat, a: Address)
    requires Complete(b0) && Complete(b)
  {
    Get(b, a) == if a in done then PromotedAccount(b0, a, accountQueue) else Get(b0, a)
  }

  /** The queues of some accounts have been promoted, each judged by the book the round started from. */
  ghost predicate PromotedRound(b0: Book, b: Book, done: set<Address>, accountQueue: nat)
    requires Complete(b0)
  {
    && SameWorld(b0, b) && Complete(b)
    && forall a: Address {:trigger PromotedAt(b0, b, done, accountQueue, a)} :: PromotedAt(b0, b, done, accountQueue, a)
  }

  lemma PromotedRoundStarts(b: Book, accountQueue: nat)
    requires Complete(b)
    ensures PromotedRound(b, b, {}, accountQueue)
  {
  }

  lemma PromotedRoundStep(b0: Book, b: Book, done: set<Address>, accountQueue: nat, a: Address)
    requires Complete(b0) && PromotedRound(b0, b, done, accountQueue) && a !in done
    ensures PromotedRound(b0, PromoteIn(b, a, accountQueue), done + {a}, accountQueue)
  {
    var c := PromoteIn(b, a, accountQueue);
    assert PromotedAt(b0, b, done, accountQueue, a);
    forall d: Address
      ensures PromotedAt(b0, c, done + {a}, accountQueue, d)
    {
      assert PromotedAt(b0, b, done, accountQueue, d);
      GetPut(b, a, PromotedAccount(b, a, accountQueue), d);
    }
  }

  ghost predicate DemotedAt(b0: Book, b: Book, done: set<Address>, a: Address)
    requires Complete(b0) && Complete(b)
  {
    Get(b, a) == if a in done then DemotedAccount(b0, a) else Get(b0, a)
  }

  ghost predicate DemotedRound(b0: Book, b: Book, done: set<Address>)
    requires Complete(b0)
  {
    && SameWorld(b0, b) && Complete(b)
    && forall a: Address {:trigger DemotedAt(b0, b, done, a)} :: DemotedAt(b0, b, done, a)
  }

  lemma DemotedRoundStarts(b: Book)
    requires Complete(b)
    ensures DemotedRound(b, b, {})
  {
  }

  /** An account whose turn has not come keeps its pending list. */
  lemma StillPending(b0: Book, b: Book, done: set<Address>, a: Address)
    requires SoundBook(b0) && DemotedRound(b0, b, done) && a !in done && a in b0.pending
    ensures a in b.pending
  {
    assert DemotedAt(b0, b, done, a) && Filled(b0.pending, a);
  }

  lemma DemotedRoundStep(b0: Book, b: Book, done: set<Address>, a: Address)
    requires Complete(b0) && DemotedRound(b0, b, done) && a !in done
    ensures DemotedRound(b0, DemoteIn(b, a), done + {a})
  {
    var c := DemoteIn(b, a);
    assert DemotedAt(b0, b, done, a);
    forall d: Address
      ensures DemotedAt(b0, c, done + {a}, d)
    {
      assert DemotedAt(b0, b, done, d);
      GetPut(b, a, DemotedAccount(b, a), d);
    }
  }

  ghost predicate RefreshedAt(b0: Book, b: Book, done: set<Address>, a: Address)
    requires Complete(b0) && Complete(b)
  {
    Get(b, a) == if a in done then Refresh(Get(b0, a)) else Get(b0, a)
  }

  ghost predicate RefreshedRound(b0: Book, b: Book, done: set<Address>)
    requires Complete(b0)
  {
    && SameWorld(b0, b) && Complete(b)
    && forall a: Address {:trigger RefreshedAt(b0, b, done, a)} :: RefreshedAt(b0, b, done, a)
  }

  lemma RefreshedRoundStarts(b: Book)
    requires Complete(b)
    ensures RefreshedRound(b, b, {})
  {
  }

  lemma RefreshedRoundStep(b0: Book, b: Book, done: set<Address>, a: Address)
    requires SoundBook(b0) && RefreshedRound(b0, b, done) && a !in done && a in b0.pending && b.pending == b0.pending
    requires b0.pending[a] != map[]
    ensures RefreshedRound(b0, b.(virtual := b.virtual[a := Next(GreatestKey(b.pending[a]))]), done + {a})
  {
    var c := b.(virtual := b.virtual[a := Next(GreatestKey(b.pending[a]))]);
    forall d: Address
      ensures RefreshedAt(b0, c, done + {a}, d)
    {
      assert RefreshedAt(b0, b, done, d);
    }
  }

  ghost predicate LiftedBook(b: Book)
    requires Complete(b)
  {
    forall a: Address :: IsLifted(Get(b, a), NonceOf(b.world, a), FilterOf(b, a))
  }

  /** Promoting some accounts between resets leaves every account settled. */
  lemma RoundSettled(b0: Book, b: Book, done: set<Address>, accountQueue: nat)
    requires Complete(b0) && PromotedRound(b0, b, done, accountQueue) && SettledBook(b0) && SmallBook(b0)
    ensures SettledBook(b)
  {
    forall a: Address
      ensures Settled(Get(b, a), NonceOf(b.world, a), FilterOf(b, a))
    {
      assert PromotedAt(b0, b, done, accountQueue, a);
      assert Settled(Get(b0, a), NonceOf(b0.world, a), FilterOf(b0, a));
      if a in done {
        SmallReadies(b0, a);
        PromoteSettled(Get(b0, a), NonceOf(b0.world, a), FilterOf(b0, a), CapOf(b0, a, accountQueue));
      }
    }
  }

  lemma SmallReadies(b: Book, a: Address)
    requires Complete(b) && SmallBook(b)
    ensures Small(ReadiesOf(b, a))
  {
    assert Small(Get(b, a).queue);
  }

  /** After a reset, promoting every queue lifts every account. */
  lemma RoundLifts(b0: Book, b: Book, done: set<Address>, accountQueue: nat)
    requires SoundBook(b0) && PromotedRound(b0, b, done, accountQueue) && AdriftBook(b0) && SmallBook(b0)
    requires b0.queue.Keys <= done
    ensures LiftedBook(b)
  {
    forall a: Address
      ensures IsLifted(Get(b, a), NonceOf(b.world, a), FilterOf(b, a))
    {
      assert PromotedAt(b0, b, done, accountQueue, a);
      var lo, hi := BookAdrift(b0, a);
      SmallReadies(b0, a);
      if a !in done {
        PromoteNothing(b0, a, accountQueue);
        GetPut(b0, a, PromotedAccount(b0, a, accountQueue), a);
      }
      var top := PromoteLifts(Get(b0, a), NonceOf(b0.world, a), FilterOf(b0, a), CapOf(b0, a, accountQueue), lo, hi);
    }
  }

  lemma DemoteNothing(b: Book, a: Address)
    requires Complete(b) && a !in b.pending
    ensures DemotedAccount(b, a) == Get(b, a)
  {
    var x := Get(b, a);
    assert From(x.pending, NonceOf(b.world, a)) == map[];
    assert KeptOf(b, a) == map[] && InvalidOf(b, a) == map[];
    assert x.queue + map[] == x.queue;
  }

  /** Demotion leaves in every account a payable run from its state nonce on. */
  lemma RoundTrims(b0: Book, b: Book)
    requires Complete(b0) && DemotedRound(b0, b, b0.pending.Keys) && LiftedBook(b0)
    ensures TrimmedBook(b)
  {
    forall a: Address
      ensures IsTrimmed(Get(b, a), NonceOf(b.world, a), FilterOf(b, a))
    {
      assert DemotedAt(b0, b, b0.pending.Keys, a);
      assert IsLifted(Get(b0, a), NonceOf(b0.world, a), FilterOf(b0, a));
      var top: nat :| Lifted(Get(b0, a), NonceOf(b0.world, a), FilterOf(b0, a), top);
      if a !in b0.pending {
        DemoteNothing(b0, a);
      }
      var cut := DemoteTrims(Get(b0, a), NonceOf(b0.world, a), FilterOf(b0, a), top);
    }
  }

  lemma SettledTrims(b: Book)
    requires Complete(b) && SettledBook(b)
    ensures TrimmedBook(b)
  {
    forall a: Address
      ensures IsTrimmed(Get(b, a), NonceOf(b.world, a), FilterOf(b, a))
    {
      assert Settled(Get(b, a), NonceOf(b.world, a), FilterOf(b, a));
      var top := SettledIsTrimmed(Get(b, a), NonceOf(b.world, a), FilterOf(b, a));
    }
  }

  /** Setting the virtual nonces behind the pending lists settles every account. */
  lemma RoundSettles(b0: Book, b: Book)
    requires Complete(b0) && RefreshedRound(b0, b, b0.pending.Keys) && TrimmedBook(b0) && SmallBook(b0)
    ensures SettledBook(b)
  {
    forall a: Address
      ensures Settled(Get(b, a), NonceOf(b.world, a), FilterOf(b, a))
    {
      assert RefreshedAt(b0, b, b0.pending.Keys, a);
      var top := BookTrimmed(b0, a);
      assert Small(Get(b0, a).pending);
      RefreshSettles(Get(b0, a), NonceOf(b0.world, a), FilterOf(b0, a), top);
    }
  }

  // No round of a run changes an account's standing.

  lemma RoundPromotedStanding(b0: Book, b: Book, done: set<Address>, accountQueue: nat)
    requires Complete(b0) && PromotedRound(b0, b, done, accountQueue) && SmallBook(b0)
    ensures SameStanding(b0, b)
  {
    forall a: Address
      ensures AbreastIn(b, a) <==> AbreastIn(b0, a)
    {
      assert PromotedAt(b0, b, done, accountQueue, a);
      SmallReadies(b0, a);
      PromoteAbreast(Get(b0, a), NonceOf(b0.world, a), FilterOf(b0, a), CapOf(b0, a, accountQueue));
    }
  }

  lemma RoundDemotedStanding(b0: Book, b: Book, done: set<Address>)
    requires Complete(b0) && DemotedRound(b0, b, done)
    ensures SameStanding(b0, b)
  {
    forall a: Address
      ensures AbreastIn(b, a) <==> AbreastIn(b0, a)
    {
      assert DemotedAt(b0, b, done, a);
    }
  }

  lemma RoundRefreshedStanding(b0: Book, b: Book)
    requires Complete(b0) && RefreshedRound(b0, b, b0.pending.Keys) && TrimmedBook(b0) && SmallBook(b0)
    ensures SameStanding(b0, b)
  {
    forall a: Address
      ensures AbreastIn(b, a) <==> AbreastIn(b0, a)
    {
      assert RefreshedAt(b0, b, b0.pending.Keys, a);
      var top := BookTrimmed(b0, a);
      assert Small(Get(b0, a).pending);
      RefreshAbreast(Get(b0, a), NonceOf(b0.world, a), FilterOf(b0, a), top);
    }
  }

  lemma StandingThrough(b: Book, c: Book, d: Book)
    requires SameStanding(b, c) && SameStanding(c, d)
    ensures SameStanding(b, d)
  {
    forall a: Address
      ensures AbreastIn(d, a) <==> AbreastIn(b, a)
    {
      assert AbreastIn(d, a) <==> AbreastIn(c, a);
    }
  }

  lemma SettledDrifts(b: Book)
    requires Complete(b) && SettledBook(b)
    ensures AdriftBook(b)
  {
    forall a: Address
      ensures IsAdrift(Get(b, a), NonceOf(b.world, a), FilterOf(b, a))
    {
      assert Settled(Get(b, a), NonceOf(b.world, a), FilterOf(b, a));
      SettledIsAdrift(Get(b, a), NonceOf(b.world, a), FilterOf(b, a));
    }
  }

  /** The state moves on to one that lowers no nonce, and the virtual nonces are forgotten. */
  lemma ResetDrifts(b: Book, world: World, maxGas: nat)
    requires Complete(b) && SettledBook(b) && forall a: Address :: NonceOf(b.world, a) <= NonceOf(world, a)
    ensures var c := b.(world := world, maxGas := maxGas, virtual := StateNonces(world));
            Complete(c) && AdriftBook(c)
  {
    var c := b.(world := world, maxGas := maxGas, virtual := StateNonces(world));
    forall a: Address
      ensures IsAdrift(Get(c, a), NonceOf(c.world, a), FilterOf(c, a))
    {
      assert Settled(Get(b, a), NonceOf(b.world, a), FilterOf(b, a));
      RebaseAdrift(Get(b, a), NonceOf(b.world, a), FilterOf(b, a), NonceOf(world, a), FilterOf(c, a));
      assert Get(c, a) == Account(Get(b, a).pending, Get(b, a).queue, NonceOf(world, a));
    }
  }

  lemma SettledLoose(b: Book)
    requires Complete(b) && SettledBook(b)
    ensures LooseBook(b)
  {
    SettledDrifts(b);
  }

  /** Whatever the state moves to, every account is loose when the virtual nonces are forgotten. */
  lemma ResetLoosens(b: Book, world: World, maxGas: nat)
    requires Complete(b) && SettledBook(b)
    ensures var c := b.(world := world, maxGas := maxGas, virtual := StateNonces(world));
            Complete(c) && LooseBook(c)
  {
    hide Adrift, Lowered, Settled;
    var c := b.(world := world, maxGas := maxGas, virtual := StateNonces(world));
    forall a: Address
      ensures IsLoose(Get(c, a), NonceOf(c.world, a), FilterOf(c, a))
    {
      var x, nonce, nonce' := Get(b, a), NonceOf(b.world, a), NonceOf(world, a);
      assert Settled(x, nonce, FilterOf(b, a));
      assert Get(c, a) == Account(x.pending, x.queue, nonce');
      if nonce <= nonce' {
        RebaseAdrift(x, nonce, FilterOf(b, a), nonce', FilterOf(c, a));
      } else {
        RebaseLowers(x, nonce, FilterOf(b, a), nonce');
        if x.pending == map[] {
          VacantDrifts(Get(c, a), nonce', FilterOf(c, a));
        }
      }
    }
  }

  /** The highest pending transaction of an account leaves the pool. */
  lemma DropAgrees(b: Book, all: set<Tx>, a: Address)
    requires SoundBook(b) && Agrees(b, all, {}) && a in b.pending && b.pending[a] != map[]
    ensures var x := Get(b, a);
            var g := GreatestKey(x.pending);
            var tx := x.pending[g];
            var c := Put(b, a, DropHighest(x));
            && tx in all && SoundBook(c) && Agrees(c, all - {tx}, {})
            && c == b.(pending := SetList(b.pending, a, x.pending - {g}),
                       virtual := b.virtual[a := Min(b.virtual[a], g)])
  {
    var x := Get(b, a);
    assert Filled(b.pending, a) && Sound(a, x);
    var g := GreatestKey(x.pending);
    var tx := x.pending[g];
    var y := DropHighest(x);
    PutSound(b, a, y);
    PutPending(b, a, y.pending, y.virtual);
    assert Pooled(b, tx);
    forall t
      ensures t in all - {tx} <==> Pooled(Put(b, a, y), t)
    {
      var before := Pooled(b, t);
      PutPooled(b, a, y, t);
    }
  }

  /** Removing a queued transaction touches its queue only. */
  lemma RemoveQueuedIs(b: Book, a: Address, n: nat)
    requires SoundBook(b) && n in ListOf(b.queue, a)
    ensures var tx := ListOf(b.queue, a)[n];
            RemoveTx(b, tx) == b.(queue := SetList(b.queue, a, ListOf(b.queue, a) - {n}))
  {
    assert Sound(a, Get(b, a));
    PutQueue(b, a, ListOf(b.queue, a) - {n});
  }

  // A run adds no nonce, so none of its rounds can introduce the largest one.

  lemma RoundPromotedSmall(b0: Book, b: Book, done: set<Address>, accountQueue: nat)
    requires Complete(b0) && PromotedRound(b0, b, done, accountQueue) && SmallBook(b0)
    ensures SmallBook(b)
  {
    forall a: Address
      ensures SmallAccount(Get(b, a))
    {
      assert PromotedAt(b0, b, done, accountQueue, a);
      assert Small(Get(b0, a).pending) && Small(Get(b0, a).queue);
      PromoteParts(Get(b0, a), NonceOf(b0.world, a), FilterOf(b0, a), CapOf(b0, a, accountQueue));
    }
  }

  lemma RoundDemotedSmall(b0: Book, b: Book, done: set<Address>)
    requires Complete(b0) && DemotedRound(b0, b, done) && SmallBook(b0)
    ensures SmallBook(b)
  {
    forall a: Address
      ensures SmallAccount(Get(b, a))
    {
      assert DemotedAt(b0, b, done, a);
      assert Small(Get(b0, a).pending) && Small(Get(b0, a).queue);
      DemoteSmall(Get(b0, a), NonceOf(b0.world, a), FilterOf(b0, a));
    }
  }

  lemma RoundRefreshedSmall(b0: Book, b: Book, done: set<Address>)
    requires Complete(b0) && RefreshedRound(b0, b, done) && SmallBook(b0)
    ensures SmallBook(b)
  {
    forall a: Address
      ensures SmallAccount(Get(b, a))
    {
      assert RefreshedAt(b0, b, done, a);
      assert Small(Get(b0, a).pending) && Small(Get(b0, a).queue);
    }
  }

  lemma RebaseSmall(b: Book, world: World, maxGas: nat)
    requires Complete(b)
    ensures var c := b.(world := world, maxGas := maxGas, virtual := StateNonces(world));
            Complete(c) && (SmallBook(b) ==> SmallBook(c))
  {
    var c := b.(world := world, maxGas := maxGas, virtual := StateNonces(world));
    if SmallBook(b) {
      forall a: Address
        ensures Small(Get(c, a).pending) && Small(Get(c, a).queue)
      {
        assert Small(Get(b, a).pending) && Small(Get(b, a).queue);
      }
    }
  }
}
