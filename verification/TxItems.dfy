/**
 The contents of an account's transaction list: a map from nonce to transaction, and the plain
 operations on it that the heap and cache based implementation refines.
 */
module TxItems {
  import opened ChainTree

  type Items = map<nat, Tx>

  /** Every transaction is filed under its own nonce. */
  ghost predicate Filed(m: Items) {
    forall n: nat :: n in m ==> m[n].nonce == n
  }

  function Below(m: Items, t: nat): Items {
    map n | n in m && n < t :: m[n]
  }

  function From(m: Items, t: nat): Items {
    map n | n in m && n >= t :: m[n]
  }

  function Matching(m: Items, f: Tx -> bool): Items {
    map n | n in m && f(m[n]) :: m[n]
  }

  function Without(m: Items, f: Tx -> bool): Items {
    map n | n in m && !f(m[n]) :: m[n]
  }

  predicate IsLeastKey(m: Items, n: nat) {
    n in m && forall k: nat :: k in m ==> n <= k
  }

  predicate IsGreatestKey(m: Items, n: nat) {
    n in m && forall k: nat :: k in m ==> k <= n
  }

  lemma {:induction false} LeastKeyExists(m: Items)
    requires m != map[]
    ensures exists n: nat :: IsLeastKey(m, n)
    decreases |m|
  {
    var n :| n in m;
    var rest := m - {n};
    if rest == map[] {
      assert m.Keys == {n} + rest.Keys;
      assert IsLeastKey(m, n);
    } else {
      LeastKeyExists(rest);
      var l: nat :| IsLeastKey(rest, l);
      assert forall k: nat :: k in m ==> k == n || k in rest;
      assert IsLeastKey(m, if n < l then n else l);
    }
  }

  function LeastKey(m: Items): (n: nat)
    requires m != map[]
    ensures IsLeastKey(m, n)
  {
    LeastKeyExists(m);
    assert forall k: nat, l: nat :: IsLeastKey(m, k) && IsLeastKey(m, l) ==> k == l;
    var n: nat :| IsLeastKey(m, n);
    n
  }

  /** The transactions in increasing order of nonce. */
  function Flat(m: Items): (s: seq<Tx>)
    ensures |s| == |m|
    decreases |m|
  {
    if m == map[] then [] else [m[LeastKey(m)]] + Flat(m - {LeastKey(m)})
  }

  ghost predicate Ascending(s: seq<Tx>) {
    forall i, j :: 0 <= i < j < |s| ==> s[i].nonce < s[j].nonce
  }

  /** The sequence lists every transaction of the map once, in any order. */
  ghost predicate Lists(s: seq<Tx>, m: Items) {
    && |s| == |m|
    && (forall tx :: tx in s <==> Holds(m, tx))
  }

  predicate Holds(m: Items, tx: Tx) {
    tx.nonce in m && m[tx.nonce] == tx
  }

  lemma {:induction false} FlatHolds(m: Items, tx: Tx)
    requires Filed(m)
    ensures tx in Flat(m) <==> Holds(m, tx)
    decreases |m|
  {
    if m != map[] {
      var n := LeastKey(m);
      FlatHolds(m - {n}, tx);
      assert Holds(m, tx) <==> tx == m[n] || Holds(m - {n}, tx);
    }
  }

  lemma {:induction false} FlatAscending(m: Items)
    requires Filed(m)
    ensures Ascending(Flat(m))
    decreases |m|
  {
    if m != map[] {
      var n := LeastKey(m);
      var rest := Flat(m - {n});
      FlatAscending(m - {n});
      forall i | 0 <= i < |rest|
        ensures n < rest[i].nonce
      {
        FlatHolds(m - {n}, rest[i]);
      }
    }
  }

  lemma FlatFacts(m: Items)
    requires Filed(m)
    ensures Ascending(Flat(m)) && Lists(Flat(m), m)
  {
    FlatAscending(m);
    forall tx
      ensures tx in Flat(m) <==> Holds(m, tx)
    {
      FlatHolds(m, tx);
    }
  }

  /** The ascending listing is unique. */
  lemma {:induction false} FlatUnique(s: seq<Tx>, m: Items)
    requires Filed(m) && Ascending(s) && Lists(s, m)
    ensures s == Flat(m)
    decreases |m|
  {
    if m != map[] {
      var n := LeastKey(m);
      assert Holds(m, m[n]) && m[n] in s;
      assert s[0] in s && Holds(m, s[0]);
      assert s[0] == m[n];
      ListsTail(s, m, n);
      FlatUnique(s[1..], m - {n});
    }
  }

  lemma ListsTail(s: seq<Tx>, m: Items, n: nat)
    requires Ascending(s) && Lists(s, m) && s != [] && n in m && s[0] == m[n] && s[0].nonce == n
    ensures Ascending(s[1..]) && Lists(s[1..], m - {n})
  {
    forall tx
      ensures tx in s[1..] <==> Holds(m - {n}, tx)
    {
      assert tx in s <==> Holds(m, tx);
      assert tx in s <==> tx == s[0] || tx in s[1..] by { assert s == [s[0]] + s[1..]; }
    }
  }

  lemma ListsInit(s: seq<Tx>, m: Items, n: nat)
    requires Ascending(s) && Lists(s, m) && s != [] && n in m && s[|s| - 1] == m[n] && s[|s| - 1].nonce == n
    ensures Ascending(s[..|s| - 1]) && Lists(s[..|s| - 1], m - {n})
  {
    forall tx
      ensures tx in s[..|s| - 1] <==> Holds(m - {n}, tx)
    {
      assert tx in s <==> Holds(m, tx);
      assert tx in s <==> tx == s[|s| - 1] || tx in s[..|s| - 1] by { assert s == s[..|s| - 1] + [s[|s| - 1]]; }
    }
  }

  /** Removing the least nonce drops the front of the listing. */
  lemma FlatTail(m: Items, n: nat)
    requires IsLeastKey(m, n)
    ensures Flat(m)[0] == m[n] && Flat(m - {n}) == Flat(m)[1..]
  {
  }

  /** Removing the greatest nonce drops its back. */
  lemma FlatInit(m: Items, n: nat)
    requires Filed(m) && IsGreatestKey(m, n)
    ensures Flat(m)[|m| - 1] == m[n] && Flat(m - {n}) == Flat(m)[..|m| - 1]
  {
    FlatFacts(m);
    var s := Flat(m);
    assert Holds(m, m[n]) && m[n] in s;
    assert s[|s| - 1] in s && Holds(m, s[|s| - 1]);
    assert s[|s| - 1] == m[n];
    ListsInit(s, m, n);
    FlatUnique(s[..|s| - 1], m - {n});
  }

  /** The k transactions of least nonce, or all of them if there are no more. */
  function Lowest(m: Items, k: nat): Items
    decreases |m|
  {
    if |m| <= k then m else Lowest(m - {GreatestKey(m)}, k)
  }

  lemma {:induction false} GreatestKeyExists(m: Items)
    requires m != map[]
    ensures exists n: nat :: IsGreatestKey(m, n)
    decreases |m|
  {
    var n :| n in m;
    var rest := m - {n};
    assert forall k: nat :: k in m ==> k == n || k in rest;
    if rest == map[] {
      assert IsGreatestKey(m, n);
    } else {
      GreatestKeyExists(rest);
      var g: nat :| IsGreatestKey(rest, g);
      assert IsGreatestKey(m, if n > g then n else g);
    }
  }

  function GreatestKey(m: Items): (n: nat)
    requires m != map[]
    ensures IsGreatestKey(m, n)
  {
    GreatestKeyExists(m);
    assert forall k: nat, l: nat :: IsGreatestKey(m, k) && IsGreatestKey(m, l) ==> k == l;
    var n: nat :| IsGreatestKey(m, n);
    n
  }

  /** The lowest transactions are the front of the listing. */
  lemma {:induction false} LowestIsPrefix(m: Items, k: nat)
    requires Filed(m)
    ensures Filed(Lowest(m, k)) && |Lowest(m, k)| == (if k < |m| then k else |m|)
    ensures Flat(Lowest(m, k)) == Flat(m)[..|Lowest(m, k)|]
    decreases |m|
  {
    if |m| > k {
      FlatInit(m, GreatestKey(m));
      LowestIsPrefix(m - {GreatestKey(m)}, k);
    }
  }

  /** A list is determined by its listing. */
  lemma FlatInjective(a: Items, b: Items)
    requires Filed(a) && Filed(b) && Flat(a) == Flat(b)
    ensures a == b
  {
    forall n: nat | n in a
      ensures n in b && b[n] == a[n]
    {
      FlatHolds(a, a[n]);
      FlatHolds(b, a[n]);
    }
    forall n: nat | n in b
      ensures n in a
    {
      FlatHolds(a, b[n]);
      FlatHolds(b, b[n]);
    }
  }

  lemma PartitionSize(m: Items, f: Tx -> bool)
    ensures |Matching(m, f)| + |Without(m, f)| == |m|
  {
    assert m.Keys == Matching(m, f).Keys + Without(m, f).Keys;
    assert Matching(m, f).Keys !! Without(m, f).Keys;
  }

  /** The first nonce from n on that the map does not hold. */
  function Gap(m: Items, n: nat): (g: nat)
    ensures g >= n && g !in m && forall k: nat :: n <= k < g ==> k in m
    decreases |From(m, n)|
  {
    if n !in m then n
    else
      assert From(m, n).Keys == From(m, n + 1).Keys + {n};
      Gap(m, n + 1)
  }

  /** What is left after the consecutive run from the least nonce was taken out. */
  function AfterRun(m: Items, start: nat): Items {
    if m == map[] || LeastKey(m) > start then m else From(m, Gap(m, LeastKey(m)))
  }

  /** What a transaction can cost its sender at most. */
  function Cost(tx: Tx): int {
    tx.value + tx.price * tx.gas
  }

  /** The transaction needs more funds or more gas than available. */
  predicate Unpayable(tx: Tx, costLimit: int, gasLimit: nat) {
    tx.gas > gasLimit || Cost(tx) > costLimit
  }

  /** Whether a transaction may enter a list: its nonce is free, or it outbids the present one by the price bump. */
  predicate Accepts(m: Items, tx: Tx, priceBump: nat) {
    tx.nonce in m ==>
      var present := m[tx.nonce];
      present.price < tx.price && tx.price >= (100 + priceBump) * present.price / 100
  }

  /** The same sender and nonce, a higher price, and less than one unit short of the bump in percent. */
  predicate Outbids(tx: Tx, present: Tx, priceBump: nat) {
    && tx.sender == present.sender && tx.nonce == present.nonce && tx.price > present.price
    && 100 * (tx.price + 1) > (100 + priceBump) * present.price
  }

  lemma AcceptsIff(m: Items, tx: Tx, priceBump: nat)
    requires tx.nonce in m ==> m[tx.nonce].sender == tx.sender && m[tx.nonce].nonce == tx.nonce
    ensures Accepts(m, tx, priceBump) <==> tx.nonce !in m || Outbids(tx, m[tx.nonce], priceBump)
  {
    if tx.nonce in m {
      var bumped := (100 + priceBump) * m[tx.nonce].price;
      assert bumped / 100 * 100 <= bumped < (bumped / 100 + 1) * 100;
    }
  }

  /** The filter of a list against its account's funds and the block gas limit. */
  function Unaffordable(costLimit: int, gasLimit: nat): Tx -> bool {
    tx => Unpayable(tx, costLimit, gasLimit)
  }

  predicate NoneUpTo(m: Items, f: Tx -> bool, n: nat) {
    forall k: nat :: k in m && k <= n ==> !f(m[k])
  }

  /** What a strict list keeps: the transactions below the first filtered one. */
  function Executable(m: Items, f: Tx -> bool): Items {
    map n | n in m && NoneUpTo(m, f, n) :: m[n]
  }

  /** The transactions above the first filtered one that are not filtered themselves. */
  function Invalidated(m: Items, f: Tx -> bool): Items {
    map n | n in m && !f(m[n]) && !NoneUpTo(m, f, n) :: m[n]
  }

  /** The kept, removed and invalidated parts make up the list. */
  lemma FilterPartitions(m: Items, f: Tx -> bool)
    ensures var kept, removed, invalid := Executable(m, f), Matching(m, f), Invalidated(m, f);
            && kept.Keys + removed.Keys + invalid.Keys == m.Keys
            && kept.Keys !! removed.Keys !! invalid.Keys
            && kept + removed + invalid == m
  {
    var kept, removed, invalid := Executable(m, f), Matching(m, f), Invalidated(m, f);
    forall n: nat | n in m
      ensures n in kept || n in removed || n in invalid
    {
    }
  }

  /** On a gapless list the kept part is a gapless run that ends right below the first filtered nonce. */
  lemma ExecutableIsRun(m: Items, f: Tx -> bool, lo: nat, hi: nat) returns (cut: nat)
    requires lo <= hi && forall n: nat :: n in m <==> lo <= n < hi
    ensures lo <= cut <= hi
    ensures forall n: nat :: n in Executable(m, f) <==> lo <= n < cut
    ensures cut < hi ==> f(m[cut])
    ensures forall n: nat :: n in Invalidated(m, f) ==> cut < n < hi
  {
    cut := lo;
    while cut < hi && !f(m[cut])
      invariant lo <= cut <= hi
      invariant forall n: nat :: lo <= n < cut ==> !f(m[n])
    {
      cut := cut + 1;
    }
  }

  lemma {:induction false} LowestIsPart(m: Items, k: nat)
    ensures forall n: nat :: n in Lowest(m, k) ==> n in m && Lowest(m, k)[n] == m[n]
    decreases |m|
  {
    if |m| > k {
      LowestIsPart(m - {GreatestKey(m)}, k);
    }
  }

  /** A listing that is one longer adds the next nonce. */
  lemma ListingGrows(low: Items, top: Items, k: nat)
    requires Filed(low) && Filed(top) && |top| == k + 1 && Flat(low) == Flat(top)[..k]
    ensures var tx := Flat(top)[k];
            Holds(top, tx) && IsGreatestKey(top, tx.nonce) && tx.nonce !in low && top == low[tx.nonce := tx]
  {
    var g := GreatestKey(top);
    FlatInit(top, g);
    FlatInjective(top - {g}, low);
    assert top == (top - {g})[g := top[g]];
  }

  /** Each further transaction of the listing extends the lowest part by its next nonce. */
  lemma LowestStep(m: Items, k: nat)
    requires Filed(m) && k < |m|
    ensures var tx := Flat(m)[k];
            && Holds(m, tx) && tx.nonce !in Lowest(m, k)
            && Lowest(m, k + 1) == Lowest(m, k)[tx.nonce := tx]
            && IsGreatestKey(Lowest(m, k + 1), tx.nonce)
  {
    hide Lowest, Flat;
    LowestIsPrefix(m, k);
    LowestIsPrefix(m, k + 1);
    LowestIsPart(m, k + 1);
    assert Flat(m)[..k + 1][..k] == Flat(m)[..k] && Flat(m)[..k + 1][k] == Flat(m)[k];
    ListingGrows(Lowest(m, k), Lowest(m, k + 1), k);
  }

  lemma LowestEnds(m: Items)
    ensures Lowest(m, 0) == map[] && Lowest(m, |m|) == m
  {
    LowestZero(m);
  }

  lemma {:induction false} LowestZero(m: Items)
    ensures Lowest(m, 0) == map[]
    decreases |m|
  {
    if |m| > 0 {
      LowestZero(m - {GreatestKey(m)});
    }
  }

  lemma {:induction false} LowestSize(m: Items, k: nat)
    ensures |Lowest(m, k)| == if |m| < k then |m| else k
    decreases |m|
  {
    if |m| > k {
      var g := GreatestKey(m);
      assert (m - {g}).Keys == m.Keys - {g};
      LowestSize(m - {g}, k);
    }
  }

  /** The front of a listing is the least transaction; without it the rest is listed. */
  lemma ListingFront(m: Items, txs: seq<Tx>, i: nat)
    requires Filed(m) && i < |txs| && Flat(m) == txs[i..]
    ensures Holds(m, txs[i]) && Filed(m - {txs[i].nonce}) && Flat(m - {txs[i].nonce}) == txs[i + 1..]
  {
    var n := LeastKey(m);
    FlatTail(m, n);
    assert txs[i..][0] == txs[i] && txs[i..][1..] == txs[i + 1..];
  }

  lemma ListingEmpty(m: Items)
    ensures |Flat(m)| == 0 ==> m == map[]
  {
  }

  /** Going down a listing takes the lowest parts back one by one. */
  lemma LowestBack(m: Items, i: nat)
    requires Filed(m) && i < |m|
    ensures var tx := Flat(m)[i];
            Holds(Lowest(m, i + 1), tx) && Lowest(m, i) == Lowest(m, i + 1) - {tx.nonce}
  {
    LowestStep(m, i);
  }
}
