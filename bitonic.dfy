/** The arbitrary-length bitonic network the garbled-circuit sort runs
    (src/GC/sort.cpp).  `CleanNet`, `MergeNet` and `SortNet` give, as a tree of
    calls, the compare-exchanges that the half-cleaner loop, `bitonic_merge` and
    `bitonic_sort` perform; they depend on the range and the direction only, never
    on the keys.  `Run` executes such a network on a key sequence and `RunLog`
    gives the swap log it records.  The imperative sort in module `Sort` is proved
    against these functions. */
module BitonicNetwork {
  import opened SwapLog
  import opened Bits

  /** `m` is a power of two. */
  predicate IsPow2(m: nat)
    decreases m
  {
    if m <= 1 then m == 1 else m % 2 == 0 && IsPow2(m / 2)
  }

  lemma {:induction false} Pow2IsPow2(k: nat)
    ensures IsPow2(Pow2(k))
  {
    if k > 0 {
      Pow2IsPow2(k - 1);
    }
  }

  /** Of two powers of two, the smaller is at most half the larger. */
  lemma {:induction false} Pow2Gap(a: nat, b: nat)
    requires IsPow2(a) && IsPow2(b) && a < b
    ensures 2 * a <= b
    decreases a
  {
    if a > 1 {
      Pow2Gap(a / 2, b / 2);
    }
  }

  /** A power of two larger than 1 is twice a power of two. */
  lemma {:induction false} HalfIsPow2(n: nat)
    requires IsPow2(n) && n >= 2
    ensures IsPow2(n / 2) && n == 2 * (n / 2)
  {
  }

  /** emp's `greatestPowerOfTwoLessThan(n)` (defined outside this repository): the
      largest power of two strictly below `n`, which bitonic_merge uses as its split
      point.  emp doubles `k` from 1 while `k < n` and returns `k / 2`; `Climb`
      does the doubling and stops one step early.  That the result is a power of
      two is `GreatestPowerOfTwoLessThanIsPow2`. */
  function GreatestPowerOfTwoLessThan(n: nat): (m: nat)
    requires n >= 2
    ensures 1 <= m < n <= 2 * m
  {
    Climb(n, 1)
  }

  /** The doubling loop, from `k`: the last `k * 2^i` below `n`. */
  function Climb(n: nat, k: nat): (m: nat)
    requires 1 <= k < n
    ensures k <= m < n <= 2 * m
    decreases n - k
  {
    if 2 * k < n then Climb(n, 2 * k) else k
  }

  lemma {:induction false} ClimbIsPow2(n: nat, k: nat)
    requires 1 <= k < n && IsPow2(k)
    ensures IsPow2(Climb(n, k))
    decreases n - k
  {
    if 2 * k < n {
      assert IsPow2(2 * k) by {
        assert (2 * k) / 2 == k;
      }
      ClimbIsPow2(n, 2 * k);
    }
  }

  lemma GreatestPowerOfTwoLessThanIsPow2(n: nat)
    requires n >= 2
    ensures IsPow2(GreatestPowerOfTwoLessThan(n))
  {
    ClimbIsPow2(n, 1);
  }

  /** There is only one power of two with that property. */
  lemma {:induction false} PowerBelowUnique(m1: nat, m2: nat, n: nat)
    requires IsPow2(m1) && m1 < n <= 2 * m1
    requires IsPow2(m2) && m2 < n <= 2 * m2
    ensures m1 == m2
  {
    if m1 < m2 { Pow2Gap(m1, m2); }
    if m2 < m1 { Pow2Gap(m2, m1); }
  }

  /** Below a power of two it is the half. */
  lemma {:induction false} GreatestPowerOfTwoLessThanHalf(n: nat)
    requires IsPow2(n) && n >= 2
    ensures GreatestPowerOfTwoLessThan(n) == n / 2
  {
    HalfIsPow2(n);
    GreatestPowerOfTwoLessThanIsPow2(n);
    PowerBelowUnique(GreatestPowerOfTwoLessThan(n), n / 2, n);
  }


  /** `up` orders `a` before `b`: ascending when `up`, descending otherwise. */
  predicate Ordered(up: bool, a: int, b: int)
  {
    if up then a <= b else b <= a
  }

  /** The positions `[lo, hi)` of `s` are in `up` order. */
  predicate SortedRange(s: seq<int>, lo: nat, hi: nat, up: bool)
    requires hi <= |s|
  {
    forall p, q :: lo <= p < q < hi ==> Ordered(up, s[p], s[q])
  }

  /** What a compare-exchange in direction `up` leaves in its first and second position. */
  function Low(up: bool, a: int, b: int): int
  {
    if (a > b) == up then b else a
  }

  function High(up: bool, a: int, b: int): int
  {
    if (a > b) == up then a else b
  }
  /** One `cmp_swap(key, data, i, j, acc)` call of the network, before any key is known. */
  datatype Comparator = Comparator(i: nat, j: nat, up: bool)

  /** The compare-exchanges a call of the network performs, as the tree of calls
      that issues them: none, one, or those of one call followed by another's.
      Flattened left to right it lists them in execution order. */
  datatype Network = Skip | Compare(c: Comparator) | Then(first: Network, second: Network)

  /** Every comparator of `net` compares two positions `lo <= i < j < hi`. */
  predicate Between(net: Network, lo: nat, hi: nat)
  {
    match net
    case Skip => true
    case Compare(c) => lo <= c.i < c.j < hi
    case Then(a, b) => Between(a, lo, hi) && Between(b, lo, hi)
  }

  lemma {:induction false} BetweenWiden(net: Network, lo: nat, hi: nat, lo': nat, hi': nat)
    requires Between(net, lo, hi) && lo' <= lo && hi <= hi'
    ensures Between(net, lo', hi')
  {
    match net
    case Skip =>
    case Compare(c) =>
    case Then(a, b) =>
      BetweenWiden(a, lo, hi, lo', hi');
      BetweenWiden(b, lo, hi, lo', hi');
  }

  /** The record `cmp_swap` pushes for comparator `c` on keys `key`: exchange
      when `(key[i] > key[j]) == acc`.  (A comparator outside the keys, which no
      network below contains, records no exchange.) */
  function Decide(key: seq<int>, c: Comparator): (r: Swap)
    ensures r.i == c.i && r.j == c.j
    ensures r.decision ==> c.i < |key| && c.j < |key|
  {
    Swap(c.i < |key| && c.j < |key| && (key[c.i] > key[c.j]) == c.up, c.i, c.j)
  }

  /** The keys after comparator `c`. */
  function Step(key: seq<int>, c: Comparator): (t: seq<int>)
    ensures |t| == |key|
  {
    if c.i < |key| && c.j < |key| then Exchange(key, Decide(key, c)) else key
  }

  /** A compare-exchange puts the smaller key (for `up`) first, the larger second,
      and touches nothing else. */
  lemma {:induction false} StepAt(key: seq<int>, c: Comparator)
    requires c.i < |key| && c.j < |key| && c.i != c.j
    ensures var t := Step(key, c);
      && t[c.i] == Low(c.up, key[c.i], key[c.j]) && t[c.j] == High(c.up, key[c.i], key[c.j])
      && Ordered(c.up, t[c.i], t[c.j])
      && forall p :: 0 <= p < |key| && p != c.i && p != c.j ==> t[p] == key[p]
  {
    ExchangeAt(key, Decide(key, c));
  }

  /** The keys left behind after running the comparators of `net` in order. */
  function Run(net: Network, key: seq<int>): (t: seq<int>)
    ensures |t| == |key|
  {
    match net
    case Skip => key
    case Compare(c) => Step(key, c)
    case Then(a, b) => Run(b, Run(a, key))
  }

  /** The swap log those comparators record, one record each, in order. */
  function RunLog(net: Network, key: seq<int>): (log: seq<Swap>)
  {
    match net
    case Skip => []
    case Compare(c) => [Decide(key, c)]
    case Then(a, b) => RunLog(a, key) + RunLog(b, Run(a, key))
  }

  /** The swap log replays the run: `permute(res, key)` reproduces what the network did. */
  lemma {:induction false} RunReplay(net: Network, key: seq<int>)
    ensures Permute(RunLog(net, key), key) == Run(net, key)
  {
    match net
    case Skip =>
    case Compare(c) =>
      assert Permute([Decide(key, c)], key) == Permute([], Exchange(key, Decide(key, c)));
    case Then(a, b) =>
      RunReplay(a, key);
      RunReplay(b, Run(a, key));
      PermuteAppend(RunLog(a, key), RunLog(b, Run(a, key)), key);
  }

  /** The positions a network compares, in order, without their direction. */
  function NetPairs(net: Network): (ps: seq<(nat, nat)>)
  {
    match net
    case Skip => []
    case Compare(c) => [(c.i, c.j)]
    case Then(a, b) => NetPairs(a) + NetPairs(b)
  }

  /** The positions a swap log compares, without its decisions. */
  function LogPairs(log: seq<Swap>): (ps: seq<(nat, nat)>)
    ensures |ps| == |log|
  {
    seq(|log|, k requires 0 <= k < |log| => (log[k].i, log[k].j))
  }

  lemma {:induction false} LogPairsAppend(l1: seq<Swap>, l2: seq<Swap>)
    ensures LogPairs(l1 + l2) == LogPairs(l1) + LogPairs(l2)
  {
    var l := l1 + l2;
    forall k | 0 <= k < |l|
      ensures LogPairs(l)[k] == (LogPairs(l1) + LogPairs(l2))[k]
    {
      if k >= |l1| { assert l[k] == l2[k - |l1|]; }
    }
  }

  /** The log records the network's comparators, one record each and in order,
      whatever the keys. */
  lemma {:induction false} RunLogPairs(net: Network, key: seq<int>)
    ensures LogPairs(RunLog(net, key)) == NetPairs(net)
  {
    match net
    case Skip =>
    case Compare(c) =>
    case Then(a, b) =>
      RunLogPairs(a, key);
      RunLogPairs(b, Run(a, key));
      LogPairsAppend(RunLog(a, key), RunLog(b, Run(a, key)));
  }

  /** A network confined to `[lo, hi)` leaves every other position alone. */
  lemma {:induction false} RunFrame(net: Network, key: seq<int>, lo: nat, hi: nat, p: nat)
    requires Between(net, lo, hi) && hi <= |key| && p < |key| && !(lo <= p < hi)
    ensures Run(net, key)[p] == key[p]
  {
    match net
    case Skip =>
    case Compare(c) =>
      StepAt(key, c);
    case Then(a, b) =>
      RunFrame(a, key, lo, hi, p);
      RunFrame(b, Run(a, key), lo, hi, p);
  }

  /** A network only reorders the keys. */
  lemma {:induction false} RunMultiset(net: Network, key: seq<int>)
    ensures multiset(Run(net, key)) == multiset(key)
  {
    RunReplay(net, key);
    PermuteMultiset(RunLog(net, key), key);
  }

  /** The half cleaner of `bitonic_merge`: `cmp_swap(i, i + m, acc)` for
      `i = lo, ..., lo + r - 1`, in that order. */
  function CleanNet(lo: nat, r: nat, m: nat, up: bool): Network
    decreases r
  {
    if r == 0 then Skip else Then(CleanNet(lo, r - 1, m, up), Compare(Comparator(lo + r - 1, lo + r - 1 + m, up)))
  }

  /** The comparators of `bitonic_merge(key, data, lo, n, acc)`: the half cleaner
      over the largest power of two `m` below `n`, then the merges of `[lo, lo + m)`
      and `[lo + m, lo + n)`. */
  function MergeNet(lo: nat, n: nat, up: bool): Network
    decreases n
  {
    if n <= 1 then Skip
    else
      var m := GreatestPowerOfTwoLessThan(n);
      Then(Then(CleanNet(lo, n - m, m, up), MergeNet(lo, m, up)), MergeNet(lo + m, n - m, up))
  }

  /** The comparators of `bitonic_sort(key, data, lo, n, acc)`: the first half in
      the opposite direction, the second half in `acc`'s, then the merge. */
  function SortNet(lo: nat, n: nat, up: bool): Network
    decreases n
  {
    if n <= 1 then Skip
    else Then(Then(SortNet(lo, n / 2, !up), SortNet(lo + n / 2, n - n / 2, up)), MergeNet(lo, n, up))
  }

  lemma {:induction false} CleanNetBetween(lo: nat, r: nat, m: nat, up: bool)
    requires m >= 1
    ensures Between(CleanNet(lo, r, m, up), lo, lo + m + r)
    decreases r
  {
    if r > 0 {
      CleanNetBetween(lo, r - 1, m, up);
      BetweenWiden(CleanNet(lo, r - 1, m, up), lo, lo + m + r - 1, lo, lo + m + r);
    }
  }

  /** `bitonic_merge(lo, n)` compares positions of `[lo, lo + n)` only. */
  lemma {:induction false} MergeNetBetween(lo: nat, n: nat, up: bool)
    ensures Between(MergeNet(lo, n, up), lo, lo + n)
    decreases n
  {
    if n >= 2 {
      var m := GreatestPowerOfTwoLessThan(n);
      CleanNetBetween(lo, n - m, m, up);
      MergeNetBetween(lo, m, up);
      MergeNetBetween(lo + m, n - m, up);
      BetweenWiden(MergeNet(lo, m, up), lo, lo + m, lo, lo + n);
      BetweenWiden(MergeNet(lo + m, n - m, up), lo + m, lo + n, lo, lo + n);
    }
  }

  /** `bitonic_sort(lo, n)` compares positions of `[lo, lo + n)` only. */
  lemma {:induction false} SortNetBetween(lo: nat, n: nat, up: bool)
    ensures Between(SortNet(lo, n, up), lo, lo + n)
    decreases n
  {
    if n >= 2 {
      var h := n / 2;
      SortNetBetween(lo, h, !up);
      SortNetBetween(lo + h, n - h, up);
      MergeNetBetween(lo, n, up);
      BetweenWiden(SortNet(lo, h, !up), lo, lo + h, lo, lo + n);
      BetweenWiden(SortNet(lo + h, n - h, up), lo + h, lo + n, lo, lo + n);
    }
  }

  /** A sort of a range of the keys compares positions of the keys only. */
  lemma {:induction false} SortNetWithin(lo: nat, n: nat, up: bool, len: nat)
    requires lo + n <= len
    ensures Between(SortNet(lo, n, up), 0, len)
  {
    SortNetBetween(lo, n, up);
    BetweenWiden(SortNet(lo, n, up), lo, lo + n, 0, len);
  }

  /** Where the half cleaner's first `r` comparators leave the key of position `p`. */
  function Cleaned(key: seq<int>, lo: nat, r: nat, m: nat, up: bool, p: nat): int
    requires lo + m + r <= |key| && p < |key|
  {
    if lo <= p < lo + r then Low(up, key[p], key[p + m])
    else if lo + m <= p < lo + m + r then High(up, key[p - m], key[p])
    else key[p]
  }

  /** After the half cleaner's first `r` comparators position `lo + k` holds the
      `Low` and position `lo + k + m` the `High` of the pair they started with. */
  lemma {:induction false} CleanAt(key: seq<int>, lo: nat, r: nat, m: nat, up: bool, p: nat)
    requires r <= m && 1 <= m && lo + m + r <= |key| && p < |key|
    ensures Run(CleanNet(lo, r, m, up), key)[p] == Cleaned(key, lo, r, m, up, p)
    decreases r
  {
    if r > 0 {
      var c := Comparator(lo + r - 1, lo + r - 1 + m, up);
      var u := Run(CleanNet(lo, r - 1, m, up), key);
      CleanAt(key, lo, r - 1, m, up, c.i);
      CleanAt(key, lo, r - 1, m, up, c.j);
      CleanAt(key, lo, r - 1, m, up, p);
      StepAt(u, c);
    }
  }

  /** `bitonic_merge` runs its half cleaner, then merges the two parts. */
  lemma {:induction false} MergeRunSplit(s: seq<int>, lo: nat, n: nat, m: nat, up: bool)
    requires n >= 2 && m == GreatestPowerOfTwoLessThan(n)
    ensures Run(MergeNet(lo, n, up), s)
      == Run(MergeNet(lo + m, n - m, up), Run(MergeNet(lo, m, up), Run(CleanNet(lo, n - m, m, up), s)))
  {
    assert MergeNet(lo, n, up) == Then(Then(CleanNet(lo, n - m, m, up), MergeNet(lo, m, up)), MergeNet(lo + m, n - m, up));
  }

  /** `bitonic_sort` sorts its two halves, then merges. */
  lemma {:induction false} SortRunSplit(s: seq<int>, lo: nat, n: nat, up: bool)
    requires n >= 2
    ensures Run(SortNet(lo, n, up), s)
      == Run(MergeNet(lo, n, up), Run(SortNet(lo + n / 2, n - n / 2, up), Run(SortNet(lo, n / 2, !up), s)))
  {
    assert SortNet(lo, n, up) == Then(Then(SortNet(lo, n / 2, !up), SortNet(lo + n / 2, n - n / 2, up)), MergeNet(lo, n, up));
  }
}
