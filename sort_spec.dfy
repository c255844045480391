/** What the swap-logged bitonic sort of src/GC/sort.cpp computes: the table
    held row by row, the log and keys each procedure call leaves (`Exec`, which
    follows the recursion of the procedures), its agreement with the comparator
    networks of module `BitonicNetwork`, and the facts about the caller's state
    the procedures of module `Sort` are proved against. */
module SortSpec {
  import opened SwapLog
  import opened BitonicNetwork
  import BitonicSorted

  /** One position of the table: its key (column 0) and the values of the other
      columns. */
  datatype Row = Row(key: int, payload: seq<int>)

  /** The key column `data[0]`. */
  function Keys(rows: seq<Row>): (key: seq<int>)
    ensures |key| == |rows|
  {
    seq(|rows|, p requires 0 <= p < |rows| => rows[p].key)
  }

  lemma ExchangeKeys(rows: seq<Row>, r: Swap)
    ensures Keys(Exchange(rows, r)) == Exchange(Keys(rows), r)
  {
    if r.i < |rows| && r.j < |rows| {
      ExchangeAt(rows, r);
      ExchangeAt(Keys(rows), r);
    }
  }

  /** Replaying a log on the rows replays it on the keys. */
  lemma {:induction false} PermuteKeys(log: seq<Swap>, rows: seq<Row>)
    ensures Keys(Permute(log, rows)) == Permute(log, Keys(rows))
    decreases |log|
  {
    if log != [] {
      ExchangeKeys(rows, log[0]);
      PermuteKeys(log[1..], Exchange(rows, log[0]));
    }
  }

  // ---------------------------------------------------------------------------
  // What the procedures compute

  /** The records a procedure appends and the keys it leaves behind. */
  datatype Trace = Trace(log: seq<Swap>, key: seq<int>)

  /** A call of one of the procedures, with the arguments that fix what it
      compares: the first `r` rounds of the half-cleaner loop of
      `bitonic_merge`; the body of `bitonic_merge` once its split point `m` is
      chosen (`k` rounds of the half cleaner, then the merges of the `m`
      positions from `lo` and of the `k` after them); `bitonic_merge(lo, n, up)`;
      `bitonic_sort(lo, n, up)`. */
  datatype Call =
    | CleanRounds(lo: nat, r: nat, m: nat, up: bool)
    | MergeHalves(lo: nat, m: nat, k: nat, up: bool)
    | MergeRange(lo: nat, n: nat, up: bool)
    | SortRange(lo: nat, n: nat, up: bool)

  function Size(c: Call): nat
  {
    match c
    case CleanRounds(_, r, _, _) => r
    case MergeHalves(_, m, k, _) => m + k
    case MergeRange(_, n, _) => n
    case SortRange(_, n, _) => n
  }

  function Rank(c: Call): nat
  {
    match c
    case CleanRounds(_, _, _, _) => 0
    case MergeHalves(_, _, _, _) => 1
    case MergeRange(_, _, _) => 2
    case SortRange(_, _, _) => 3
  }

  /** What call `c` appends to the log and leaves in the keys, following the
      recursion of the procedures. */
  function Exec(c: Call, key: seq<int>): (t: Trace)
    ensures |t.key| == |key|
    decreases |key| + Size(c), Rank(c)
  {
    match c
    case CleanRounds(lo, r, m, up) =>
      if r == 0 then Trace([], key)
      else
        var t := Exec(CleanRounds(lo, r - 1, m, up), key);
        var d := Decide(t.key, Comparator(lo + r - 1, lo + r - 1 + m, up));
        Trace(t.log + [d], Exchange(t.key, d))
    case MergeHalves(lo, m, k, up) =>
      if m == 0 || k == 0 then Trace([], key)
      else
        var t1 := Exec(CleanRounds(lo, k, m, up), key);
        var t2 := Exec(MergeRange(lo, m, up), t1.key);
        var t3 := Exec(MergeRange(lo + m, k, up), t2.key);
        Trace(t1.log + t2.log + t3.log, t3.key)
    case MergeRange(lo, n, up) =>
      if n <= 1 then Trace([], key)
      else
        var m := GreatestPowerOfTwoLessThan(n);
        Exec(MergeHalves(lo, m, n - m, up), key)
    case SortRange(lo, n, up) =>
      if n <= 1 then Trace([], key)
      else
        var t1 := Exec(SortRange(lo, n / 2, !up), key);
        var t2 := Exec(SortRange(lo + n / 2, n - n / 2, up), t1.key);
        var t3 := Exec(MergeRange(lo, n, up), t2.key);
        Trace(t1.log + t2.log + t3.log, t3.key)
  }

  /** The comparator network of module `BitonicNetwork` that call `c` runs. */
  function Net(c: Call): Network
  {
    match c
    case CleanRounds(lo, r, m, up) => CleanNet(lo, r, m, up)
    case MergeHalves(lo, m, k, up) =>
      if m == 0 || k == 0 then Skip
      else Then(Then(CleanNet(lo, k, m, up), MergeNet(lo, m, up)), MergeNet(lo + m, k, up))
    case MergeRange(lo, n, up) => MergeNet(lo, n, up)
    case SortRange(lo, n, up) => SortNet(lo, n, up)
  }

  /** Each call does what its network does. */
  lemma {:induction false} ExecNet(c: Call, key: seq<int>)
    ensures Exec(c, key) == Trace(RunLog(Net(c), key), Run(Net(c), key))
    decreases |key| + Size(c), Rank(c), 1
  {
    match c
    case CleanRounds(lo, r, m, up) =>
      if r > 0 {
        ExecNet(CleanRounds(lo, r - 1, m, up), key);
      }
    case MergeHalves(lo, m, k, up) => ExecNetHalves(lo, m, k, up, key);
    case MergeRange(lo, n, up) =>
      if n > 1 {
        ExecNet(MergeHalves(lo, GreatestPowerOfTwoLessThan(n), n - GreatestPowerOfTwoLessThan(n), up), key);
      }
    case SortRange(lo, n, up) => ExecNetSort(c, key);
  }

  lemma {:induction false} ExecNetSort(c: Call, key: seq<int>)
    requires c.SortRange?
    ensures Exec(c, key) == Trace(RunLog(Net(c), key), Run(Net(c), key))
    decreases |key| + Size(c), Rank(c), 0
  {
    var SortRange(lo, n, up) := c;
    if n > 1 {
      var first, second := SortNet(lo, n / 2, !up), SortNet(lo + n / 2, n - n / 2, up);
      ExecNet(SortRange(lo, n / 2, !up), key);
      ExecNet(SortRange(lo + n / 2, n - n / 2, up), Run(first, key));
      ExecNet(MergeRange(lo, n, up), Run(second, Run(first, key)));
    }
  }

  lemma {:induction false} ExecNetHalves(lo: nat, m: nat, k: nat, up: bool, key: seq<int>)
    ensures Exec(MergeHalves(lo, m, k, up), key)
         == Trace(RunLog(Net(MergeHalves(lo, m, k, up)), key), Run(Net(MergeHalves(lo, m, k, up)), key))
    decreases |key| + m + k, 1, 0
  {
    if m > 0 && k > 0 {
      var clean, low := CleanNet(lo, k, m, up), MergeNet(lo, m, up);
      ExecNet(CleanRounds(lo, k, m, up), key);
      ExecNet(MergeRange(lo, m, up), Run(clean, key));
      ExecNet(MergeRange(lo + m, k, up), Run(low, Run(clean, key)));
    }
  }

  /** Sorting the keys: `bitonic_sort(lo, n, up)` leaves positions
      `lo .. lo + n - 1` ordered in direction `up`, holding the keys there were,
      with every other position as it was; and its log replays the same
      reordering. */
  lemma SortTraceSorts(key: seq<int>, lo: nat, n: nat, up: bool)
    requires lo + n <= |key|
    ensures var t := Exec(SortRange(lo, n, up), key);
      && SortedRange(t.key, lo, lo + n, up)
      && multiset(t.key) == multiset(key)
      && (forall p :: 0 <= p < |key| && !(lo <= p < lo + n) ==> t.key[p] == key[p])
      && Permute(t.log, key) == t.key
  {
    ExecNet(SortRange(lo, n, up), key);
    RunReplay(SortNet(lo, n, up), key);
    BitonicSorted.SortNetSorts(key, lo, n, up);
    BitonicSorted.SortNetPermutes(key, lo, n, up);
    BitonicSorted.SortNetFrame(key, lo, n, up);
  }

  /** The log of `bitonic_sort(lo, n, _)` compares only positions in `[lo, lo + n)`. */
  lemma SortTraceWithin(key: seq<int>, lo: nat, n: nat, up: bool)
    ensures Within(Exec(SortRange(lo, n, up), key).log, lo, lo + n)
  {
    ExecNet(SortRange(lo, n, up), key);
    SortNetBetween(lo, n, up);
    RunLogWithin(SortNet(lo, n, up), key, lo, lo + n);
  }

  /** The positions the sort compares, and their order, do not depend on the
      keys: two parties sorting different keys record the same pairs. */
  lemma SortTracePairs(key1: seq<int>, key2: seq<int>, lo: nat, n: nat, up: bool)
    ensures LogPairs(Exec(SortRange(lo, n, up), key1).log) == LogPairs(Exec(SortRange(lo, n, up), key2).log)
  {
    ExecNet(SortRange(lo, n, up), key1);
    ExecNet(SortRange(lo, n, up), key2);
    RunLogPairs(SortNet(lo, n, up), key1);
    RunLogPairs(SortNet(lo, n, up), key2);
  }

  /** A network confined to `[lo, hi)` records only pairs `lo <= i < j < hi`. */
  lemma {:induction false} RunLogWithin(net: Network, key: seq<int>, lo: nat, hi: nat)
    requires Between(net, lo, hi)
    ensures Within(RunLog(net, key), lo, hi)
  {
    match net
    case Skip =>
    case Compare(c) =>
    case Then(a, b) =>
      RunLogWithin(a, key, lo, hi);
      RunLogWithin(b, Run(a, key), lo, hi);
      WithinAppend(RunLog(a, key), RunLog(b, Run(a, key)), lo, hi);
  }

  // ---------------------------------------------------------------------------
  // What a procedure did to the caller's state

  /** The keys a call leaves are its records replayed on the keys it was given. */
  lemma ExecReplays(c: Call, key: seq<int>)
    ensures Permute(Exec(c, key).log, key) == Exec(c, key).key
  {
    ExecNet(c, key);
    RunReplay(Net(c), key);
  }

  /** The rows and the log call `c` leaves in secret-key mode when started on
      rows `rows` and log `log`: the records it decides on the keys are appended
      to the log and replayed on the rows. */
  function SecretRun(c: Call, rows: seq<Row>, log: seq<Swap>): (seq<Row>, seq<Swap>)
  {
    var t := Exec(c, Keys(rows));
    (Permute(t.log, rows), log + t.log)
  }

  /** The clear keys and the buffer call `c` leaves in clear-key mode when started
      on clear keys `key` and buffer `buf`. */
  function ClearRun(c: Call, key: seq<int>, buf: seq<Swap>): (seq<int>, seq<Swap>)
  {
    var t := Exec(c, key);
    (t.key, buf + t.log)
  }

  /** In secret-key mode the key column ends up holding what the call leaves in
      the keys. */
  lemma SecretRunKeys(c: Call, rows: seq<Row>, log: seq<Swap>)
    ensures Keys(SecretRun(c, rows, log).0) == Exec(c, Keys(rows)).key
  {
    PermuteKeys(Exec(c, Keys(rows)).log, rows);
    ExecReplays(c, Keys(rows));
  }

  /** A call that compares nothing leaves the caller's state as it was. */
  lemma SecretIdle(c: Call, rows: seq<Row>, log: seq<Swap>)
    requires Exec(c, Keys(rows)).log == []
    ensures SecretRun(c, rows, log) == (rows, log)
  {
    assert log + [] == log;
  }

  /** The same in clear-key mode. */
  lemma ClearIdle(c: Call, key: seq<int>, buf: seq<Swap>)
    requires Exec(c, key).log == []
    ensures ClearRun(c, key, buf) == (key, buf)
  {
    ExecReplays(c, key);
    assert buf + [] == buf;
  }

  /** One more round of the half cleaner: `cmp_swap(lo + r, lo + r + m)` after
      rounds `lo .. lo + r - 1`. */
  lemma SecretCleanStep(lo: nat, r: nat, m: nat, up: bool, rows0: seq<Row>, log0: seq<Swap>,
                        rows1: seq<Row>, log1: seq<Swap>, rows2: seq<Row>, log2: seq<Swap>)
    requires (rows1, log1) == SecretRun(CleanRounds(lo, r, m, up), rows0, log0)
    requires rows2 == Exchange(rows1, Decide(Keys(rows1), Comparator(lo + r, lo + r + m, up)))
    requires log2 == log1 + [Decide(Keys(rows1), Comparator(lo + r, lo + r + m, up))]
    ensures (rows2, log2) == SecretRun(CleanRounds(lo, r + 1, m, up), rows0, log0)
  {
    var t := Exec(CleanRounds(lo, r, m, up), Keys(rows0));
    var d := Decide(t.key, Comparator(lo + r, lo + r + m, up));
    SecretRunKeys(CleanRounds(lo, r, m, up), rows0, log0);
    PermuteSnoc(t.log, d, rows0);
    CleanRoundsSnoc(lo, r, m, up, Keys(rows0));
    assert log2 == log0 + (t.log + [d]);
  }

  /** Rounds `0 .. r` of the half cleaner are rounds `0 .. r - 1` and then the
      compare-exchange of `lo + r` and `lo + r + m`. */
  lemma CleanRoundsSnoc(lo: nat, r: nat, m: nat, up: bool, key: seq<int>)
    ensures var t := Exec(CleanRounds(lo, r, m, up), key);
      var d := Decide(t.key, Comparator(lo + r, lo + r + m, up));
      Exec(CleanRounds(lo, r + 1, m, up), key) == Trace(t.log + [d], Exchange(t.key, d))
  {
  }

  /** The same in clear-key mode. */
  lemma ClearCleanStep(lo: nat, r: nat, m: nat, up: bool, key0: seq<int>, buf0: seq<Swap>,
                       key1: seq<int>, buf1: seq<Swap>, key2: seq<int>, buf2: seq<Swap>)
    requires (key1, buf1) == ClearRun(CleanRounds(lo, r, m, up), key0, buf0)
    requires key2 == Exchange(key1, Decide(key1, Comparator(lo + r, lo + r + m, up)))
    requires buf2 == buf1 + [Decide(key1, Comparator(lo + r, lo + r + m, up))]
    ensures (key2, buf2) == ClearRun(CleanRounds(lo, r + 1, m, up), key0, buf0)
  {
    var t := Exec(CleanRounds(lo, r, m, up), key0);
    assert buf2 == buf0 + (t.log + [Decide(t.key, Comparator(lo + r, lo + r + m, up))]);
  }

  /** Replaying `l1` and then `l2` replays their concatenation. */
  lemma ReplayThen(l1: seq<Swap>, l2: seq<Swap>, rows0: seq<Row>, rows1: seq<Row>, rows2: seq<Row>,
                   log0: seq<Swap>, log1: seq<Swap>, log2: seq<Swap>)
    requires rows1 == Permute(l1, rows0) && log1 == log0 + l1
    requires rows2 == Permute(l2, rows1) && log2 == log1 + l2
    ensures rows2 == Permute(l1 + l2, rows0) && log2 == log0 + (l1 + l2)
  {
    PermuteAppend(l1, l2, rows0);
  }

  /** The half cleaner and the two half merges make up the body of the merge. */
  lemma SecretHalvesSteps(lo: nat, m: nat, k: nat, up: bool, rows0: seq<Row>, log0: seq<Swap>,
                          rows1: seq<Row>, log1: seq<Swap>, rows2: seq<Row>, log2: seq<Swap>,
                          rows3: seq<Row>, log3: seq<Swap>)
    requires m > 0 && k > 0
    requires (rows1, log1) == SecretRun(CleanRounds(lo, k, m, up), rows0, log0)
    requires (rows2, log2) == SecretRun(MergeRange(lo, m, up), rows1, log1)
    requires (rows3, log3) == SecretRun(MergeRange(lo + m, k, up), rows2, log2)
    ensures (rows3, log3) == SecretRun(MergeHalves(lo, m, k, up), rows0, log0)
  {
    var t1 := Exec(CleanRounds(lo, k, m, up), Keys(rows0));
    SecretRunKeys(CleanRounds(lo, k, m, up), rows0, log0);
    var t2 := Exec(MergeRange(lo, m, up), t1.key);
    SecretRunKeys(MergeRange(lo, m, up), rows1, log1);
    var t3 := Exec(MergeRange(lo + m, k, up), t2.key);
    HalvesUnfold(lo, m, k, up, Keys(rows0));
    ReplayThen(t1.log, t2.log, rows0, rows1, rows2, log0, log1, log2);
    ReplayThen(t1.log + t2.log, t3.log, rows0, rows2, rows3, log0, log2, log3);
  }

  /** The body of the merge: the half cleaner, then the two half merges. */
  lemma HalvesUnfold(lo: nat, m: nat, k: nat, up: bool, key: seq<int>)
    requires m > 0 && k > 0
    ensures var t1 := Exec(CleanRounds(lo, k, m, up), key);
      var t2 := Exec(MergeRange(lo, m, up), t1.key);
      var t3 := Exec(MergeRange(lo + m, k, up), t2.key);
      Exec(MergeHalves(lo, m, k, up), key) == Trace(t1.log + t2.log + t3.log, t3.key)
  {
  }

  /** The body of the sort: the two half sorts, then the merge. */
  lemma SortUnfold(lo: nat, n: nat, up: bool, key: seq<int>)
    requires n > 1
    ensures var t1 := Exec(SortRange(lo, n / 2, !up), key);
      var t2 := Exec(SortRange(lo + n / 2, n - n / 2, up), t1.key);
      var t3 := Exec(MergeRange(lo, n, up), t2.key);
      Exec(SortRange(lo, n, up), key) == Trace(t1.log + t2.log + t3.log, t3.key)
  {
  }

  /** The merge, with its split point `m`. */
  lemma SecretMergeSteps(lo: nat, n: nat, m: nat, up: bool, rows0: seq<Row>, log0: seq<Swap>,
                         rows1: seq<Row>, log1: seq<Swap>, rows2: seq<Row>, log2: seq<Swap>,
                         rows3: seq<Row>, log3: seq<Swap>)
    requires n > 1 && m == GreatestPowerOfTwoLessThan(n)
    requires (rows1, log1) == SecretRun(CleanRounds(lo, n - m, m, up), rows0, log0)
    requires (rows2, log2) == SecretRun(MergeRange(lo, m, up), rows1, log1)
    requires (rows3, log3) == SecretRun(MergeRange(lo + m, n - m, up), rows2, log2)
    ensures (rows3, log3) == SecretRun(MergeRange(lo, n, up), rows0, log0)
  {
    SecretHalvesSteps(lo, m, n - m, up, rows0, log0, rows1, log1, rows2, log2, rows3, log3);
  }

  /** The same in clear-key mode. */
  lemma ClearMergeSteps(lo: nat, n: nat, m: nat, up: bool, key0: seq<int>, buf0: seq<Swap>,
                        key1: seq<int>, buf1: seq<Swap>, key2: seq<int>, buf2: seq<Swap>,
                        key3: seq<int>, buf3: seq<Swap>)
    requires n > 1 && m == GreatestPowerOfTwoLessThan(n)
    requires (key1, buf1) == ClearRun(CleanRounds(lo, n - m, m, up), key0, buf0)
    requires (key2, buf2) == ClearRun(MergeRange(lo, m, up), key1, buf1)
    requires (key3, buf3) == ClearRun(MergeRange(lo + m, n - m, up), key2, buf2)
    ensures (key3, buf3) == ClearRun(MergeRange(lo, n, up), key0, buf0)
  {
    var t1, t2 := Exec(CleanRounds(lo, n - m, m, up), key0), Exec(MergeRange(lo, m, up), key1);
    var t3 := Exec(MergeRange(lo + m, n - m, up), key2);
    assert buf3 == buf0 + (t1.log + t2.log + t3.log);
    var t := Exec(MergeHalves(lo, m, n - m, up), key0);
  }

  /** The two half sorts and the merge make up the sort. */
  lemma SecretSortSteps(lo: nat, n: nat, up: bool, rows0: seq<Row>, log0: seq<Swap>,
                        rows1: seq<Row>, log1: seq<Swap>, rows2: seq<Row>, log2: seq<Swap>,
                        rows3: seq<Row>, log3: seq<Swap>)
    requires n > 1
    requires (rows1, log1) == SecretRun(SortRange(lo, n / 2, !up), rows0, log0)
    requires (rows2, log2) == SecretRun(SortRange(lo + n / 2, n - n / 2, up), rows1, log1)
    requires (rows3, log3) == SecretRun(MergeRange(lo, n, up), rows2, log2)
    ensures (rows3, log3) == SecretRun(SortRange(lo, n, up), rows0, log0)
  {
    var c1, c2 := SortRange(lo, n / 2, !up), SortRange(lo + n / 2, n - n / 2, up);
    var t1 := Exec(c1, Keys(rows0));
    SecretRunKeys(c1, rows0, log0);
    var t2 := Exec(c2, t1.key);
    SecretRunKeys(c2, rows1, log1);
    var t3 := Exec(MergeRange(lo, n, up), t2.key);
    SortUnfold(lo, n, up, Keys(rows0));
    ReplayThen(t1.log, t2.log, rows0, rows1, rows2, log0, log1, log2);
    ReplayThen(t1.log + t2.log, t3.log, rows0, rows2, rows3, log0, log2, log3);
  }

  /** The same in clear-key mode. */
  lemma ClearSortSteps(lo: nat, n: nat, up: bool, key0: seq<int>, buf0: seq<Swap>,
                       key1: seq<int>, buf1: seq<Swap>, key2: seq<int>, buf2: seq<Swap>,
                       key3: seq<int>, buf3: seq<Swap>)
    requires n > 1
    requires (key1, buf1) == ClearRun(SortRange(lo, n / 2, !up), key0, buf0)
    requires (key2, buf2) == ClearRun(SortRange(lo + n / 2, n - n / 2, up), key1, buf1)
    requires (key3, buf3) == ClearRun(MergeRange(lo, n, up), key2, buf2)
    ensures (key3, buf3) == ClearRun(SortRange(lo, n, up), key0, buf0)
  {
    var t1, t2 := Exec(SortRange(lo, n / 2, !up), key0), Exec(SortRange(lo + n / 2, n - n / 2, up), key1);
    var t3 := Exec(MergeRange(lo, n, up), key2);
    assert buf3 == buf0 + (t1.log + t2.log + t3.log);
  }
}
