/** The swap-logged bitonic sort of src/GC/sort.cpp as the in-place procedures it
    is: `cmp_swap`, `bitonic_merge` and `bitonic_sort` exchange entries of the
    caller's arrays and append records to a `CompResultType`, and the `sort`
    entry points wrap them.  Each procedure is proved to leave the state that
    `SecretRun` (secret-key mode) or `ClearRun` (clear-key mode) of module
    `SortSpec` gives for its call, so the sorting facts proved there carry over.

    The table `data` (a vector of equally long columns in the source) is held row
    by row: `data[p]` is the key (column 0) and the other column values at
    position `p`.  Swapping every column at `i` and `j` with one decision is then
    swapping rows `i` and `j`.  A secret value is modelled by the clear value it
    shares. */
module Sort {
  import opened SwapLog
  import opened BitonicNetwork
  import opened SortSpec

  /** Party identifiers of the two-party runtime. */
  const PUBLIC: int := 0
  const ALICE: int := 1
  const BOB: int := 2

  /** `CompResultType`: the swap log, plus the clear decisions a clear-key sort
      collects before they are promoted to log records. */
  class CompResult {
    var log: seq<Swap>
    var plainBuffer: seq<Swap>

    constructor ()
      ensures log == [] && plainBuffer == []
    {
      log := [];
      plainBuffer := [];
    }
  }

  // ---------------------------------------------------------------------------
  // The procedures

  /** `cmp_swap(data, plain_key, i, j, acc, plain_acc, party, result)`.  With no
      clear key, decide on column 0 of `data`, swap every column with that one
      decision and log it; otherwise decide on and swap the clear key alone and put
      the decision in the buffer. */
  method CmpSwap(data: array<Row>, plainKey: array<int>, i: nat, j: nat, acc: bool, plainAcc: bool,
                 party: int, result: CompResult)
    requires plainKey.Length == 0 ==> i < data.Length && j < data.Length
    requires plainKey.Length > 0 ==> i < plainKey.Length && j < plainKey.Length
    modifies data, plainKey, result
    ensures plainKey.Length == 0 ==>
      var r := Decide(Keys(old(data[..])), Comparator(i, j, acc));
      && data[..] == Exchange(old(data[..]), r)
      && result.log == old(result.log) + [r]
      && result.plainBuffer == old(result.plainBuffer)
    ensures plainKey.Length > 0 ==>
      var r := Decide(old(plainKey[..]), Comparator(i, j, plainAcc));
      && plainKey[..] == Exchange(old(plainKey[..]), r)
      && result.plainBuffer == old(result.plainBuffer) + [r]
      && data[..] == old(data[..])
      && result.log == old(result.log)
  {
    if plainKey.Length == 0 {
      var toSwap := (data[i].key > data[j].key) == acc;
      result.log := result.log + [Swap(toSwap, i, j)];
      if toSwap {
        data[i], data[j] := data[j], data[i];
      }
    } else {
      var plainSwap := (plainKey[i] > plainKey[j]) == plainAcc;
      if plainSwap {
        plainKey[i], plainKey[j] := plainKey[j], plainKey[i];
      }
      result.plainBuffer := result.plainBuffer + [Swap(plainSwap, i, j)];
    }
  }

  /** The half cleaner at the start of `bitonic_merge`: `cmp_swap(i, i + m)` for
      `i = lo, ..., lo + k - 1`, in that order (round `r` is `i = lo + r`). */
  method HalfCleaner(data: array<Row>, plainKey: array<int>, lo: nat, m: nat, k: nat, acc: bool, plainAcc: bool,
                     party: int, result: CompResult)
    requires k <= m
    requires plainKey.Length == 0 ==> lo + m + k <= data.Length
    requires plainKey.Length > 0 ==> lo + m + k <= plainKey.Length
    modifies data, plainKey, result
    ensures plainKey.Length == 0 ==>
      && (data[..], result.log) == SecretRun(CleanRounds(lo, k, m, acc), old(data[..]), old(result.log))
      && result.plainBuffer == old(result.plainBuffer)
    ensures plainKey.Length > 0 ==>
      && (plainKey[..], result.plainBuffer) == ClearRun(CleanRounds(lo, k, m, plainAcc), old(plainKey[..]), old(result.plainBuffer))
      && data[..] == old(data[..])
      && result.log == old(result.log)
  {
    var r := 0;
    if plainKey.Length == 0 {
      SecretIdle(CleanRounds(lo, 0, m, acc), data[..], result.log);
    } else {
      ClearIdle(CleanRounds(lo, 0, m, plainAcc), plainKey[..], result.plainBuffer);
    }
    while r < k
      invariant r <= k
      invariant plainKey.Length == 0 ==>
        && (data[..], result.log) == SecretRun(CleanRounds(lo, r, m, acc), old(data[..]), old(result.log))
        && result.plainBuffer == old(result.plainBuffer)
      invariant plainKey.Length > 0 ==>
        && (plainKey[..], result.plainBuffer) == ClearRun(CleanRounds(lo, r, m, plainAcc), old(plainKey[..]), old(result.plainBuffer))
        && data[..] == old(data[..])
        && result.log == old(result.log)
    {
      CleanRound(data, plainKey, lo, r, m, acc, plainAcc, party, result,
                 old(data[..]), old(result.log), old(plainKey[..]), old(result.plainBuffer));
      r := r + 1;
    }
  }

  /** Round `r` of the half cleaner, `cmp_swap(lo + r, lo + r + m)`, extends the
      state rounds `0 .. r - 1` left from `rows0`/`log0` (secret-key mode) or
      `key0`/`buf0` (clear-key mode). */
  method CleanRound(data: array<Row>, plainKey: array<int>, lo: nat, r: nat, m: nat, acc: bool, plainAcc: bool,
                    party: int, result: CompResult,
                    ghost rows0: seq<Row>, ghost log0: seq<Swap>, ghost key0: seq<int>, ghost buf0: seq<Swap>)
    requires plainKey.Length == 0 ==> lo + r + m < data.Length
    requires plainKey.Length > 0 ==> lo + r + m < plainKey.Length
    requires plainKey.Length == 0 ==> (data[..], result.log) == SecretRun(CleanRounds(lo, r, m, acc), rows0, log0)
    requires plainKey.Length > 0 ==> (plainKey[..], result.plainBuffer) == ClearRun(CleanRounds(lo, r, m, plainAcc), key0, buf0)
    modifies data, plainKey, result
    ensures plainKey.Length == 0 ==>
      && (data[..], result.log) == SecretRun(CleanRounds(lo, r + 1, m, acc), rows0, log0)
      && result.plainBuffer == old(result.plainBuffer)
    ensures plainKey.Length > 0 ==>
      && (plainKey[..], result.plainBuffer) == ClearRun(CleanRounds(lo, r + 1, m, plainAcc), key0, buf0)
      && data[..] == old(data[..])
      && result.log == old(result.log)
  {
    CmpSwap(data, plainKey, lo + r, lo + r + m, acc, plainAcc, party, result);
    if plainKey.Length == 0 {
      SecretCleanStep(lo, r, m, acc, rows0, log0, old(data[..]), old(result.log), data[..], result.log);
    } else {
      ClearCleanStep(lo, r, m, plainAcc, key0, buf0, old(plainKey[..]), old(result.plainBuffer),
                     plainKey[..], result.plainBuffer);
    }
  }

  /** `bitonic_merge(data, plain_key, lo, n, acc, plain_acc, party, result)`:
      does what `Exec` says of `MergeRange(lo, n, _)`. */
  method BitonicMerge(data: array<Row>, plainKey: array<int>, lo: nat, n: nat, acc: bool, plainAcc: bool,
                      party: int, result: CompResult)
    requires plainKey.Length == 0 ==> lo + n <= data.Length
    requires plainKey.Length > 0 ==> lo + n <= plainKey.Length
    modifies data, plainKey, result
    ensures plainKey.Length == 0 ==>
      && (data[..], result.log) == SecretRun(MergeRange(lo, n, acc), old(data[..]), old(result.log))
      && result.plainBuffer == old(result.plainBuffer)
    ensures plainKey.Length > 0 ==>
      && (plainKey[..], result.plainBuffer) == ClearRun(MergeRange(lo, n, plainAcc), old(plainKey[..]), old(result.plainBuffer))
      && data[..] == old(data[..])
      && result.log == old(result.log)
    decreases n
  {
    if n > 1 {
      var m := GreatestPowerOfTwoLessThan(n);
      HalfCleaner(data, plainKey, lo, m, n - m, acc, plainAcc, party, result);
      ghost var rows1, log1, key1, buf1 := data[..], result.log, plainKey[..], result.plainBuffer;
      BitonicMerge(data, plainKey, lo, m, acc, plainAcc, party, result);
      ghost var rows2, log2, key2, buf2 := data[..], result.log, plainKey[..], result.plainBuffer;
      BitonicMerge(data, plainKey, lo + m, n - m, acc, plainAcc, party, result);
      if plainKey.Length == 0 {
        SecretMergeSteps(lo, n, m, acc, old(data[..]), old(result.log), rows1, log1, rows2, log2,
                         data[..], result.log);
      } else {
        ClearMergeSteps(lo, n, m, plainAcc, old(plainKey[..]), old(result.plainBuffer), key1, buf1, key2, buf2,
                        plainKey[..], result.plainBuffer);
      }
    } else if plainKey.Length == 0 {
      SecretIdle(MergeRange(lo, n, acc), data[..], result.log);
    } else {
      ClearIdle(MergeRange(lo, n, plainAcc), plainKey[..], result.plainBuffer);
    }
  }

  /** `bitonic_sort(data, plain_key, lo, n, acc, plain_acc, party, result)`:
      does what `Exec` says of `SortRange(lo, n, _)`. */
  method BitonicSort(data: array<Row>, plainKey: array<int>, lo: nat, n: nat, acc: bool, plainAcc: bool,
                     party: int, result: CompResult)
    requires plainKey.Length == 0 ==> lo + n <= data.Length
    requires plainKey.Length > 0 ==> lo + n <= plainKey.Length
    modifies data, plainKey, result
    ensures plainKey.Length == 0 ==>
      && (data[..], result.log) == SecretRun(SortRange(lo, n, acc), old(data[..]), old(result.log))
      && result.plainBuffer == old(result.plainBuffer)
    ensures plainKey.Length > 0 ==>
      && (plainKey[..], result.plainBuffer) == ClearRun(SortRange(lo, n, plainAcc), old(plainKey[..]), old(result.plainBuffer))
      && data[..] == old(data[..])
      && result.log == old(result.log)
    decreases n
  {
    if n > 1 {
      var m := n / 2;
      BitonicSort(data, plainKey, lo, m, !acc, !plainAcc, party, result);
      ghost var rows1, log1, key1, buf1 := data[..], result.log, plainKey[..], result.plainBuffer;
      BitonicSort(data, plainKey, lo + m, n - m, acc, plainAcc, party, result);
      ghost var rows2, log2, key2, buf2 := data[..], result.log, plainKey[..], result.plainBuffer;
      BitonicMerge(data, plainKey, lo, n, acc, plainAcc, party, result);
      if plainKey.Length == 0 {
        SecretSortSteps(lo, n, acc, old(data[..]), old(result.log), rows1, log1, rows2, log2, data[..], result.log);
      } else {
        ClearSortSteps(lo, n, plainAcc, old(plainKey[..]), old(result.plainBuffer), key1, buf1, key2, buf2,
                       plainKey[..], result.plainBuffer);
      }
    } else if plainKey.Length == 0 {
      SecretIdle(SortRange(lo, n, acc), data[..], result.log);
    } else {
      ClearIdle(SortRange(lo, n, plainAcc), plainKey[..], result.plainBuffer);
    }
  }

  // ---------------------------------------------------------------------------
  // `permute(log, arr, invert)`, declared in sort.h

  /** One record replayed on an array: exchange the two positions it names if its
      decision says so. */
  method ExchangeInPlace<T>(arr: array<T>, r: Swap)
    modifies arr
    ensures arr[..] == Exchange(old(arr[..]), r)
  {
    if r.decision && r.i < arr.Length && r.j < arr.Length {
      arr[r.i], arr[r.j] := arr[r.j], arr[r.i];
    }
  }

  /** `permute(log, arr, invert)`: replay the records of `log` on `arr` from the
      first to the last, or, when `invert` is set, from the last to the first. */
  method PermuteInPlace<T>(log: seq<Swap>, arr: array<T>, invert: bool)
    modifies arr
    ensures !invert ==> arr[..] == Permute(log, old(arr[..]))
    ensures invert ==> arr[..] == Unpermute(log, old(arr[..]))
  {
    if !invert {
      ReplayForward(log, arr);
    } else {
      ReplayBackward(log, arr);
    }
  }

  /** The records of `log` replayed from the first to the last. */
  method ReplayForward<T>(log: seq<Swap>, arr: array<T>)
    modifies arr
    ensures arr[..] == Permute(log, old(arr[..]))
  {
    ghost var a0 := arr[..];
    var k := 0;
    while k < |log|
      invariant 0 <= k <= |log|
      invariant arr[..] == Permute(log[..k], a0)
    {
      ExchangeInPlace(arr, log[k]);
      PermuteSnoc(log[..k], log[k], a0);
      assert log[..k + 1] == log[..k] + [log[k]];
      k := k + 1;
    }
    assert log[..k] == log;
  }

  /** The records of `log` replayed from the last to the first. */
  method ReplayBackward<T>(log: seq<Swap>, arr: array<T>)
    modifies arr
    ensures arr[..] == Unpermute(log, old(arr[..]))
  {
    ghost var a0 := arr[..];
    var k := |log|;
    assert log[k..] == [];
    while k > 0
      invariant 0 <= k <= |log|
      invariant arr[..] == Unpermute(log[k..], a0)
    {
      k := k - 1;
      ExchangeInPlace(arr, log[k]);
      UnpermuteCons(log[k], log[k + 1..], a0);
      assert log[k..] == [log[k]] + log[k + 1..];
    }
    assert log[0..] == log;
  }

  // ---------------------------------------------------------------------------
  // Promotion of the clear decisions

  /** The decision bits of a buffer, in order. */
  function Decisions(buf: seq<Swap>): (b: seq<bool>)
    ensures |b| == |buf|
    ensures forall k :: 0 <= k < |buf| ==> b[k] == buf[k].decision
  {
    seq(|buf|, k requires 0 <= k < |buf| => buf[k].decision)
  }

  /** The log records a buffer is promoted to when record `k` gets the shared bit
      `bits[k]`: the same positions in the same order, with the fed decisions. */
  function Promote(buf: seq<Swap>, bits: seq<bool>): (log: seq<Swap>)
    requires |bits| == |buf|
    ensures LogPairs(log) == LogPairs(buf)
    ensures Decisions(log) == bits
  {
    seq(|buf|, k requires 0 <= k < |buf| => Swap(bits[k], buf[k].i, buf[k].j))
  }

  /** Promoting a buffer with its own decision bits gives the buffer back. */
  lemma PromoteOwn(buf: seq<Swap>)
    ensures Promote(buf, Decisions(buf)) == buf
  {
    var log := Promote(buf, Decisions(buf));
    forall k | 0 <= k < |buf|
      ensures log[k] == buf[k]
    {
      assert LogPairs(log)[k] == LogPairs(buf)[k];
    }
  }

  /** Promoting a buffer with the decisions of another log that compares the same
      positions in the same order gives that other log. */
  lemma {:induction false} PromotePairs(buf: seq<Swap>, other: seq<Swap>)
    requires LogPairs(buf) == LogPairs(other)
    ensures Promote(buf, Decisions(other)) == other
  {
    var log := Promote(buf, Decisions(other));
    forall k | 0 <= k < |other|
      ensures log[k] == other[k]
    {
      assert LogPairs(log)[k] == LogPairs(other)[k];
    }
  }

  /** The loop of `sort` that fills `b` with the decisions of the buffer. */
  method BufferDecisions(buf: seq<Swap>) returns (b: array<bool>)
    ensures fresh(b) && b[..] == Decisions(buf)
  {
    b := new bool[|buf|];
    var k := 0;
    while k < |buf|
      invariant 0 <= k <= |buf|
      invariant forall q :: 0 <= q < k ==> b[q] == buf[q].decision
    {
      b[k] := buf[k].decision;
      k := k + 1;
    }
  }

  /** The loop of `sort` that pushes one log record per buffer record, with the
      fed bit and the buffer's positions, followed by `plain_buffer.clear()`. */
  method PromoteBuffer(result: CompResult, fed: seq<bool>)
    requires |fed| == |result.plainBuffer|
    modifies result
    ensures result.log == old(result.log) + Promote(old(result.plainBuffer), fed)
    ensures result.plainBuffer == []
  {
    var buf := result.plainBuffer;
    var k := 0;
    while k < |buf|
      invariant 0 <= k <= |buf| && result.plainBuffer == buf
      invariant result.log == old(result.log) + Promote(buf, fed)[..k]
    {
      result.log := result.log + [Swap(fed[k], buf[k].i, buf[k].j)];
      assert Promote(buf, fed)[..k + 1] == Promote(buf, fed)[..k] + [Promote(buf, fed)[k]];
      k := k + 1;
    }
    assert Promote(buf, fed)[..k] == Promote(buf, fed);
    result.plainBuffer := [];
  }

  // ---------------------------------------------------------------------------
  // The `sort` entry points

  /** `sort(data, size, acc)`: sort the rows on their key column, secret-key mode. */
  method SecretSort(data: array<Row>, size: nat, acc: bool) returns (result: CompResult)
    requires size <= data.Length
    modifies data
    ensures fresh(result)
    ensures (data[..], result.log) == SecretRun(SortRange(0, size, acc), old(data[..]), [])
    ensures result.plainBuffer == []
  {
    result := new CompResult();
    var placeholder := new int[0];
    BitonicSort(data, placeholder, 0, size, acc, false, PUBLIC, result);
  }

  /** What the secret-key sort achieves: the first `size` rows are ordered on
      their keys, the rows are a permutation of the input and the rest are
      untouched, every record compares two positions below `size`, and replaying
      the log backward restores the input. */
  lemma SecretSortSorts(rows: seq<Row>, size: nat, up: bool)
    requires size <= |rows|
    ensures var (r, log) := SecretRun(SortRange(0, size, up), rows, []);
      && SortedRange(Keys(r), 0, size, up)
      && multiset(r) == multiset(rows)
      && r[size..] == rows[size..]
      && Within(log, 0, size)
      && Unpermute(log, r) == rows
  {
    var t := Exec(SortRange(0, size, up), Keys(rows));
    SecretRunKeys(SortRange(0, size, up), rows, []);
    SortTraceSorts(Keys(rows), 0, size, up);
    PermuteMultiset(t.log, rows);
    SortTraceWithin(Keys(rows), 0, size, up);
    WithinFits(t.log, 0, size, size);
    PermutePrefix(t.log, rows, size);
    UndoPermute(t.log, rows);
    assert [] + t.log == t.log;
  }

  /** `sort(data, size, acc)` on a single column: the column is wrapped as the
      key of one-column rows, sorted, and written back. */
  method SecretSortColumn(data: array<int>, size: nat, acc: bool) returns (result: CompResult)
    requires size <= data.Length
    modifies data
    ensures fresh(result)
    ensures var t := Exec(SortRange(0, size, acc), old(data[..]));
      && data[..] == t.key
      && result.log == t.log
      && result.plainBuffer == []
  {
    var wrapper := new Row[data.Length](p requires 0 <= p < data.Length reads data => Row(data[p], []));
    ghost var rows := wrapper[..];
    assert Keys(rows) == data[..];
    result := SecretSort(wrapper, size, acc);
    SecretRunKeys(SortRange(0, size, acc), rows, []);
    forall p | 0 <= p < data.Length {
      data[p] := wrapper[p].key;
    }
    assert data[..] == Keys(wrapper[..]);
  }

  /** `sort(data, plain_key, size, party, acc)`: sort the clear keys, promote the
      buffered decisions to log records carrying the bits BOB feeds, empty the
      buffer and replay the log on the rows.  `party` is the source's argument,
      which only reaches `cmp_swap` and changes nothing; `self` is the party
      running the code, which decides what the feed from BOB yields: BOB's own
      decisions at BOB, the bits `peer` BOB sends anywhere else. */
  method ClearSort(data: array<Row>, plainKey: array<int>, size: nat, party: int, acc: bool, self: int, peer: seq<bool>)
      returns (result: CompResult)
    requires plainKey.Length > 0 && size <= plainKey.Length
    requires self != BOB ==> |peer| == |Exec(SortRange(0, size, acc), plainKey[..]).log|
    modifies data, plainKey
    ensures fresh(result)
    ensures var t := Exec(SortRange(0, size, acc), old(plainKey[..]));
      && plainKey[..] == t.key
      && result.log == Promote(t.log, if self == BOB then Decisions(t.log) else peer)
      && result.plainBuffer == []
      && data[..] == Permute(result.log, old(data[..]))
  {
    result := new CompResult();
    BitonicSort(data, plainKey, 0, size, acc, acc, party, result);
    ghost var t := Exec(SortRange(0, size, acc), old(plainKey[..]));
    assert [] + t.log == t.log;
    var b := BufferDecisions(result.plainBuffer);
    var fed := if self == BOB then b[..] else peer;
    PromoteBuffer(result, fed);
    PermuteInPlace(result.log, data, false);
  }

  /** What the clear-key sort achieves: the keys come out ordered and permuted,
      and when BOB feeds BOB's own decisions the promoted log replays that order on
      any column, undone by replaying it backward. */
  lemma ClearSortSorts(key: seq<int>, size: nat, up: bool)
    requires size <= |key|
    ensures var t := Exec(SortRange(0, size, up), key);
      var log := Promote(t.log, Decisions(t.log));
      && SortedRange(t.key, 0, size, up)
      && multiset(t.key) == multiset(key)
      && Permute(log, key) == t.key
      && Unpermute(log, t.key) == key
  {
    var t := Exec(SortRange(0, size, up), key);
    SortTraceSorts(key, 0, size, up);
    PromoteOwn(t.log);
    UndoPermute(t.log, key);
  }

  /** The two parties of a clear-key sort end with the same log: whatever keys
      ALICE sorts, ALICE records the positions BOB records, in the same order, so
      ALICE's buffer promoted with the bits BOB feeds is BOB's log. */
  lemma ClearSortAgrees(keyA: seq<int>, keyB: seq<int>, size: nat, up: bool)
    ensures var tA := Exec(SortRange(0, size, up), keyA);
      var tB := Exec(SortRange(0, size, up), keyB);
      && |tA.log| == |tB.log|
      && Promote(tA.log, Decisions(tB.log)) == Promote(tB.log, Decisions(tB.log))
  {
    var tA := Exec(SortRange(0, size, up), keyA);
    var tB := Exec(SortRange(0, size, up), keyB);
    SortTracePairs(keyA, keyB, 0, size, up);
    PromotePairs(tA.log, tB.log);
    PromoteOwn(tB.log);
  }

  /** A secret-key sort and a clear-key sort of the same keys record the same
      log, so the one undoes the other (the two unsorts of test/test_sort.cpp). */
  lemma SortsAgree(rows: seq<Row>, key: seq<int>, size: nat, up: bool)
    requires Keys(rows) == key
    ensures var (r, log) := SecretRun(SortRange(0, size, up), rows, []);
      var t := Exec(SortRange(0, size, up), key);
      && Promote(t.log, Decisions(t.log)) == log
      && Keys(r) == t.key
  {
    var t := Exec(SortRange(0, size, up), key);
    SecretRunKeys(SortRange(0, size, up), rows, []);
    PromoteOwn(t.log);
    assert [] + t.log == t.log;
  }

  /** `sort(data, plain_key, size, party, acc)` on a single column (an
      `IntegerArray`, which the clear `std::vector<int>` key cannot be). */
  method ClearSortColumn(data: array<int>, plainKey: array<int>, size: nat, party: int, acc: bool, self: int, peer: seq<bool>)
      returns (result: CompResult)
    requires data != plainKey
    requires plainKey.Length > 0 && size <= plainKey.Length
    requires self != BOB ==> |peer| == |Exec(SortRange(0, size, acc), plainKey[..]).log|
    modifies data, plainKey
    ensures fresh(result)
    ensures var t := Exec(SortRange(0, size, acc), old(plainKey[..]));
      && plainKey[..] == t.key
      && result.log == Promote(t.log, if self == BOB then Decisions(t.log) else peer)
      && result.plainBuffer == []
      && data[..] == Permute(result.log, old(data[..]))
  {
    var wrapper := new Row[data.Length](p requires 0 <= p < data.Length reads data => Row(data[p], []));
    ghost var rows := wrapper[..];
    assert Keys(rows) == data[..];
    result := ClearSort(wrapper, plainKey, size, party, acc, self, peer);
    PermuteKeys(result.log, rows);
    forall p | 0 <= p < data.Length {
      data[p] := wrapper[p].key;
    }
    assert data[..] == Keys(wrapper[..]);
  }

  /** `sort(plain_key, size, party, acc)`: the clear-key sort with no data. */
  method ClearSortKeys(plainKey: array<int>, size: nat, party: int, acc: bool, self: int, peer: seq<bool>)
      returns (result: CompResult)
    requires plainKey.Length > 0 && size <= plainKey.Length
    requires self != BOB ==> |peer| == |Exec(SortRange(0, size, acc), plainKey[..]).log|
    modifies plainKey
    ensures fresh(result)
    ensures var t := Exec(SortRange(0, size, acc), old(plainKey[..]));
      && plainKey[..] == t.key
      && result.log == Promote(t.log, if self == BOB then Decisions(t.log) else peer)
      && result.plainBuffer == []
  {
    var wrapper := new Row[0];
    result := ClearSort(wrapper, plainKey, size, party, acc, self, peer);
  }
}
