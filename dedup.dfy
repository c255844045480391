/** Deduplication of a query batch and its inverse, `remap`
    (src/GC/deduplicate.cpp).  `deduplicate` sorts the queries with the
    secret-key bitonic sort, labels every position that repeats its sorted
    predecessor and replaces those by distinct dummy indices `db_size + i`, so
    that no two retrieval requests collide; `remap` copies each run head's
    answer along its run and undoes the sort.  A secret `Integer` is modelled by
    its value. */
module Dedup {
  import opened Bits
  import opened SwapLog
  import opened BitonicNetwork
  import opened SortSpec
  import Sort

  /** `BatchLUTConfig`: the batch size, the query width and the table size. */
  datatype Config = Config(batchSize: nat, bitlength: nat, dbSize: nat)

  /** `DedupContext`: the log of the dedup sort, the duplicate labels and the
      configuration. */
  datatype DedupContext = DedupContext(sortResult: seq<Swap>, labels: seq<bool>, config: Config)

  // ---------------------------------------------------------------------------
  // What `deduplicate` computes

  /** `Integer(bitlength + 1, db_size + i)`: dummy `i`, kept to `bitlength + 1` bits. */
  function Dummy(config: Config, i: nat): (d: nat)
    ensures d < Pow2(config.bitlength + 1)
  {
    (config.dbSize + i) % Pow2(config.bitlength + 1)
  }

  /** The duplicate labels of the sorted queries: position `i >= 1` is labelled
      when it equals position `i - 1`; position 0 never is. */
  function Labels(sorted: seq<int>, n: nat): (labels: seq<bool>)
    requires n <= |sorted|
    ensures |labels| == n
  {
    seq(n, i requires 0 <= i < n => i >= 1 && sorted[i] == sorted[i - 1])
  }

  /** The sorted queries with every labelled position replaced by its dummy. */
  function Replace(sorted: seq<int>, labels: seq<bool>, config: Config): (r: seq<int>)
    requires |labels| <= |sorted|
    ensures |r| == |sorted|
  {
    seq(|sorted|, i requires 0 <= i < |sorted| =>
      if 1 <= i < |labels| && labels[i] then Dummy(config, i) else sorted[i])
  }

  /** The sorted queries `deduplicate` leaves, as `Exec` of the sort. */
  function Sorted(q: seq<int>, config: Config): (s: seq<int>)
    ensures |s| == |q|
  {
    Exec(SortRange(0, config.batchSize, true), q).key
  }

  /** The label of position `i` is set exactly when `i >= 1` and the sorted query
      there equals its predecessor; position 0 is never labelled. */
  lemma LabelsAt(sorted: seq<int>, n: nat, i: nat)
    requires n <= |sorted| && i < n
    ensures Labels(sorted, n)[i] <==> 1 <= i && sorted[i] == sorted[i - 1]
    ensures i == 0 ==> !Labels(sorted, n)[i]
  {
  }

  /** Position 0 and every unlabelled position keeps its sorted query; a labelled
      position `i` holds `db_size + i` (reduced to `bitlength + 1` bits). */
  lemma ReplaceAt(sorted: seq<int>, config: Config, i: nat)
    requires config.batchSize <= |sorted| && i < |sorted|
    ensures var r := Replace(sorted, Labels(sorted, config.batchSize), config);
      && (1 <= i < config.batchSize && sorted[i] == sorted[i - 1] ==> r[i] == Dummy(config, i))
      && (!(1 <= i < config.batchSize && sorted[i] == sorted[i - 1]) ==> r[i] == sorted[i])
  {
  }

  /** The sort orders the first `n` queries ascending, keeps them inside the
      batch (as a permutation of the batch) and leaves the rest alone. */
  lemma SortedPrefix(q: seq<int>, config: Config)
    requires config.batchSize <= |q|
    ensures var n := config.batchSize;
      var s := Sorted(q, config);
      && SortedRange(s, 0, n, true)
      && multiset(s[..n]) == multiset(q[..n])
      && s[n..] == q[n..]
  {
    var n := config.batchSize;
    var t := Exec(SortRange(0, n, true), q);
    SortTraceSorts(q, 0, n, true);
    SortTraceWithin(q, 0, n, true);
    WithinFits(t.log, 0, n, n);
    PermutePrefix(t.log, q, n);
    PermuteMultiset(t.log, q[..n]);
  }

  /** The sorted queries are table indices when the queries are. */
  lemma SortedQueriesBounded(q: seq<int>, config: Config)
    requires config.batchSize <= |q|
    requires forall p :: 0 <= p < config.batchSize ==> 0 <= q[p] < config.dbSize
    ensures forall p :: 0 <= p < config.batchSize ==> 0 <= Sorted(q, config)[p] < config.dbSize
  {
    var n := config.batchSize;
    var s := Sorted(q, config);
    SortedPrefix(q, config);
    forall p | 0 <= p < n
      ensures 0 <= s[p] < config.dbSize
    {
      assert s[..n][p] == s[p];
      assert s[p] in multiset(q[..n]);
      var k :| 0 <= k < n && q[..n][k] == s[p];
    }
  }

  /** In an ascending range, an entry that differs from its predecessor is larger
      than every entry before it. */
  lemma KeptIncreasing(s: seq<int>, n: nat, p: nat, p': nat)
    requires n <= |s| && SortedRange(s, 0, n, true)
    requires p < p' < n && s[p'] != s[p' - 1]
    ensures s[p] < s[p']
  {
    if p < p' - 1 {
      assert Ordered(true, s[p], s[p' - 1]);
    }
    assert Ordered(true, s[p' - 1], s[p']);
  }

  /** The queries `deduplicate` hands on are pairwise distinct when every query
      is a table index and the dummies fit in `bitlength + 1` bits; each replaced
      entry is at least `db_size`, and each kept one is its sorted query, below
      `db_size`. */
  lemma {:induction false} DedupDistinct(q: seq<int>, config: Config)
    requires config.batchSize <= |q|
    requires forall p :: 0 <= p < config.batchSize ==> 0 <= q[p] < config.dbSize
    requires config.dbSize + config.batchSize <= Pow2(config.bitlength + 1)
    ensures var s := Sorted(q, config);
      var r := Replace(s, Labels(s, config.batchSize), config);
      && Distinct(r[..config.batchSize])
      && forall p :: 0 <= p < config.batchSize ==>
           (Labels(s, config.batchSize)[p] ==> r[p] >= config.dbSize) &&
           (!Labels(s, config.batchSize)[p] ==> 0 <= r[p] < config.dbSize && r[p] == s[p])
  {
    var n := config.batchSize;
    var s := Sorted(q, config);
    var labels := Labels(s, n);
    var r := Replace(s, labels, config);
    SortedQueriesBounded(q, config);
    SortedPrefix(q, config);
    forall p | 0 <= p < n
      ensures labels[p] ==> r[p] == config.dbSize + p
      ensures !labels[p] ==> 0 <= r[p] < config.dbSize && r[p] == s[p]
    {
      ReplacedValue(s, config, p);
    }
    forall p, p' | 0 <= p < n && 0 <= p' < n && p != p'
      ensures r[..n][p] != r[..n][p']
    {
      if !labels[p] && !labels[p'] {
        if p < p' {
          KeptIncreasing(s, n, p, p');
        } else {
          KeptIncreasing(s, n, p', p);
        }
      }
    }
  }

  /** Entry `p` after the replacement: the dummy `db_size + p` itself when the
      dummies fit, and otherwise the sorted query. */
  lemma ReplacedValue(s: seq<int>, config: Config, p: nat)
    requires config.batchSize <= |s| && p < config.batchSize
    requires config.dbSize + config.batchSize <= Pow2(config.bitlength + 1)
    ensures var r := Replace(s, Labels(s, config.batchSize), config);
      && (Labels(s, config.batchSize)[p] ==> r[p] == config.dbSize + p)
      && (!Labels(s, config.batchSize)[p] ==> r[p] == s[p])
  {
    DummyFits(config, p);
  }

  /** A dummy that fits in `bitlength + 1` bits is `db_size + i` itself. */
  lemma DummyFits(config: Config, i: nat)
    requires config.dbSize + i < Pow2(config.bitlength + 1)
    ensures Dummy(config, i) == config.dbSize + i
  {
    DivUnique(config.dbSize + i, Pow2(config.bitlength + 1), 0, config.dbSize + i);
  }

  // ---------------------------------------------------------------------------
  // What `remap` computes

  /** The answers after the loop `resp[i] = If(label[i], resp[i - 1], resp[i])`
      has run for `i = 1 .. n - 1`. */
  function Spread<V>(resp: seq<V>, labels: seq<bool>, n: nat): (r: seq<V>)
    requires n <= |labels| <= |resp|
    ensures |r| == |resp|
  {
    if n <= 1 then resp
    else
      var r := Spread(resp, labels, n - 1);
      r[n - 1 := if labels[n - 1] then r[n - 2] else r[n - 1]]
  }

  /** After the loop, every position in a run of labelled positions carries the
      answer of the run's head: when every unlabelled position `k` holds `T` of
      sorted query `k` and every labelled one repeats its predecessor's query,
      all of the first `n` positions do. */
  lemma {:induction false} SpreadRuns<V>(resp: seq<V>, labels: seq<bool>, s: seq<int>, T: int -> V, n: nat)
    requires n <= |labels| <= |resp| && |labels| <= |s|
    requires forall k :: 0 <= k < |labels| && !labels[k] ==> resp[k] == T(s[k])
    requires forall k :: 1 <= k < |labels| && labels[k] ==> s[k] == s[k - 1]
    requires |labels| > 0 ==> !labels[0]
    ensures forall k :: 0 <= k < n ==> Spread(resp, labels, n)[k] == T(s[k])
    ensures forall k :: n <= k < |resp| ==> Spread(resp, labels, n)[k] == resp[k]
  {
    if n > 1 {
      SpreadRuns(resp, labels, s, T, n - 1);
    }
  }

  /** End to end: when `resp` holds, at every unlabelled position, the table
      entry of the deduplicated query there, `remap` gives at every original
      position the table entry of the original query, including repeated ones. */
  lemma {:induction false} RemapRestores<V>(q: seq<int>, config: Config, T: int -> V, resp: seq<V>)
    requires config.batchSize <= |q| && config.batchSize <= |resp|
    requires var s := Sorted(q, config);
      forall k :: 0 <= k < config.batchSize && !Labels(s, config.batchSize)[k] ==> resp[k] == T(s[k])
    ensures var s := Sorted(q, config);
      var t := Exec(SortRange(0, config.batchSize, true), q);
      var r := Unpermute(t.log, Spread(resp, Labels(s, config.batchSize), config.batchSize));
      r[..config.batchSize] == Map(T, q[..config.batchSize])
  {
    var n := config.batchSize;
    var t := Exec(SortRange(0, n, true), q);
    var s := t.key;
    var labels := Labels(s, n);
    var spread := Spread(resp, labels, n);
    forall k | 1 <= k < n && labels[k]
      ensures s[k] == s[k - 1]
    {
      LabelsAt(s, n, k);
    }
    SpreadRuns(resp, labels, s, T, n);
    assert spread[..n] == Map(T, s[..n]);
    SortTraceSorts(q, 0, n, true);
    SortTraceWithin(q, 0, n, true);
    WithinFits(t.log, 0, n, n);
    UnpermutePrefix(t.log, spread, n);
    PermutePrefix(t.log, q, n);
    UnpermuteMap(t.log, T, Permute(t.log, q[..n]));
    UndoPermute(t.log, q[..n]);
  }

  // ---------------------------------------------------------------------------
  // The procedures

  /** `deduplicate(in, config)`: sort the first `batch_size` queries, build the
      dummies, label and replace the duplicates. */
  method Deduplicate(a: array<int>, config: Config) returns (ctx: DedupContext)
    requires config.batchSize <= a.Length
    modifies a
    ensures var t := Exec(SortRange(0, config.batchSize, true), old(a[..]));
      && ctx == DedupContext(t.log, Labels(t.key, config.batchSize), config)
      && a[..] == Replace(t.key, ctx.labels, config)
  {
    var n := config.batchSize;
    var sortResult := Sort.SecretSortColumn(a, n, true);
    var sortLog := sortResult.log;
    // `in[i].resize(bitlength + 1)` widens a query without changing its value.
    var dummies := MakeDummies(config);
    var labels := LabelDuplicates(a, n);
    ReplaceDuplicates(a, labels, dummies, config);
    ctx := DedupContext(sortLog, labels[..], config);
  }

  /** The loop of `deduplicate` that builds `dummies[i] = db_size + i`. */
  method MakeDummies(config: Config) returns (dummies: array<int>)
    ensures fresh(dummies) && dummies.Length == config.batchSize
    ensures forall p :: 0 <= p < config.batchSize ==> dummies[p] == Dummy(config, p)
  {
    dummies := new int[config.batchSize];
    var i := 0;
    while i < config.batchSize
      invariant i <= config.batchSize
      invariant forall p :: 0 <= p < i ==> dummies[p] == Dummy(config, p)
    {
      dummies[i] := Dummy(config, i);
      i := i + 1;
    }
  }

  /** The loop of `deduplicate` that sets `label[i] = (in[i] == in[i - 1])` for
      `i = 1 .. n - 1`, leaving `label[0]` false. */
  method LabelDuplicates(a: array<int>, n: nat) returns (labels: array<bool>)
    requires n <= a.Length
    ensures fresh(labels) && labels[..] == Labels(a[..], n)
  {
    labels := new bool[n](_ => false);
    var i := 1;
    while i < n
      invariant 1 <= i
      invariant forall p :: 0 <= p < n ==> labels[p] == (p < i && Labels(a[..], n)[p])
    {
      labels[i] := a[i] == a[i - 1];
      i := i + 1;
    }
    assert labels[..] == Labels(a[..], n);
  }

  /** The loop of `deduplicate` that sets `in[i] = If(label[i], dummies[i], in[i])`
      for `i = 1 .. n - 1`. */
  method ReplaceDuplicates(a: array<int>, labels: array<bool>, dummies: array<int>, config: Config)
    requires labels.Length == dummies.Length == config.batchSize <= a.Length && a != dummies
    requires forall p :: 0 <= p < config.batchSize ==> dummies[p] == Dummy(config, p)
    modifies a
    ensures a[..] == Replace(old(a[..]), labels[..], config)
  {
    var i := 1;
    while i < config.batchSize
      invariant 1 <= i
      invariant forall p :: 0 <= p < a.Length ==>
        a[p] == if 1 <= p < i && p < config.batchSize && labels[p] then Dummy(config, p) else old(a[p])
    {
      a[i] := if labels[i] then dummies[i] else a[i];
      i := i + 1;
    }
    assert a[..] == Replace(old(a[..]), labels[..], config);
  }

  /** `remap(resp, context)`: copy each run head's answer along its run, undo the
      dedup sort and keep the first `batch_size` answers. */
  method Remap<V>(resp: array<V>, ctx: DedupContext) returns (out: seq<V>)
    requires |ctx.labels| == ctx.config.batchSize <= resp.Length
    modifies resp
    ensures resp[..] == Unpermute(ctx.sortResult, Spread(old(resp[..]), ctx.labels, ctx.config.batchSize))
    ensures out == resp[..ctx.config.batchSize]
  {
    var n := ctx.config.batchSize;
    var i := 1;
    while i < n
      invariant 1 <= i && (n >= 1 ==> i <= n)
      invariant resp[..] == Spread(old(resp[..]), ctx.labels, if n == 0 then 0 else i)
    {
      resp[i] := if ctx.labels[i] then resp[i - 1] else resp[i];
      i := i + 1;
    }
    Sort.PermuteInPlace(ctx.sortResult, resp, true);
    out := resp[..n];
  }
}
