// The result collection of a FABLE lookup (src/GC/lookup.cpp, `fable_lookup`
// and `fable_lookup_fuse`): the deduplicated queries are padded to one per
// bucket and moved to their buckets by the context sort, each bucket XORs
// together the entries whose index equals its query, the answers are moved
// back and `remap` spreads them over the repeated queries.  The PIR engine,
// the OPRF ciphers and the network are inputs: the reconstructed tables are
// given by the shares the two parties feed.

module Lookup {
  import opened Bits
  import opened SwapLog
  import opened BitonicNetwork
  import opened SortSpec
  import Sort
  import opened Dedup
  import opened LookupContext
  import opened LookupShares

  // ---------------------------------------------------------------------------
  // Decoding one bucket

  /** The reconstructed tables `index[h][b]` and `entry[h][b]`. */
  predicate Tables(d: Dims, index: seq<seq<BitString>>, entry: seq<seq<BitString>>)
  {
    && d.Valid()
    && Table(index, d.w, d.buckets, d.inputLength)
    && Table(entry, d.w, d.buckets, d.EntryLength())
  }

  /** `If(selected_query == index, entry, zero_entry)`; the secret comparison of
      two `Integer`s compares their values. */
  function Select(q: int, index: BitString, entry: BitString, width: nat): (r: BitString)
    requires |entry| == width
    ensures |r| == width
  {
    if q == ToNat(index) then entry else Zeros(width)
  }

  /** `result[b]` once the loop over `hash_idx` has run for the first `h` hash
      functions. */
  function DecodeUpTo(q: int, index: seq<seq<BitString>>, entry: seq<seq<BitString>>, d: Dims, b: nat, h: nat)
      : (r: BitString)
    requires Tables(d, index, entry) && b < d.buckets && h <= d.w
    ensures |r| == d.EntryLength()
  {
    if h == 0 then Zeros(d.EntryLength())
    else Xor(DecodeUpTo(q, index, entry, d, b, h - 1), Select(q, index[h - 1][b], entry[h - 1][b], d.EntryLength()))
  }

  /** No slot of the bucket holds the query: the bucket decodes to zero. */
  lemma {:induction false} DecodeNoMatch(q: int, index: seq<seq<BitString>>, entry: seq<seq<BitString>>, d: Dims, b: nat, h: nat)
    requires Tables(d, index, entry) && b < d.buckets && h <= d.w
    requires forall k :: 0 <= k < h ==> ToNat(index[k][b]) != q
    ensures DecodeUpTo(q, index, entry, d, b, h) == Zeros(d.EntryLength())
  {
    if h > 0 {
      DecodeNoMatch(q, index, entry, d, b, h - 1);
      XorZeros(Zeros(d.EntryLength()));
    }
  }

  /** Exactly slot `m` of the bucket holds the query: the bucket decodes to that
      slot's entry. */
  lemma {:induction false} DecodeOneMatch(q: int, index: seq<seq<BitString>>, entry: seq<seq<BitString>>, d: Dims,
                                          b: nat, h: nat, m: nat)
    requires Tables(d, index, entry) && b < d.buckets && m < h <= d.w
    requires ToNat(index[m][b]) == q
    requires forall k :: 0 <= k < h && k != m ==> ToNat(index[k][b]) != q
    ensures DecodeUpTo(q, index, entry, d, b, h) == entry[m][b]
  {
    XorZeros(entry[m][b]);
    if h == m + 1 {
      DecodeNoMatch(q, index, entry, d, b, m);
    } else {
      DecodeOneMatch(q, index, entry, d, b, h - 1, m);
    }
  }

  /** The decoded buckets: bucket `b` decodes the query aligned with it. */
  function Decoded(q: seq<int>, index: seq<seq<BitString>>, entry: seq<seq<BitString>>, d: Dims): (r: seq<BitString>)
    requires Tables(d, index, entry) && |q| == d.buckets
    ensures |r| == d.buckets
  {
    seq(d.buckets, b requires 0 <= b < d.buckets => DecodeUpTo(q[b], index, entry, d, b, d.w))
  }

  /** The loop over `hash_idx` that XOR-accumulates `result[bucket_idx]`,
      starting from `zero_entry`. */
  method DecodeBucket(q: int, index: seq<seq<BitString>>, entry: seq<seq<BitString>>, d: Dims, b: nat)
      returns (acc: BitString)
    requires Tables(d, index, entry) && b < d.buckets
    ensures acc == DecodeUpTo(q, index, entry, d, b, d.w)
  {
    acc := Zeros(d.EntryLength());
    for h := 0 to d.w
      invariant acc == DecodeUpTo(q, index, entry, d, b, h)
    {
      acc := Xor(acc, Select(q, index[h][b], entry[h][b], d.EntryLength()));
    }
  }

  /** The loop over `bucket_idx`: every bucket decodes the query aligned with it. */
  method DecodeBuckets(q: seq<int>, index: seq<seq<BitString>>, entry: seq<seq<BitString>>, d: Dims)
      returns (result: array<BitString>)
    requires Tables(d, index, entry) && |q| == d.buckets
    ensures fresh(result) && result[..] == Decoded(q, index, entry, d)
  {
    result := new BitString[d.buckets](_ => []);
    for b := 0 to d.buckets
      invariant forall p :: 0 <= p < b ==> result[p] == DecodeUpTo(q[p], index, entry, d, p, d.w)
    {
      result[b] := DecodeBucket(q[b], index, entry, d, b);
    }
    assert result[..] == Decoded(q, index, entry, d);
  }

  // ---------------------------------------------------------------------------
  // Collecting the results

  /** `resize(n, zero)`: the first `n` queries, padded with zeros. */
  function Resize(q: seq<int>, n: nat): (r: seq<int>)
    ensures |r| == n
    ensures forall p :: 0 <= p < n ==> r[p] == if p < |q| then q[p] else 0
  {
    if n <= |q| then q[..n] else q + Unfilled(n - |q|)
  }

  /** `secret_queries.resize(num_bucket, zero_index)`, into a new buffer. */
  method PadQueries(q: array<int>, n: nat) returns (padded: array<int>)
    ensures fresh(padded) && padded[..] == Resize(q[..], n)
  {
    padded := new int[n](_ => 0);
    for p := 0 to if n <= q.Length then n else q.Length
      invariant forall p' :: 0 <= p' < n ==> padded[p'] == if p' < p then q[p'] else 0
    {
      padded[p] := q[p];
    }
    assert padded[..] == Resize(q[..], n);
  }

  /** What result collection computes from the deduplicated queries and the
      log of the context sort: align, decode, unalign. */
  function Collected(q: seq<int>, log: seq<Swap>, index: seq<seq<BitString>>, entry: seq<seq<BitString>>, d: Dims)
      : (r: seq<BitString>)
    requires Tables(d, index, entry)
    ensures |r| == d.buckets
  {
    Unpermute(log, Decoded(Permute(log, Resize(q, d.buckets)), index, entry, d))
  }

  /** Result collection: pad the queries to one per bucket, `permute(sort_res,
      secret_queries)`, decode every bucket, `permute(sort_res, result, true)`. */
  method CollectResults(queries: array<int>, log: seq<Swap>, index: seq<seq<BitString>>,
                        entry: seq<seq<BitString>>, d: Dims) returns (result: array<BitString>)
    requires Tables(d, index, entry)
    ensures fresh(result) && result[..] == Collected(queries[..], log, index, entry, d)
  {
    var aligned := PadQueries(queries, d.buckets);
    Sort.PermuteInPlace(log, aligned, false);
    result := DecodeBuckets(aligned[..], index, entry, d);
    Sort.PermuteInPlace(log, result, true);
  }

  // ---------------------------------------------------------------------------
  // The whole lookup

  /** What a lookup answers, given the log of the context sort and the
      reconstructed tables: deduplicate, collect, remap. */
  function Answers(q: seq<int>, config: Config, log: seq<Swap>, index: seq<seq<BitString>>,
                   entry: seq<seq<BitString>>, d: Dims): (r: seq<BitString>)
    requires config.batchSize <= |q| && config.batchSize <= d.buckets && Tables(d, index, entry)
    ensures |r| == config.batchSize
  {
    var n := config.batchSize;
    var t := Exec(SortRange(0, n, true), q);
    var labels := Labels(t.key, n);
    var collected := Collected(Replace(t.key, labels, config), log, index, entry, d);
    Unpermute(t.log, Spread(collected, labels, n))[..n]
  }

  /** What the lookup needs of its inputs: a batch that fits the buckets, enough
      dummy buckets at BOB, a peer log of the right length at ALICE, and
      shares of the right shapes. */
  predicate Inputs(queries: seq<int>, config: Config, party: int, inv: map<int, int>, keys: set<int>, d: Dims,
                   aIndex: seq<seq<BitString>>, aEntry: seq<seq<BitString>>, bits: seq<bool>, peer: seq<bool>)
  {
    && config.batchSize <= |queries| && config.batchSize <= d.buckets && d.buckets > 0
    && (party == Sort.BOB ==> d.buckets - config.batchSize <= |Absent(keys, d.buckets)|)
    && (party != Sort.BOB ==> |peer| == |Exec(SortRange(0, d.buckets, true), Unfilled(d.buckets)).log|)
    && d.Valid() && |bits| == d.Total()
    && Table(aIndex, d.w, d.buckets, d.inputLength) && Table(aEntry, d.w, d.buckets, d.EntryLength())
  }

  /** `fable_lookup`, run by `party`: deduplicate, convert the shares (ALICE's
      `aIndex`/`aEntry` and the buffer `bits` BOB feeds), build and sort the
      context, collect and remap. */
  method FableLookup(queries: seq<int>, config: Config, party: int, inv: map<int, int>, keys: set<int>, d: Dims,
                     aIndex: seq<seq<BitString>>, aEntry: seq<seq<BitString>>, bits: seq<bool>, peer: seq<bool>)
      returns (out: seq<BitString>)
    requires Inputs(queries, config, party, inv, keys, d, aIndex, aEntry, bits, peer)
    ensures out == Answers(queries, config, PartyLog(party, inv, keys, config.batchSize, d.buckets, peer),
                           XorTable(aIndex, SlicedIndex(d, bits), d.w, d.buckets, d.inputLength),
                           XorTable(aEntry, SlicedEntry(d, bits), d.w, d.buckets, d.EntryLength()), d)
  {
    var a, ctx := Deduplicated(queries, config);
    ghost var deduped := a[..];
    var index, entry := ConvertShares(d, aIndex, aEntry, bits);
    var log := ContextSort(party, inv, keys, config.batchSize, d.buckets, peer);
    var result := CollectResults(a, log, index, entry, d);
    assert result[..] == Collected(deduped, log, index, entry, d);
    out := Remap(result, ctx);
    AnswersUnfold(queries, config, log, index, entry, d);
  }

  /** `fable_lookup_fuse`: the same steps, with the context built and sorted
      before the shares are converted. */
  method FableLookupFuse(queries: seq<int>, config: Config, party: int, inv: map<int, int>, keys: set<int>, d: Dims,
                         aIndex: seq<seq<BitString>>, aEntry: seq<seq<BitString>>, bits: seq<bool>, peer: seq<bool>)
      returns (out: seq<BitString>)
    requires Inputs(queries, config, party, inv, keys, d, aIndex, aEntry, bits, peer)
    ensures out == Answers(queries, config, PartyLog(party, inv, keys, config.batchSize, d.buckets, peer),
                           XorTable(aIndex, SlicedIndex(d, bits), d.w, d.buckets, d.inputLength),
                           XorTable(aEntry, SlicedEntry(d, bits), d.w, d.buckets, d.EntryLength()), d)
  {
    var a, ctx := Deduplicated(queries, config);
    ghost var deduped := a[..];
    var log := ContextSort(party, inv, keys, config.batchSize, d.buckets, peer);
    var index, entry := ConvertShares(d, aIndex, aEntry, bits);
    var result := CollectResults(a, log, index, entry, d);
    assert result[..] == Collected(deduped, log, index, entry, d);
    out := Remap(result, ctx);
    AnswersUnfold(queries, config, log, index, entry, d);
  }

  /** `deduplicate` on the lookup's own copy of the queries (they are passed by
      value). */
  method Deduplicated(queries: seq<int>, config: Config) returns (a: array<int>, ctx: DedupContext)
    requires config.batchSize <= |queries|
    ensures fresh(a)
    ensures var t := Exec(SortRange(0, config.batchSize, true), queries);
      && ctx == DedupContext(t.log, Labels(t.key, config.batchSize), config)
      && a[..] == Replace(t.key, ctx.labels, config)
  {
    a := new int[|queries|](p requires 0 <= p < |queries| => queries[p]);
    assert a[..] == queries;
    ctx := Deduplicate(a, config);
  }

  /** The context: build `sort_reference` and sort it with clear keys; the log
      is the party's `PartyLog`. */
  method ContextSort(party: int, inv: map<int, int>, keys: set<int>, batch: nat, n: nat, peer: seq<bool>)
      returns (log: seq<Swap>)
    requires n > 0
    requires party == Sort.BOB ==> batch <= n && n - batch <= |Absent(keys, n)|
    requires party != Sort.BOB ==> |peer| == |Exec(SortRange(0, n, true), Unfilled(n)).log|
    ensures log == PartyLog(party, inv, keys, batch, n, peer)
  {
    var sortRef := BuildSortReference(party, inv, keys, batch, n);
    var sortRes := Sort.ClearSortKeys(sortRef, n, Sort.BOB, true, party, peer);
    log := sortRes.log;
  }

  /** `Answers`, step by step. */
  lemma AnswersUnfold(q: seq<int>, config: Config, log: seq<Swap>, index: seq<seq<BitString>>,
                      entry: seq<seq<BitString>>, d: Dims)
    requires config.batchSize <= |q| && config.batchSize <= d.buckets && Tables(d, index, entry)
    ensures var n := config.batchSize;
      var t := Exec(SortRange(0, n, true), q);
      var labels := Labels(t.key, n);
      Answers(q, config, log, index, entry, d)
        == Unpermute(t.log, Spread(Collected(Replace(t.key, labels, config), log, index, entry, d), labels, n))[..n]
  {
  }

  /** Share conversion: slice `B_index`/`B_entry` out of the fed buffer and XOR
      them with ALICE's shares. */
  method ConvertShares(d: Dims, aIndex: seq<seq<BitString>>, aEntry: seq<seq<BitString>>, bits: seq<bool>)
      returns (index: seq<seq<BitString>>, entry: seq<seq<BitString>>)
    requires d.Valid() && |bits| == d.Total()
    requires Table(aIndex, d.w, d.buckets, d.inputLength) && Table(aEntry, d.w, d.buckets, d.EntryLength())
    ensures index == XorTable(aIndex, SlicedIndex(d, bits), d.w, d.buckets, d.inputLength)
    ensures entry == XorTable(aEntry, SlicedEntry(d, bits), d.w, d.buckets, d.EntryLength())
    ensures Tables(d, index, entry)
  {
    var bIndex, bEntry := SliceShares(d, bits);
    GridIs(bIndex, SlicedIndex(d, bits));
    GridIs(bEntry, SlicedEntry(d, bits));
    var gIndex, gEntry := ReconstructShares(aIndex, Grid(bIndex), aEntry, Grid(bEntry),
                                            d.w, d.buckets, d.inputLength, d.EntryLength());
    index, entry := Grid(gIndex), Grid(gEntry);
  }

  // ---------------------------------------------------------------------------
  // Correctness

  /** The PIR retrieval worked for bucket `b`: exactly one of its slots holds
      the index `v`, and that slot's entry is `e`. */
  predicate Retrieved(index: seq<seq<BitString>>, entry: seq<seq<BitString>>, d: Dims, b: int, v: int, e: BitString)
  {
    && Tables(d, index, entry) && 0 <= b < d.buckets
    && exists m :: 0 <= m < d.w && ToNat(index[m][b]) == v && entry[m][b] == e
        && forall k :: 0 <= k < d.w && k != m ==> ToNat(index[k][b]) != v
  }

  /** End to end: when the cuckoo map places the deduplicated queries in
      distinct buckets and every bucket of a distinct query retrieved its table
      entry, the lookup answers every original query, repeated ones included,
      with its table entry. */
  lemma {:induction false} LookupCorrect(q: seq<int>, config: Config, inv: map<int, int>, keys: set<int>,
                                         index: seq<seq<BitString>>, entry: seq<seq<BitString>>, d: Dims,
                                         T: int -> BitString)
    requires config.batchSize <= |q| && config.batchSize <= d.buckets && Tables(d, index, entry)
    requires CuckooPlacement(inv, keys, config.batchSize, d.buckets)
    requires var s := Sorted(q, config);
      forall i :: 0 <= i < config.batchSize && !Labels(s, config.batchSize)[i] ==>
        Retrieved(index, entry, d, InvAt(inv, i), s[i], T(s[i]))
    ensures |Absent(keys, d.buckets)| == d.buckets - config.batchSize
    ensures Answers(q, config, ContextLog(SortReference(inv, keys, config.batchSize, d.buckets)), index, entry, d)
      == Map(T, q[..config.batchSize])
  {
    var n := config.batchSize;
    SortReferencePermutation(inv, keys, n, d.buckets);
    var ref := SortReference(inv, keys, n, d.buckets);
    var log := ContextLog(ref);
    var s := Sorted(q, config);
    var labels := Labels(s, n);
    var deduped := Replace(s, labels, config);
    var collected := Collected(deduped, log, index, entry, d);
    forall i | 0 <= i < n && !labels[i]
      ensures collected[i] == T(s[i])
    {
      BucketAnswer(deduped, ref, index, entry, d, i, s[i], T(s[i]));
      assert ref[i] == InvAt(inv, i);
    }
    RemapRestores(q, config, T, collected);
  }

  /** One distinct query: it lands in its bucket, the bucket decodes to the
      retrieved entry, and the entry comes back to the query's position. */
  lemma BucketAnswer(deduped: seq<int>, ref: seq<int>, index: seq<seq<BitString>>, entry: seq<seq<BitString>>,
                     d: Dims, i: nat, v: int, e: BitString)
    requires Tables(d, index, entry) && |ref| == d.buckets && i < |deduped| && i < d.buckets
    requires Distinct(ref) && forall p :: 0 <= p < |ref| ==> 0 <= ref[p] < |ref|
    requires deduped[i] == v && Retrieved(index, entry, d, ref[i], v, e)
    ensures Collected(deduped, ContextLog(ref), index, entry, d)[i] == e
  {
    var log := ContextLog(ref);
    var padded := Resize(deduped, d.buckets);
    var decoded := Decoded(Permute(log, padded), index, entry, d);
    ContextAligns(ref, padded, i);
    ContextAligns(ref, decoded, i);
    var m :| 0 <= m < d.w && ToNat(index[m][ref[i]]) == v && entry[m][ref[i]] == e
        && forall k :: 0 <= k < d.w && k != m ==> ToNat(index[k][ref[i]]) != v;
    DecodeOneMatch(v, index, entry, d, ref[i], d.w, m);
  }
}
