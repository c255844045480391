/** Word-embedding lookup of src/applications/embedding.cpp: an embedding of 32
    dimensions of 16 bits is packed into one 512-bit table entry, the 16 words
    of each of 32 sentences are flattened into one batch of 512 queries, and the
    looked-up entries are unpacked and summed per sentence and dimension in
    16-bit arithmetic.  A secret `Integer` is the bit string it shares (least
    significant bit first); its revealed value is `ToNat` of it. */
module Embedding {
  import opened Bits
  import opened Text

  const BITS_PER_ELEMENT: nat := 16
  const NUM_DIMENSIONS: nat := 32
  const OUTPUT_BITS: nat := 512
  const WORDS_PER_SAMPLE: nat := 16
  const SAMPLES_PER_BATCH: nat := 32
  const WORDS_PER_BATCH: nat := 512
  /** `2^16`: the range of a `uint16_t` and of a 16-bit `Integer`. */
  const ELEMENT_MOD: nat := 0x1_0000
  /** Elements are drawn below `(1 << bits_per_element) / words_per_sample`. */
  const ELEMENT_BOUND: nat := 4096

  /** A `PlainArray` embedding: 32 `uint16_t` values. */
  predicate IsEmbedding(e: seq<nat>)
  {
    |e| == NUM_DIMENSIONS && forall d :: 0 <= d < NUM_DIMENSIONS ==> e[d] < ELEMENT_MOD
  }

  // ---------------------------------------------------------------------------
  // pack / unpack

  /** The string `pack` has built after `n` dimensions: each new dimension's
      16-character printout goes in front. */
  function PackString(e: seq<nat>, n: nat): (s: string)
    requires n <= |e|
    ensures |s| == 16 * n
  {
    if n == 0 then "" else BinaryString(e[n - 1], BITS_PER_ELEMENT) + PackString(e, n - 1)
  }

  /** The bits of dimensions `0 .. n-1`, dimension 0 lowest. */
  function PackedBits(e: seq<nat>, n: nat): (bs: BitString)
    requires n <= |e|
    ensures |bs| == 16 * n
  {
    if n == 0 then [] else PackedBits(e, n - 1) + FromNat(BITS_PER_ELEMENT, e[n - 1])
  }

  /** The bitset of the packed string holds dimension `d` at bits
      `[16d, 16d+16)`. */
  lemma {:induction false} PackStringBits(e: seq<nat>, n: nat)
    requires n <= |e|
    ensures BitsetOf(PackString(e, n)) == PackedBits(e, n)
    decreases n
  {
    if n > 0 {
      var hi := BinaryString(e[n - 1], BITS_PER_ELEMENT);
      var lo := PackString(e, n - 1);
      BitsetAppend(hi, lo);
      PackStringBits(e, n - 1);
      BitsetOfBinary(e[n - 1], BITS_PER_ELEMENT);
    }
  }

  /** The rightmost characters of a string are the low bits of its bitset. */
  lemma BitsetAppend(hi: string, lo: string)
    ensures BitsetOf(hi + lo) == BitsetOf(lo) + BitsetOf(hi)
  {
    var s := hi + lo;
    forall k | 0 <= k < |s|
      ensures BitsetOf(s)[k] == (BitsetOf(lo) + BitsetOf(hi))[k]
    {
      if k >= |lo| {
        assert s[|s| - 1 - k] == hi[|hi| - 1 - (k - |lo|)];
      }
    }
  }

  /** Dimension `d` sits at bits `[16d, 16d+16)` of the packed bits. */
  lemma {:induction false} PackedBitsAt(e: seq<nat>, n: nat, d: nat)
    requires d < n <= |e|
    ensures Dim(PackedBits(e, n), d) == FromNat(BITS_PER_ELEMENT, e[d])
    decreases n
  {
    var bs := PackedBits(e, n);
    if d < n - 1 {
      PackedBitsAt(e, n - 1, d);
      var prev := PackedBits(e, n - 1);
      assert Dim(bs, d) == Dim(prev, d);
    }
  }

  /** Bits `[16d, 16d+16)`: where dimension `d` of a packed entry lives. */
  function Dim(block: BitString, d: nat): BitString
    requires 16 * d + 16 <= |block|
  {
    block[16 * d..16 * d + 16]
  }

  /** A 512-bit entry holding the 16-bit value `e[d]` at bits `[16d, 16d+16)`
      for every dimension `d`. */
  predicate PackedLayout(e: seq<nat>, block: BitString)
    requires |e| == NUM_DIMENSIONS
  {
    && |block| == OUTPUT_BITS
    && forall d :: 0 <= d < NUM_DIMENSIONS ==>
         Dim(block, d) == FromNat(BITS_PER_ELEMENT, e[d])
  }

  /** `pack(embedding)`: prepends the 16-bit printout of every dimension to
      `buf` and reads the 512-character result as a bitset, so that dimension 0
      is the rightmost 16 characters, the low 16 bits. */
  method Pack(e: seq<nat>) returns (block: BitString)
    requires IsEmbedding(e)
    ensures PackedLayout(e, block)
  {
    var buf := "";
    for d := 0 to NUM_DIMENSIONS
      invariant buf == PackString(e, d)
    {
      buf := BinaryString(e[d], BITS_PER_ELEMENT) + buf;
    }
    block := BitsetOf(buf);
    PackStringBits(e, NUM_DIMENSIONS);
    forall d | 0 <= d < NUM_DIMENSIONS
      ensures Dim(block, d) == FromNat(BITS_PER_ELEMENT, e[d])
    {
      PackedBitsAt(e, NUM_DIMENSIONS, d);
    }
  }

  /** `unpack(packed)`: value `d` is a copy of bits `[16d, 16d+16)`. */
  method Unpack(packed: BitString) returns (result: seq<BitString>)
    requires |packed| == OUTPUT_BITS
    ensures |result| == NUM_DIMENSIONS
    ensures forall d :: 0 <= d < NUM_DIMENSIONS ==>
      result[d] == Dim(packed, d)
  {
    var values := new BitString[NUM_DIMENSIONS](_ => []);
    for d := 0 to NUM_DIMENSIONS
      invariant forall d' :: 0 <= d' < d ==>
        values[d'] == Dim(packed, d')
    {
      values[d] := packed[16 * d..16 * (d + 1)];
    }
    result := values[..];
  }

  /** Round trip: unpacking a packed embedding gives back every dimension. */
  lemma UnpackPack(e: seq<nat>, block: BitString, values: seq<BitString>)
    requires IsEmbedding(e) && PackedLayout(e, block)
    requires |values| == NUM_DIMENSIONS
    requires forall d :: 0 <= d < NUM_DIMENSIONS ==>
      values[d] == Dim(block, d)
    ensures forall d :: 0 <= d < NUM_DIMENSIONS ==> ToNat(values[d]) == e[d]
  {
    forall d | 0 <= d < NUM_DIMENSIONS
      ensures ToNat(values[d]) == e[d]
    {
      ElementValue(e[d]);
    }
  }

  /** A `uint16_t` survives a 16-bit `Integer`. */
  lemma ElementValue(v: nat)
    requires v < ELEMENT_MOD
    ensures ToNat(FromNat(BITS_PER_ELEMENT, v)) == v
  {
    ToNatFromNat(BITS_PER_ELEMENT, v);
    Pow2Sixteen();
    DivUnique(v, ELEMENT_MOD, 0, v);
  }

  lemma Pow2Sixteen()
    ensures Pow2(BITS_PER_ELEMENT) == ELEMENT_MOD
  {
    assert Pow2(4) == 16;
    assert Pow2(8) == 256 by { Pow2Add(4, 4); }
    Pow2Add(8, 8);
  }

  // ---------------------------------------------------------------------------
  // Flattening the batch

  /** Where word `w` of sentence `s` goes in the flattened batch. */
  function FlatIndex(s: nat, w: nat): nat
  {
    s * 16 + w
  }

  /** The flattening index maps the 32 x 16 words one to one onto the 512 batch
      positions: it stays below 512, distinct words get distinct positions, and
      every position is the index of its quotient and remainder by 16. */
  lemma FlatIndexBijection()
    ensures forall s, w :: 0 <= s < SAMPLES_PER_BATCH && 0 <= w < WORDS_PER_SAMPLE ==> FlatIndex(s, w) < WORDS_PER_BATCH
    ensures forall s, w, s', w' ::
      0 <= s && 0 <= s' && 0 <= w < WORDS_PER_SAMPLE && 0 <= w' < WORDS_PER_SAMPLE && FlatIndex(s, w) == FlatIndex(s', w')
      ==> s == s' && w == w'
    ensures forall k :: 0 <= k < WORDS_PER_BATCH ==>
      k / WORDS_PER_SAMPLE < SAMPLES_PER_BATCH && FlatIndex(k / WORDS_PER_SAMPLE, k % WORDS_PER_SAMPLE) == k
  {
    forall s: nat, w: nat, s': nat, w': nat | w < WORDS_PER_SAMPLE && 0 <= w' < WORDS_PER_SAMPLE && FlatIndex(s, w) == FlatIndex(s', w')
      ensures s == s' && w == w'
    {
      DivUnique(FlatIndex(s, w), WORDS_PER_SAMPLE, s, w);
      DivUnique(FlatIndex(s', w'), WORDS_PER_SAMPLE, s', w');
    }
  }

  /** The flattening loop of `bench_embedding`: `flattened_input[s * 16 + w]`
      is word `w` of sentence `s`. */
  method FlattenInput(sentences: seq<seq<nat>>) returns (flat: seq<nat>)
    requires |sentences| == SAMPLES_PER_BATCH
    requires forall s :: 0 <= s < SAMPLES_PER_BATCH ==> |sentences[s]| == WORDS_PER_SAMPLE
    ensures |flat| == WORDS_PER_BATCH
    ensures forall s, w :: 0 <= s < SAMPLES_PER_BATCH && 0 <= w < WORDS_PER_SAMPLE ==>
      flat[FlatIndex(s, w)] == sentences[s][w]
  {
    var buf := new nat[WORDS_PER_BATCH](_ => 0);
    for s := 0 to SAMPLES_PER_BATCH
      invariant forall s', w :: 0 <= s' < s && 0 <= w < WORDS_PER_SAMPLE ==> buf[FlatIndex(s', w)] == sentences[s'][w]
    {
      for w := 0 to WORDS_PER_SAMPLE
        invariant forall s', w' :: 0 <= s' < s && 0 <= w' < WORDS_PER_SAMPLE ==> buf[FlatIndex(s', w')] == sentences[s'][w']
        invariant forall w' :: 0 <= w' < w ==> buf[FlatIndex(s, w')] == sentences[s][w']
      {
        buf[FlatIndex(s, w)] := sentences[s][w];
      }
    }
    flat := buf[..];
  }

  // ---------------------------------------------------------------------------
  // Aggregation

  /** Dimension `d` of a looked-up 512-bit entry, as a 16-bit value. */
  function Field(block: BitString, d: nat): nat
    requires |block| == OUTPUT_BITS && d < NUM_DIMENSIONS
  {
    ToNat(Dim(block, d))
  }

  /** The batch of looked-up entries, each 512 bits. */
  predicate Entries(flatResult: seq<BitString>)
  {
    |flatResult| == WORDS_PER_BATCH && forall k :: 0 <= k < WORDS_PER_BATCH ==> |flatResult[k]| == OUTPUT_BITS
  }

  /** `a + b` on `uint16_t` values and on 16-bit `Integer`s: the sum wraps
      around at `2^16`. */
  function Add16(a: nat, b: nat): (c: nat)
    ensures c < ELEMENT_MOD
    ensures a + b < ELEMENT_MOD ==> c == a + b
    ensures a + b >= ELEMENT_MOD && a < ELEMENT_MOD && b < ELEMENT_MOD ==> c == a + b - ELEMENT_MOD
  {
    (a + b) % 0x1_0000
  }

  /** `result[s][d]` after the first `n` words of sentence `s` are added, in
      16-bit `Integer` arithmetic. */
  function SampleSum(flatResult: seq<BitString>, s: nat, d: nat, n: nat): nat
    requires Entries(flatResult) && s < SAMPLES_PER_BATCH && d < NUM_DIMENSIONS && n <= WORDS_PER_SAMPLE
  {
    if n == 0 then 0
    else Add16(SampleSum(flatResult, s, d, n - 1), Field(flatResult[FlatIndex(s, n - 1)], d))
  }

  /** One sentence of the aggregation loop: start from zeros and add the
      unpacked dimensions of each of its 16 words. */
  method AggregateSample(flatResult: seq<BitString>, s: nat) returns (row: seq<nat>)
    requires Entries(flatResult) && s < SAMPLES_PER_BATCH
    ensures |row| == NUM_DIMENSIONS
    ensures forall d :: 0 <= d < NUM_DIMENSIONS ==> row[d] == SampleSum(flatResult, s, d, WORDS_PER_SAMPLE)
  {
    row := seq(NUM_DIMENSIONS, _ => 0);
    for w := 0 to WORDS_PER_SAMPLE
      invariant |row| == NUM_DIMENSIONS
      invariant forall d :: 0 <= d < NUM_DIMENSIONS ==> row[d] == SampleSum(flatResult, s, d, w)
    {
      var unpacked := Unpack(flatResult[FlatIndex(s, w)]);
      ghost var before := row;
      row := AddWord(row, unpacked);
      forall d | 0 <= d < NUM_DIMENSIONS
        ensures row[d] == SampleSum(flatResult, s, d, w + 1)
      {
        assert ToNat(unpacked[d]) == Field(flatResult[FlatIndex(s, w)], d);
      }
    }
  }

  /** `result[s][d] = result[s][d] + unpacked_result[d]` for every dimension
      `d`, in 16-bit arithmetic. */
  method AddWord(row0: seq<nat>, unpacked: seq<BitString>) returns (row: seq<nat>)
    requires |row0| == NUM_DIMENSIONS && |unpacked| == NUM_DIMENSIONS
    ensures |row| == NUM_DIMENSIONS
    ensures forall d :: 0 <= d < NUM_DIMENSIONS ==> row[d] == Add16(row0[d], ToNat(unpacked[d]))
  {
    row := row0;
    for d := 0 to NUM_DIMENSIONS
      invariant |row| == NUM_DIMENSIONS
      invariant forall d' :: 0 <= d' < d ==> row[d'] == Add16(row0[d'], ToNat(unpacked[d']))
      invariant forall d' :: d <= d' < NUM_DIMENSIONS ==> row[d'] == row0[d']
    {
      row := row[d := (row[d] + ToNat(unpacked[d])) % 0x1_0000];
    }
  }

  /** The aggregation loop of `bench_embedding`: one row of 32 sums per
      sentence. */
  method Aggregate(flatResult: seq<BitString>) returns (result: seq<seq<nat>>)
    requires Entries(flatResult)
    ensures |result| == SAMPLES_PER_BATCH
    ensures forall s :: 0 <= s < SAMPLES_PER_BATCH ==> |result[s]| == NUM_DIMENSIONS
    ensures forall s, d :: 0 <= s < SAMPLES_PER_BATCH && 0 <= d < NUM_DIMENSIONS ==>
      result[s][d] == SampleSum(flatResult, s, d, WORDS_PER_SAMPLE)
  {
    result := [];
    for s := 0 to SAMPLES_PER_BATCH
      invariant |result| == s
      invariant forall s' :: 0 <= s' < s ==> |result[s']| == NUM_DIMENSIONS
      invariant forall s', d :: 0 <= s' < s && 0 <= d < NUM_DIMENSIONS ==>
        result[s'][d] == SampleSum(flatResult, s', d, WORDS_PER_SAMPLE)
    {
      var row := AggregateSample(flatResult, s);
      result := result + [row];
    }
  }

  // ---------------------------------------------------------------------------
  // Agreement with the ground truth

  /** A word-embedding table: every word has an embedding. */
  predicate Table(table: seq<seq<nat>>)
  {
    forall v :: 0 <= v < |table| ==> IsEmbedding(table[v])
  }

  /** The sentences: 32 of 16 words, each a word of the table. */
  predicate Sentences(table: seq<seq<nat>>, sentences: seq<seq<nat>>)
  {
    && |sentences| == SAMPLES_PER_BATCH
    && forall s :: 0 <= s < SAMPLES_PER_BATCH ==>
         |sentences[s]| == WORDS_PER_SAMPLE && forall w :: 0 <= w < WORDS_PER_SAMPLE ==> sentences[s][w] < |table|
  }

  /** `gt_result` after `n` words: the `uint16_t` sum of the embeddings of the
      first `n` words of sentence `s` in dimension `d`. */
  function GroundTruth(table: seq<seq<nat>>, sentences: seq<seq<nat>>, s: nat, d: nat, n: nat): nat
    requires Table(table) && Sentences(table, sentences)
    requires s < SAMPLES_PER_BATCH && d < NUM_DIMENSIONS && n <= WORDS_PER_SAMPLE
  {
    if n == 0 then 0
    else Add16(GroundTruth(table, sentences, s, d, n - 1), table[sentences[s][n - 1]][d])
  }

  /** The lookup returned, at every batch position, the packed embedding of the
      word queried there. */
  predicate LookedUp(table: seq<seq<nat>>, sentences: seq<seq<nat>>, flatResult: seq<BitString>)
    requires Table(table) && Sentences(table, sentences)
  {
    && Entries(flatResult)
    && forall s, w :: 0 <= s < SAMPLES_PER_BATCH && 0 <= w < WORDS_PER_SAMPLE ==>
         FlatIndex(s, w) < WORDS_PER_BATCH && PackedLayout(table[sentences[s][w]], flatResult[FlatIndex(s, w)])
  }

  /** With a correct lookup, every aggregated sum is the ground-truth sum. */
  lemma {:induction false} AggregateCorrect(table: seq<seq<nat>>, sentences: seq<seq<nat>>, flatResult: seq<BitString>,
                                            s: nat, d: nat, n: nat)
    requires Table(table) && Sentences(table, sentences) && LookedUp(table, sentences, flatResult)
    requires s < SAMPLES_PER_BATCH && d < NUM_DIMENSIONS && n <= WORDS_PER_SAMPLE
    ensures SampleSum(flatResult, s, d, n) == GroundTruth(table, sentences, s, d, n)
    decreases n
  {
    if n > 0 {
      AggregateCorrect(table, sentences, flatResult, s, d, n - 1);
      var e := table[sentences[s][n - 1]];
      var block := flatResult[FlatIndex(s, n - 1)];
      assert PackedLayout(e, block);
      assert Dim(block, d) == FromNat(BITS_PER_ELEMENT, e[d]);
      ElementValue(e[d]);
      assert Field(block, d) == e[d];
    }
  }

  /** The sum of the first `n` words without wrap-around. */
  function PlainSum(table: seq<seq<nat>>, sentences: seq<seq<nat>>, s: nat, d: nat, n: nat): nat
    requires Table(table) && Sentences(table, sentences)
    requires s < SAMPLES_PER_BATCH && d < NUM_DIMENSIONS && n <= WORDS_PER_SAMPLE
  {
    if n == 0 then 0 else PlainSum(table, sentences, s, d, n - 1) + table[sentences[s][n - 1]][d]
  }

  /** Elements below 4096 make 16 words sum below `2^16`: the 16-bit sums
      never wrap and equal the true sums. */
  lemma {:induction false} NoWrap(table: seq<seq<nat>>, sentences: seq<seq<nat>>, s: nat, d: nat, n: nat)
    requires Table(table) && Sentences(table, sentences)
    requires forall v, d' :: 0 <= v < |table| && 0 <= d' < NUM_DIMENSIONS ==> table[v][d'] < ELEMENT_BOUND
    requires s < SAMPLES_PER_BATCH && d < NUM_DIMENSIONS && n <= WORDS_PER_SAMPLE
    ensures PlainSum(table, sentences, s, d, n) <= 4095 * n
    ensures GroundTruth(table, sentences, s, d, n) == PlainSum(table, sentences, s, d, n)
    decreases n
  {
    if n > 0 {
      NoWrap(table, sentences, s, d, n - 1);
    }
  }
}
