// The share conversion of a FABLE lookup (src/GC/lookup.cpp): BOB lays the
// decoded PIR responses out in one flat bit buffer, both parties slice that
// buffer back into per-slot index and entry shares, and the shares are
// reconstructed by XOR.  Also the bit-sliced LowMC plaintext layout.

module LookupShares {
  import opened Bits
  import opened Layout

  // ---------------------------------------------------------------------------
  // The flat bit buffer

  /** The shape of the share tables: `w` hash functions, `buckets` buckets, and
      per slot a `blockSize`-bit data block (`datablock_size`) whose first
      `inputLength` bits are the index and the rest the entry.  ALICE's shares
      are given the same widths as BOB's slices: `inputLength` stands for both
      `DatabaseConstants::InputLength` and `LUT_INPUT_SIZE + 1`, and
      `EntryLength()` for both `datablock_size - InputLength` and
      `LUT_OUTPUT_SIZE`. */
  datatype Dims = Dims(w: nat, buckets: nat, inputLength: nat, blockSize: nat)
  {
    predicate Valid()
    {
      inputLength <= blockSize
    }

    /** `total_length`. */
    function Total(): nat
    {
      w * buckets * blockSize
    }

    /** The width of an entry: what follows the index in a data block. */
    function EntryLength(): nat
      requires Valid()
    {
      blockSize - inputLength
    }

    /** `hash_idx * num_bucket * datablock_size + bucket_idx * datablock_size + bit_idx`. */
    function Offset(h: nat, b: nat, k: nat): nat
    {
      Layout.Offset(buckets, blockSize, h, b, k)
    }
  }

  /** The client's decoded responses, split into index and entry:
      `index[b][h]` and `entry[b][h]` for bucket `b` and hash function `h`. */
  predicate Responses(d: Dims, index: seq<seq<BitString>>, entry: seq<seq<BitString>>)
  {
    && d.Valid()
    && |index| == |entry| == d.buckets
    && (forall b :: 0 <= b < d.buckets ==> |index[b]| == |entry[b]| == d.w)
    && (forall b, h :: 0 <= b < d.buckets && 0 <= h < d.w ==>
          |index[b][h]| == d.inputLength && |entry[b][h]| == d.EntryLength())
  }

  /** The data blocks by hash function and bucket: slot `(h, b)` holds the
      index of the response then its entry. */
  function SlotTable(d: Dims, index: seq<seq<BitString>>, entry: seq<seq<BitString>>): (t: seq<seq<BitString>>)
    requires Responses(d, index, entry)
    ensures Cells(t, d.w, d.buckets, d.blockSize)
    ensures forall h, b :: 0 <= h < d.w && 0 <= b < d.buckets ==> t[h][b] == index[b][h] + entry[b][h]
  {
    seq(d.w, h requires 0 <= h < d.w =>
      seq(d.buckets, b requires 0 <= b < d.buckets => index[b][h] + entry[b][h]))
  }

  /** BOB's buffer `b` once the loops over `hash_idx`, `bucket_idx`, `bit_idx`
      are done: every slot's block, hash function by hash function. */
  function FlatLayout(d: Dims, index: seq<seq<BitString>>, entry: seq<seq<BitString>>): (bits: BitString)
    requires Responses(d, index, entry)
    ensures |bits| == d.Total()
  {
    Flatten(SlotTable(d, index, entry), d.w, d.buckets, d.blockSize)
  }

  /** Bit `k` of slot `(h, b)` sits at its offset: the index first, the entry after. */
  lemma FlatAt(d: Dims, index: seq<seq<BitString>>, entry: seq<seq<BitString>>, h: nat, b: nat, k: nat)
    requires Responses(d, index, entry) && h < d.w && b < d.buckets && k < d.blockSize
    ensures d.Offset(h, b, 0) + k == d.Offset(h, b, k) < d.Total()
    ensures FlatLayout(d, index, entry)[d.Offset(h, b, k)]
      == if k < d.inputLength then index[b][h][k] else entry[b][h][k - d.inputLength]
  {
    FlattenAt(SlotTable(d, index, entry), d.w, d.buckets, d.blockSize, h, b, k);
  }

  /** The loops of BOB's share conversion that write the split responses into `b`. */
  method FlattenShares(d: Dims, index: seq<seq<BitString>>, entry: seq<seq<BitString>>) returns (buf: array<bool>)
    requires Responses(d, index, entry)
    ensures fresh(buf) && buf[..] == FlatLayout(d, index, entry)
  {
    ghost var flat := FlatLayout(d, index, entry);
    buf := new bool[d.Total()];
    for h := 0 to d.w
      invariant forall o :: 0 <= o < d.Offset(h, 0, 0) && o < buf.Length ==> buf[o] == flat[o]
    {
      for b := 0 to d.buckets
        invariant forall o :: 0 <= o < d.Offset(h, b, 0) && o < buf.Length ==> buf[o] == flat[o]
      {
        for k := 0 to d.blockSize
          invariant forall o :: 0 <= o < d.Offset(h, b, k) && o < buf.Length ==> buf[o] == flat[o]
        {
          FlatAt(d, index, entry, h, b, k);
          buf[d.Offset(h, b, k)] := if k < d.inputLength then index[b][h][k] else entry[b][h][k - d.inputLength];
        }
        OffsetSteps(d.w, d.buckets, d.blockSize, h, b);
      }
      OffsetSteps(d.w, d.buckets, d.blockSize, h, d.buckets);
    }
    OffsetSteps(d.w, d.buckets, d.blockSize, d.w, 0);
  }

  /** `B_index[h][b]`: the index bits of slot `(h, b)` of the fed buffer. */
  function IndexSlice(d: Dims, bits: BitString, h: nat, b: nat): (s: BitString)
    requires d.Valid() && |bits| == d.Total() && h < d.w && b < d.buckets
    ensures |s| == d.inputLength
  {
    CellBound(d.w, d.buckets, d.blockSize, h, b);
    Slice(bits, d.Offset(h, b, 0), d.inputLength)
  }

  /** `B_entry[h][b]`: the entry bits of slot `(h, b)` of the fed buffer. */
  function EntrySlice(d: Dims, bits: BitString, h: nat, b: nat): (s: BitString)
    requires d.Valid() && |bits| == d.Total() && h < d.w && b < d.buckets
    ensures |s| == d.EntryLength()
  {
    CellBound(d.w, d.buckets, d.blockSize, h, b);
    Slice(bits, d.Offset(h, b, 0) + d.inputLength, d.EntryLength())
  }

  /** Layout round trip: slicing BOB's buffer at the offsets it was written at
      gives back the index and the entry of every slot. */
  lemma SliceFlat(d: Dims, index: seq<seq<BitString>>, entry: seq<seq<BitString>>, h: nat, b: nat)
    requires Responses(d, index, entry) && h < d.w && b < d.buckets
    ensures IndexSlice(d, FlatLayout(d, index, entry), h, b) == index[b][h]
    ensures EntrySlice(d, FlatLayout(d, index, entry), h, b) == entry[b][h]
  {
    var flat := FlatLayout(d, index, entry);
    var start := d.Offset(h, b, 0);
    var ix, en := index[b][h], entry[b][h];
    CellBound(d.w, d.buckets, d.blockSize, h, b);
    forall k | 0 <= k < |ix|
      ensures flat[start + k] == ix[k]
    {
      FlatAt(d, index, entry, h, b, k);
    }
    SliceIs(flat, start, ix);
    forall k | 0 <= k < |en|
      ensures flat[start + d.inputLength + k] == en[k]
    {
      FlatAt(d, index, entry, h, b, d.inputLength + k);
    }
    SliceIs(flat, start + d.inputLength, en);
  }

  /** The loops that cut `B_index` and `B_entry` out of the fed bits. */
  method SliceShares(d: Dims, bits: BitString) returns (bIndex: array2<BitString>, bEntry: array2<BitString>)
    requires d.Valid() && |bits| == d.Total()
    ensures fresh(bIndex) && fresh(bEntry)
    ensures bIndex.Length0 == bEntry.Length0 == d.w && bIndex.Length1 == bEntry.Length1 == d.buckets
    ensures forall h, b :: 0 <= h < d.w && 0 <= b < d.buckets ==>
      bIndex[h, b] == IndexSlice(d, bits, h, b) && bEntry[h, b] == EntrySlice(d, bits, h, b)
  {
    bIndex := new BitString[d.w, d.buckets];
    bEntry := new BitString[d.w, d.buckets];
    for h := 0 to d.w
      invariant forall h', b :: 0 <= h' < h && 0 <= b < d.buckets ==>
        bIndex[h', b] == IndexSlice(d, bits, h', b) && bEntry[h', b] == EntrySlice(d, bits, h', b)
    {
      for b := 0 to d.buckets
        invariant forall h', b' :: 0 <= h' < h && 0 <= b' < d.buckets ==>
          bIndex[h', b'] == IndexSlice(d, bits, h', b') && bEntry[h', b'] == EntrySlice(d, bits, h', b')
        invariant forall b' :: 0 <= b' < b ==>
          bIndex[h, b'] == IndexSlice(d, bits, h, b') && bEntry[h, b'] == EntrySlice(d, bits, h, b')
      {
        CellBound(d.w, d.buckets, d.blockSize, h, b);
        var start := d.Offset(h, b, 0);
        bIndex[h, b] := bits[start..start + d.inputLength];
        bEntry[h, b] := bits[start + d.inputLength..start + d.blockSize];
        assert bIndex[h, b] == IndexSlice(d, bits, h, b) && bEntry[h, b] == EntrySlice(d, bits, h, b);
      }
    }
  }

  // ---------------------------------------------------------------------------
  // Reconstruction

  /** BOB's shares `B_index[h][b]` as cut out of the fed buffer. */
  function SlicedIndex(d: Dims, bits: BitString): (t: seq<seq<BitString>>)
    requires d.Valid() && |bits| == d.Total()
    ensures Table(t, d.w, d.buckets, d.inputLength)
  {
    seq(d.w, h requires 0 <= h < d.w =>
      seq(d.buckets, b requires 0 <= b < d.buckets => IndexSlice(d, bits, h, b)))
  }

  /** BOB's shares `B_entry[h][b]` as cut out of the fed buffer. */
  function SlicedEntry(d: Dims, bits: BitString): (t: seq<seq<BitString>>)
    requires d.Valid() && |bits| == d.Total()
    ensures Table(t, d.w, d.buckets, d.EntryLength())
  {
    seq(d.w, h requires 0 <= h < d.w =>
      seq(d.buckets, b requires 0 <= b < d.buckets => EntrySlice(d, bits, h, b)))
  }

  /** A two-dimensional array whose cells are those of a table holds that table. */
  lemma GridIs<T>(a: array2<T>, g: seq<seq<T>>)
    requires |g| == a.Length0 && forall h :: 0 <= h < |g| ==> |g[h]| == a.Length1
    requires forall h, b :: 0 <= h < a.Length0 && 0 <= b < a.Length1 ==> a[h, b] == g[h][b]
    ensures Grid(a) == g
  {
    var t := Grid(a);
    forall h | 0 <= h < |g|
      ensures t[h] == g[h]
    {
      assert forall b :: 0 <= b < a.Length1 ==> t[h][b] == g[h][b];
    }
  }

  /** Share conversion end to end: when BOB's decoded responses are the data
      masked with ALICE's shares and BOB lays them out in the buffer BOB feeds,
      ALICE's shares XOR the slices of that buffer give back the data. */
  lemma SharesRecover(d: Dims, ri: seq<seq<BitString>>, re: seq<seq<BitString>>,
                      aIndex: seq<seq<BitString>>, aEntry: seq<seq<BitString>>,
                      vIndex: seq<seq<BitString>>, vEntry: seq<seq<BitString>>)
    requires Responses(d, ri, re)
    requires Table(aIndex, d.w, d.buckets, d.inputLength) && Table(vIndex, d.w, d.buckets, d.inputLength)
    requires Table(aEntry, d.w, d.buckets, d.EntryLength()) && Table(vEntry, d.w, d.buckets, d.EntryLength())
    requires forall h, b :: 0 <= h < d.w && 0 <= b < d.buckets ==>
      ri[b][h] == Xor(vIndex[h][b], aIndex[h][b]) && re[b][h] == Xor(vEntry[h][b], aEntry[h][b])
    ensures XorTable(aIndex, SlicedIndex(d, FlatLayout(d, ri, re)), d.w, d.buckets, d.inputLength) == vIndex
    ensures XorTable(aEntry, SlicedEntry(d, FlatLayout(d, ri, re)), d.w, d.buckets, d.EntryLength()) == vEntry
  {
    var flat := FlatLayout(d, ri, re);
    var bIndex, bEntry := SlicedIndex(d, flat), SlicedEntry(d, flat);
    var xIndex := XorTable(aIndex, bIndex, d.w, d.buckets, d.inputLength);
    var xEntry := XorTable(aEntry, bEntry, d.w, d.buckets, d.EntryLength());
    forall h | 0 <= h < d.w
      ensures xIndex[h] == vIndex[h] && xEntry[h] == vEntry[h]
    {
      forall b | 0 <= b < d.buckets
        ensures xIndex[h][b] == vIndex[h][b] && xEntry[h][b] == vEntry[h][b]
      {
        SliceFlat(d, ri, re, h, b);
        XorUnmask(vIndex[h][b], aIndex[h][b]);
        XorUnmask(vEntry[h][b], aEntry[h][b]);
      }
    }
  }

  /** A table of shares, `t[h][b]` for hash function `h` and bucket `b`, each of
      `width` bits. */
  predicate Table(t: seq<seq<BitString>>, w: nat, buckets: nat, width: nat)
  {
    && |t| == w
    && (forall h :: 0 <= h < w ==> |t[h]| == buckets)
    && (forall h, b :: 0 <= h < w && 0 <= b < buckets ==> |t[h][b]| == width)
  }

  /** The contents of a two-dimensional array, row by row. */
  function Grid<T>(a: array2<T>): (g: seq<seq<T>>)
    reads a
    ensures |g| == a.Length0
    ensures forall h :: 0 <= h < a.Length0 ==> |g[h]| == a.Length1
    ensures forall h, b :: 0 <= h < a.Length0 && 0 <= b < a.Length1 ==> g[h][b] == a[h, b]
  {
    seq(a.Length0, h requires 0 <= h < a.Length0 reads a =>
      seq(a.Length1, b requires 0 <= b < a.Length1 reads a => a[h, b]))
  }

  /** The XOR of two share tables, slot by slot. */
  function XorTable(a: seq<seq<BitString>>, b: seq<seq<BitString>>, w: nat, buckets: nat, width: nat): (t: seq<seq<BitString>>)
    requires Table(a, w, buckets, width) && Table(b, w, buckets, width)
    ensures Table(t, w, buckets, width)
  {
    seq(w, h requires 0 <= h < w =>
      seq(buckets, k requires 0 <= k < buckets => Xor(a[h][k], b[h][k])))
  }

  /** The loop `index[h][b] = A_index[h][b] ^ B_index[h][b]` (and the same for
      `entry`), over buckets and then hash functions. */
  method ReconstructShares(aIndex: seq<seq<BitString>>, bIndex: seq<seq<BitString>>,
                           aEntry: seq<seq<BitString>>, bEntry: seq<seq<BitString>>,
                           w: nat, buckets: nat, indexWidth: nat, entryWidth: nat)
      returns (index: array2<BitString>, entry: array2<BitString>)
    requires Table(aIndex, w, buckets, indexWidth) && Table(bIndex, w, buckets, indexWidth)
    requires Table(aEntry, w, buckets, entryWidth) && Table(bEntry, w, buckets, entryWidth)
    ensures fresh(index) && fresh(entry)
    ensures Grid(index) == XorTable(aIndex, bIndex, w, buckets, indexWidth)
    ensures Grid(entry) == XorTable(aEntry, bEntry, w, buckets, entryWidth)
  {
    index := new BitString[w, buckets];
    entry := new BitString[w, buckets];
    for b := 0 to buckets
      invariant forall h, b' :: 0 <= h < w && 0 <= b' < b ==>
        index[h, b'] == Xor(aIndex[h][b'], bIndex[h][b']) && entry[h, b'] == Xor(aEntry[h][b'], bEntry[h][b'])
    {
      for h := 0 to w
        invariant forall h', b' :: 0 <= h' < w && 0 <= b' < b ==>
          index[h', b'] == Xor(aIndex[h'][b'], bIndex[h'][b']) && entry[h', b'] == Xor(aEntry[h'][b'], bEntry[h'][b'])
        invariant forall h' :: 0 <= h' < h ==>
          index[h', b] == Xor(aIndex[h'][b], bIndex[h'][b]) && entry[h', b] == Xor(aEntry[h'][b], bEntry[h'][b])
      {
        index[h, b] := Xor(aIndex[h][b], bIndex[h][b]);
        entry[h, b] := Xor(aEntry[h][b], bEntry[h][b]);
      }
    }
    GridXor(index, aIndex, bIndex, w, buckets, indexWidth);
    GridXor(entry, aEntry, bEntry, w, buckets, entryWidth);
  }

  lemma GridXor(t: array2<BitString>, a: seq<seq<BitString>>, b: seq<seq<BitString>>, w: nat, buckets: nat, width: nat)
    requires Table(a, w, buckets, width) && Table(b, w, buckets, width)
    requires t.Length0 == w && t.Length1 == buckets
    requires forall h, k :: 0 <= h < w && 0 <= k < buckets ==> t[h, k] == Xor(a[h][k], b[h][k])
    ensures Grid(t) == XorTable(a, b, w, buckets, width)
  {
    var g, x := Grid(t), XorTable(a, b, w, buckets, width);
    forall h | 0 <= h < w
      ensures g[h] == x[h]
    {
      assert forall k :: 0 <= k < buckets ==> g[h][k] == x[h][k];
    }
  }

  /** Reconstruction recovers the PIR data: when BOB's share of a slot is the
      data masked with ALICE's share, their XOR is the data. */
  lemma {:induction false} XorTableUnmasks(a: seq<seq<BitString>>, v: seq<seq<BitString>>, w: nat, buckets: nat, width: nat)
    requires Table(a, w, buckets, width) && Table(v, w, buckets, width)
    ensures XorTable(a, XorTable(v, a, w, buckets, width), w, buckets, width) == v
  {
    var masked := XorTable(v, a, w, buckets, width);
    var t := XorTable(a, masked, w, buckets, width);
    forall h | 0 <= h < w
      ensures t[h] == v[h]
    {
      forall b | 0 <= b < buckets
        ensures t[h][b] == v[h][b]
      {
        XorUnmask(v[h][b], a[h][b]);
      }
    }
  }

  // ---------------------------------------------------------------------------
  // The LowMC plaintext

  /** The bit-sliced plaintext `m[j][i]`: bit `j` of the block of query `i`. */
  method LowMCPlaintext(queries: seq<BitString>, batch: nat, blockSize: nat, inBits: nat) returns (m: array2<bool>)
    requires batch <= |queries|
    requires forall i :: 0 <= i < batch ==> Min(blockSize, inBits) <= |queries[i]|
    ensures fresh(m) && m.Length0 == blockSize && m.Length1 == batch
    ensures forall i, j :: 0 <= i < batch && 0 <= j < blockSize ==> m[j, i] == Low(queries[i], blockSize, inBits)[j]
  {
    m := new bool[blockSize, batch];
    for j := 0 to blockSize
      invariant forall i, j' :: 0 <= i < batch && 0 <= j' < j ==> m[j', i] == (j' < inBits && queries[i][j'])
    {
      if j >= inBits {
        for i := 0 to batch
          invariant forall i', j' :: 0 <= i' < batch && 0 <= j' < j ==> m[j', i'] == (j' < inBits && queries[i'][j'])
          invariant forall i' :: 0 <= i' < i ==> !m[j, i']
        {
          m[j, i] := false;
        }
      } else {
        for i := 0 to batch
          invariant forall i', j' :: 0 <= i' < batch && 0 <= j' < j ==> m[j', i'] == (j' < inBits && queries[i'][j'])
          invariant forall i' :: 0 <= i' < i ==> m[j, i'] == queries[i'][j]
        {
          m[j, i] := queries[i][j];
        }
      }
    }
  }
}
