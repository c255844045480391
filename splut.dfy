/** The online phase of SPLUT, the one-out-of-N oblivious-transfer table
    lookup.  ALICE (the server) holds a table `T` of `2^l_in` words and one
    share `xA` of each query index; BOB (the client) holds the other share
    `xB`.  A silent 1-out-of-N OT set up beforehand gives ALICE a mask table
    `masks[b][i]` per item and BOB a choice `s[b]` with the mask `ms[b]` that
    agrees with `masks[b][s[b]]`.  BOB sends `u = xB ^ s`; ALICE rotates and
    masks the whole table per item, serialises it chunk by chunk, and BOB
    picks slot `xB[b]` out of each row.  The two outputs XOR to
    `T[xA ^ xB]` cut to `l_out` bits.

    Words are 32-bit strings (least significant bit first); indices are
    numbers below `2^l_in`. */
module Splut {
  import opened Bits
  import opened Layout

  /** Width of the `uint32_t` words exchanged. */
  const WIDTH: nat := 32

  predicate Words(s: seq<BitString>)
  {
    forall k :: 0 <= k < |s| ==> |s[k]| == WIDTH
  }

  // ---------------------------------------------------------------------
  // highestPowerOfTwoIn and the chunk size

  /** Number of significant bits of `x`. */
  function BitLength(x: nat): nat
  {
    if x == 0 then 0 else 1 + BitLength(x / 2)
  }

  lemma {:induction false} BitLengthBounds(x: nat)
    requires x > 0
    ensures BitLength(x) >= 1
    ensures Pow2(BitLength(x) - 1) <= x < Pow2(BitLength(x))
  {
    if x > 1 {
      var h := x / 2;
      var n := BitLength(h);
      BitLengthBounds(h);
      assert BitLength(x) == n + 1;
      assert Pow2(n) == 2 * Pow2(n - 1);
      assert Pow2(n + 1) == 2 * Pow2(n);
      assert x == 2 * h + x % 2;
    } else {
      assert BitLength(x) == 1;
    }
  }

  /** A number below `2^w` has at most `w` significant bits. */
  lemma BitLengthWithin(x: nat, w: nat)
    requires 0 < x < Pow2(w)
    ensures 1 <= BitLength(x) <= w
  {
    BitLengthBounds(x);
    Pow2Ordered(w, BitLength(x) - 1);
  }

  /** The top bit and the range of a 32-bit word. */
  lemma Pow2Width()
    ensures Pow2(WIDTH - 1) == 0x8000_0000 && Pow2(WIDTH) == 0x1_0000_0000
  {
    assert Pow2(8) == 0x100;
    Pow2Add(8, 8);
    Pow2Add(16, 15);
    Pow2Add(16, 16);
  }

  /** `__builtin_clz` of a non-zero 32-bit word. */
  function LeadingZeros(x: nat): (n: nat)
    requires 0 < x < 0x1_0000_0000
    ensures n < WIDTH
  {
    Pow2Width();
    BitLengthWithin(x, WIDTH);
    WIDTH - BitLength(x)
  }

  /** `0x80000000 >> __builtin_clz(x)`. */
  function HighestPowerOfTwoIn(x: nat): nat
    requires 0 < x < 0x1_0000_0000
  {
    0x8000_0000 / Pow2(LeadingZeros(x))
  }

  /** Shifting the top bit of a `w`-bit word right by the leading zeros of
      `x` keeps exactly the top bit of `x`. */
  lemma TopBit(w: nat, x: nat, top: nat)
    requires 0 < x < Pow2(w) && top == Pow2(w - 1)
    ensures 1 <= BitLength(x) <= w && top / Pow2(w - BitLength(x)) == Pow2(BitLength(x) - 1)
  {
    BitLengthWithin(x, w);
    ShiftTop(w, BitLength(x), top);
  }

  /** `2^(w-1) >> (w - n) == 2^(n-1)`. */
  lemma ShiftTop(w: nat, n: nat, top: nat)
    requires 1 <= n <= w && top == Pow2(w - 1)
    ensures top / Pow2(w - n) == Pow2(n - 1)
  {
    var low, shift := Pow2(n - 1), Pow2(w - n);
    Pow2Add(n - 1, w - n);
    assert n - 1 + (w - n) == w - 1;
    assert top == shift * low + 0 by {
      assert low * shift == shift * low;
    }
    DivUnique(top, shift, low, 0);
  }

  /** The power of two of the top bit of `x` is at most `x`, more than half of
      `x`, and no power of two at most `x` is larger. */
  lemma TopPower(x: nat)
    requires x > 0
    ensures var p := Pow2(BitLength(x) - 1);
      && p <= x < 2 * p
      && forall k :: Pow2(k) <= x ==> Pow2(k) <= p
  {
    var n := BitLength(x);
    BitLengthBounds(x);
    assert Pow2(n) == 2 * Pow2(n - 1);
    forall k | Pow2(k) <= x
      ensures Pow2(k) <= Pow2(n - 1)
    {
      Pow2Ordered(k, n);
      Pow2Ordered(k, n - 1);
    }
  }

  /** The result is a power of two, at most `x`, more than half of `x`, and
      no power of two at most `x` is larger. */
  lemma HighestPowerOfTwoInSpec(x: nat)
    requires 0 < x < 0x1_0000_0000
    ensures var p := HighestPowerOfTwoIn(x);
      && p == Pow2(BitLength(x) - 1)
      && p <= x < 2 * p
      && forall k :: Pow2(k) <= x ==> Pow2(k) <= p
  {
    Pow2Width();
    TopBit(WIDTH, x, 0x8000_0000);
    TopPower(x);
  }

  /** `min(batch_size, highestPowerOfTwoIn(budget))`, where `budget` is the
      number of items whose serialised table fits in the memory allowance. */
  function ChunkSize(batch: nat, budget: nat): nat
    requires 0 < budget < 0x1_0000_0000
  {
    Min(batch, HighestPowerOfTwoIn(budget))
  }

  /** The chunk size is positive for a non-empty batch and never exceeds it;
      a batch whose size is a power of two is split into whole chunks. */
  lemma ChunkSizeSpec(batch: nat, budget: nat)
    requires 0 < budget < 0x1_0000_0000
    ensures var chunk := ChunkSize(batch, budget);
      && chunk <= batch
      && (batch > 0 ==> chunk > 0)
      && forall e :: batch == Pow2(e) ==> batch % chunk == 0
  {
    HighestPowerOfTwoInSpec(budget);
    PowerChunk(batch, BitLength(budget) - 1);
  }

  /** The smaller of a batch size and a power of two divides the batch size
      when that is a power of two too. */
  lemma PowerChunk(batch: nat, n: nat)
    ensures var chunk := Min(batch, Pow2(n));
      && chunk <= batch
      && (batch > 0 ==> chunk > 0)
      && forall e :: batch == Pow2(e) ==> batch % chunk == 0
  {
    var p := Pow2(n);
    forall e: nat | batch == Pow2(e)
      ensures batch % Min(batch, p) == 0
    {
      if p < batch {
        Pow2Ordered(n, e);
        Pow2Divides(n, e);
      } else {
        DivUnique(batch, batch, 1, 0);
      }
    }
  }

  lemma Pow2Divides(n: nat, e: nat)
    requires n <= e
    ensures Pow2(e) % Pow2(n) == 0
  {
    var q := Pow2(e - n);
    Pow2Add(n, e - n);
    assert Pow2(e) == Pow2(n) * q + 0;
    DivUnique(Pow2(e), Pow2(n), q, 0);
  }

  // ---------------------------------------------------------------------
  // Sizes

  /** `l_in`, `l_out`, the batch size and the chunk size. */
  datatype Sizes = Sizes(lIn: nat, lOut: nat, batch: nat, chunk: nat)
  {
    predicate Valid()
    {
      lOut <= WIDTH && 0 < chunk <= batch
    }

    /** `lut_size = 1 << l_in`. */
    function LutSize(): nat
    {
      Pow2(lIn)
    }

    /** Chunks sent: `batch_size / chunk_size`. */
    function Chunks(): nat
      requires Valid()
    {
      batch / chunk
    }
  }

  /** The first `n` chunks fit in the batch. */
  lemma ChunksFit(sz: Sizes, n: nat)
    requires sz.Valid() && n <= sz.Chunks()
    ensures Blocks(n, sz.chunk) <= sz.batch
  {
    BlocksMul(n, sz.chunk);
    BlocksMul(sz.Chunks(), sz.chunk);
    MulMono(sz.chunk, n, sz.Chunks());
    DivMod(sz.batch, sz.chunk);
  }

  /** Only the first `(batch_size / chunk_size) * chunk_size` items are looked
      up; fewer than `chunk_size` items are left over. */
  lemma Processed(sz: Sizes)
    requires sz.Valid()
    ensures Blocks(sz.Chunks(), sz.chunk) <= sz.batch < Blocks(sz.Chunks(), sz.chunk) + sz.chunk
  {
    BlocksMul(sz.Chunks(), sz.chunk);
    DivMod(sz.batch, sz.chunk);
  }

  /** An item of chunk `k` lies before chunk `n`. */
  lemma EarlierChunk(size: nat, k: nat, n: nat, b: nat)
    requires k < n && b < Blocks(k, size) + size
    ensures b < Blocks(n, size)
  {
    BlocksMono(k + 1, n, size);
  }

  lemma {:induction false} BlocksMono(i: nat, n: nat, size: nat)
    requires i <= n
    ensures Blocks(i, size) <= Blocks(n, size)
  {
    if i < n {
      BlocksMono(i, n - 1, size);
    }
  }

  // ---------------------------------------------------------------------
  // Indices and initial shares

  /** `a ^ b` on `l`-bit indices. */
  function XorIndex(a: nat, b: nat, l: nat): (r: nat)
    ensures r < Pow2(l)
  {
    ToNat(Xor(FromNat(l, a), FromNat(l, b)))
  }

  lemma XorIndexComm(a: nat, b: nat, l: nat)
    ensures XorIndex(a, b, l) == XorIndex(b, a, l)
  {
    assert Xor(FromNat(l, a), FromNat(l, b)) == Xor(FromNat(l, b), FromNat(l, a));
  }

  /** XORing an index twice with `a` gives it back. */
  lemma XorIndexCancel(a: nat, s: nat, l: nat)
    requires s < Pow2(l)
    ensures XorIndex(a, XorIndex(a, s, l), l) == s
  {
    var A := FromNat(l, a);
    var S := FromNat(l, s);
    var X := Xor(A, S);
    FromNatToNat(X);
    assert Xor(A, S) == Xor(S, A);
    XorUnmask(S, A);
    ToNatFromNat(l, s);
    DivUnique(s, Pow2(l), 0, s);
  }

  /** `z[b] = prng.get<uint32_t>() & out_mask` for each of the `rand` words. */
  function Shares(rand: seq<BitString>, lOut: nat): (z: seq<BitString>)
    requires Words(rand)
    ensures |z| == |rand| && Words(z)
  {
    seq(|rand|, b requires 0 <= b < |rand| => Low(rand[b], WIDTH, lOut))
  }

  /** Initial shares are below `2^l_out`, and masking them again changes nothing. */
  lemma ShareBound(rand: seq<BitString>, lOut: nat, b: nat)
    requires Words(rand) && lOut <= WIDTH && b < |rand|
    ensures ToNat(Shares(rand, lOut)[b]) < Pow2(lOut)
    ensures Low(Shares(rand, lOut)[b], WIDTH, lOut) == Shares(rand, lOut)[b]
  {
    LowValue(rand[b], WIDTH, lOut);
  }

  method RandomShares(rand: seq<BitString>, lOut: nat) returns (z: array<BitString>)
    requires Words(rand)
    ensures fresh(z) && z[..] == Shares(rand, lOut)
  {
    z := new BitString[|rand|];
    for b := 0 to |rand|
      invariant forall b' :: 0 <= b' < b ==> z[b'] == Low(rand[b'], WIDTH, lOut)
    {
      z[b] := Low(rand[b], WIDTH, lOut);
    }
  }

  /** `u[b] = x[b] ^ s[b]`: BOB's share of the query, masked by BOB's OT choice. */
  function Choices(x: seq<nat>, s: seq<nat>, lIn: nat): (u: seq<nat>)
    requires |s| == |x|
    ensures |u| == |x|
  {
    seq(|x|, b requires 0 <= b < |x| => XorIndex(x[b], s[b], lIn))
  }

  method ChoiceMasks(x: seq<nat>, s: seq<nat>, lIn: nat) returns (u: array<nat>)
    requires |s| == |x|
    ensures fresh(u) && u[..] == Choices(x, s, lIn)
  {
    u := new nat[|x|];
    for b := 0 to |x|
      invariant forall b' :: 0 <= b' < b ==> u[b'] == XorIndex(x[b'], s[b'], lIn)
    {
      u[b] := XorIndex(x[b], s[b], lIn);
    }
  }

  // ---------------------------------------------------------------------
  // Server

  /** What ALICE holds during the online phase. */
  predicate ServerInputs(sz: Sizes, T: seq<BitString>, x: seq<nat>, u: seq<nat>, z: seq<BitString>, masks: seq<seq<BitString>>)
  {
    && sz.Valid()
    && |T| == sz.LutSize() && Words(T)
    && |x| == sz.batch && |u| == sz.batch && |z| == sz.batch && |masks| == sz.batch
    && Words(z)
    && (forall b :: 0 <= b < sz.batch ==> x[b] < sz.LutSize() && u[b] < sz.LutSize())
    && (forall b :: 0 <= b < sz.batch ==> |masks[b]| == sz.LutSize() && Words(masks[b]))
  }

  /** Slot `i` of item `b`: `(T[i ^ x[b]] ^ get_mask(b, i ^ u[b]) ^ z[b]) & out_mask`. */
  function Rotated(sz: Sizes, T: seq<BitString>, x: seq<nat>, u: seq<nat>, z: seq<BitString>, masks: seq<seq<BitString>>, b: nat, i: nat): (v: BitString)
    requires ServerInputs(sz, T, x, u, z, masks) && b < sz.batch
    ensures |v| == WIDTH && Low(v, WIDTH, sz.lOut) == v
  {
    var q := Xor(Xor(T[XorIndex(i, x[b], sz.lIn)], masks[b][XorIndex(i, u[b], sz.lIn)]), z[b]);
    LowPrefix(q, WIDTH, sz.lOut);
    Low(q, WIDTH, sz.lOut)
  }

  /** The `l_out` low bits of every slot of item `b`. */
  function RotatedRow(sz: Sizes, T: seq<BitString>, x: seq<nat>, u: seq<nat>, z: seq<BitString>, masks: seq<seq<BitString>>, b: nat): (row: seq<BitString>)
    requires ServerInputs(sz, T, x, u, z, masks) && b < sz.batch
    ensures |row| == sz.LutSize()
    ensures forall i :: 0 <= i < |row| ==> |row[i]| == sz.lOut
  {
    seq(sz.LutSize(), i requires 0 <= i < sz.LutSize() => Rotated(sz, T, x, u, z, masks, b, i)[..sz.lOut])
  }

  /** The cells of one chunk starting at item `base`: row `c` holds the
      rotation of item `base + c`. */
  function ServerCells(sz: Sizes, T: seq<BitString>, x: seq<nat>, u: seq<nat>, z: seq<BitString>, masks: seq<seq<BitString>>, base: nat): (t: seq<seq<BitString>>)
    requires ServerInputs(sz, T, x, u, z, masks) && base + sz.chunk <= sz.batch
    ensures Cells(t, sz.chunk, sz.LutSize(), sz.lOut)
  {
    var t := seq(sz.chunk, c requires 0 <= c < sz.chunk => RotatedRow(sz, T, x, u, z, masks, base + c));
    assert Cells(t, sz.chunk, sz.LutSize(), sz.lOut) by {
      forall c | 0 <= c < sz.chunk
        ensures t[c] == RotatedRow(sz, T, x, u, z, masks, base + c)
      {
      }
    }
    t
  }

  /** The buffer ALICE sends for chunk `k`: the serialised rotations of
      items `k * chunk_size` onwards. */
  function ServerChunk(sz: Sizes, T: seq<BitString>, x: seq<nat>, u: seq<nat>, z: seq<BitString>, masks: seq<seq<BitString>>, k: nat): (buf: BitString)
    requires ServerInputs(sz, T, x, u, z, masks) && k < sz.Chunks()
    ensures |buf| == sz.chunk * sz.LutSize() * sz.lOut
  {
    ChunksFit(sz, k + 1);
    Flatten(ServerCells(sz, T, x, u, z, masks, Blocks(k, sz.chunk)), sz.chunk, sz.LutSize(), sz.lOut)
  }

  /** The first `n` buffers ALICE sends, chunk after chunk. */
  function ServerChunks(sz: Sizes, T: seq<BitString>, x: seq<nat>, u: seq<nat>, z: seq<BitString>, masks: seq<seq<BitString>>, n: nat): (sent: seq<BitString>)
    requires ServerInputs(sz, T, x, u, z, masks) && n <= sz.Chunks()
    ensures |sent| == n
    ensures forall k :: 0 <= k < n ==> |sent[k]| == sz.chunk * sz.LutSize() * sz.lOut
  {
    seq(n, k requires 0 <= k < n => ServerChunk(sz, T, x, u, z, masks, k))
  }

  /** Row `c` of a serialised chunk holds the rotated table of item `b`, slot
      after slot. */
  predicate RowLaidOut(sz: Sizes, T: seq<BitString>, x: seq<nat>, u: seq<nat>, z: seq<BitString>, masks: seq<seq<BitString>>,
                       b: nat, c: nat, flat: BitString)
    requires ServerInputs(sz, T, x, u, z, masks) && b < sz.batch
  {
    forall i {:trigger Rotated(sz, T, x, u, z, masks, b, i)} :: 0 <= i < sz.LutSize() ==>
      && Offset(sz.LutSize(), sz.lOut, c, i, 0) + sz.lOut <= |flat|
      && Slice(flat, Offset(sz.LutSize(), sz.lOut, c, i, 0), sz.lOut) == Rotated(sz, T, x, u, z, masks, b, i)[..sz.lOut]
  }

  /** Serialises row `c` of a chunk, item `b`: slot `i` goes to
      `c * (lut_size * l_out) + i * l_out`, where `flat` holds it; the bits
      after the row are left alone. */
  method ServeRow(buf: array<bool>, sz: Sizes, T: seq<BitString>, x: seq<nat>, u: seq<nat>, z: seq<BitString>, masks: seq<seq<BitString>>,
                  b: nat, c: nat, ghost flat: BitString)
    requires ServerInputs(sz, T, x, u, z, masks) && b < sz.batch && c < sz.chunk
    requires buf.Length == |flat| == sz.chunk * sz.LutSize() * sz.lOut
    requires RowLaidOut(sz, T, x, u, z, masks, b, c, flat)
    requires forall o :: 0 <= o < Offset(sz.LutSize(), sz.lOut, c, 0, 0) && o < buf.Length ==> buf[o] == flat[o]
    modifies buf
    ensures forall o :: 0 <= o < Offset(sz.LutSize(), sz.lOut, c, sz.LutSize(), 0) && o < buf.Length ==> buf[o] == flat[o]
    ensures forall o :: Offset(sz.LutSize(), sz.lOut, c, sz.LutSize(), 0) <= o < buf.Length ==> buf[o] == old(buf[o])
  {
    var lut := sz.LutSize();
    var width := sz.lOut;
    var start := Offset(lut, width, c, 0, 0);
    for i := 0 to lut
      invariant start == Offset(lut, width, c, i, 0)
      invariant forall o :: 0 <= o < start && o < buf.Length ==> buf[o] == flat[o]
      invariant forall o :: Offset(lut, width, c, lut, 0) <= o < buf.Length ==> buf[o] == old(buf[o])
    {
      var v := Rotated(sz, T, x, u, z, masks, b, i);
      OffsetSteps(sz.chunk, lut, width, c, i);
      BlocksMono(i + 1, lut, width);
      WriteBits(buf, start, v, width, flat);
      start := start + width;
    }
  }

  /** The rows of a chunk as slices of its serialisation. */
  lemma RowSlices(sz: Sizes, T: seq<BitString>, x: seq<nat>, u: seq<nat>, z: seq<BitString>, masks: seq<seq<BitString>>, base: nat, c: nat, b: nat, flat: BitString)
    requires ServerInputs(sz, T, x, u, z, masks) && base + sz.chunk <= sz.batch && c < sz.chunk && b == base + c
    requires flat == Flatten(ServerCells(sz, T, x, u, z, masks, base), sz.chunk, sz.LutSize(), sz.lOut)
    ensures RowLaidOut(sz, T, x, u, z, masks, b, c, flat)
  {
    var cells := ServerCells(sz, T, x, u, z, masks, base);
    var row := RotatedRow(sz, T, x, u, z, masks, b);
    assert cells[c] == row;
    forall i | 0 <= i < sz.LutSize()
      ensures Offset(sz.LutSize(), sz.lOut, c, i, 0) + sz.lOut <= sz.chunk * sz.LutSize() * sz.lOut
      ensures Slice(Flatten(cells, sz.chunk, sz.LutSize(), sz.lOut), Offset(sz.LutSize(), sz.lOut, c, i, 0), sz.lOut)
        == Rotated(sz, T, x, u, z, masks, b, i)[..sz.lOut]
    {
      SliceCell(cells, sz.chunk, sz.LutSize(), sz.lOut, c, i);
      assert cells[c][i] == row[i];
    }
  }

  /** Fills `v_serialized` with one chunk: bit `j` of slot `i` of item
      `base + c` goes to `c * (lut_size * l_out) + i * l_out + j`. */
  method ServeChunk(buf: array<bool>, sz: Sizes, T: seq<BitString>, x: seq<nat>, u: seq<nat>, z: seq<BitString>, masks: seq<seq<BitString>>, base: nat)
    requires ServerInputs(sz, T, x, u, z, masks) && base + sz.chunk <= sz.batch
    requires buf.Length == sz.chunk * sz.LutSize() * sz.lOut
    modifies buf
    ensures buf[..] == Flatten(ServerCells(sz, T, x, u, z, masks, base), sz.chunk, sz.LutSize(), sz.lOut)
  {
    ghost var flat := Flatten(ServerCells(sz, T, x, u, z, masks, base), sz.chunk, sz.LutSize(), sz.lOut);
    for c := 0 to sz.chunk
      invariant forall o :: 0 <= o < Offset(sz.LutSize(), sz.lOut, c, 0, 0) && o < buf.Length ==> buf[o] == flat[o]
    {
      var b := base + c;
      RowSlices(sz, T, x, u, z, masks, base, c, b, flat);
      ServeRow(buf, sz, T, x, u, z, masks, b, c, flat);
      OffsetSteps(sz.chunk, sz.LutSize(), sz.lOut, c, sz.LutSize());
    }
    OffsetSteps(sz.chunk, sz.LutSize(), sz.lOut, sz.chunk, 0);
  }

  /** ALICE's online loop: one buffer per chunk, in order. */
  method ServerOnline(sz: Sizes, T: seq<BitString>, x: seq<nat>, u: seq<nat>, z: seq<BitString>, masks: seq<seq<BitString>>) returns (sent: seq<BitString>)
    requires ServerInputs(sz, T, x, u, z, masks)
    ensures sent == ServerChunks(sz, T, x, u, z, masks, sz.Chunks())
  {
    var buf := new bool[sz.chunk * sz.LutSize() * sz.lOut];
    sent := [];
    for k := 0 to sz.Chunks()
      invariant sent == ServerChunks(sz, T, x, u, z, masks, k)
    {
      var base := k * sz.chunk;
      BlocksMul(k, sz.chunk);
      ChunksFit(sz, k + 1);
      ServeChunk(buf, sz, T, x, u, z, masks, base);
      ServerChunksNext(sz, T, x, u, z, masks, k);
      sent := sent + [buf[..]];
    }
  }

  lemma ServerChunksNext(sz: Sizes, T: seq<BitString>, x: seq<nat>, u: seq<nat>, z: seq<BitString>, masks: seq<seq<BitString>>, n: nat)
    requires ServerInputs(sz, T, x, u, z, masks) && n < sz.Chunks()
    ensures ServerChunks(sz, T, x, u, z, masks, n + 1)
      == ServerChunks(sz, T, x, u, z, masks, n) + [ServerChunk(sz, T, x, u, z, masks, n)]
  {
  }

  // ---------------------------------------------------------------------
  // Client

  /** The bits BOB reads for an item in row `c` of a chunk: the `l_out` bits of
      slot `xb`, as a word (`blk.to_ulong()`). */
  function Slot(sz: Sizes, buf: BitString, c: nat, xb: nat): (v: BitString)
    requires sz.Valid() && |buf| == sz.chunk * sz.LutSize() * sz.lOut
    requires c < sz.chunk && xb < sz.LutSize()
    ensures |v| == WIDTH
  {
    CellBound(sz.chunk, sz.LutSize(), sz.lOut, c, xb);
    Low(Slice(buf, Offset(sz.LutSize(), sz.lOut, c, xb, 0), sz.lOut), WIDTH, sz.lOut)
  }

  /** BOB's share of an item: `(v ^ ms[b]) & out_mask`. */
  function Extracted(sz: Sizes, buf: BitString, c: nat, xb: nat, m: BitString): (r: BitString)
    requires sz.Valid() && |buf| == sz.chunk * sz.LutSize() * sz.lOut
    requires c < sz.chunk && xb < sz.LutSize() && |m| == WIDTH
    ensures |r| == WIDTH
  {
    Low(Xor(Slot(sz, buf, c, xb), m), WIDTH, sz.lOut)
  }

  /** What BOB holds during the online phase. */
  predicate ClientInputs(sz: Sizes, x: seq<nat>, ms: seq<BitString>, z: seq<BitString>)
  {
    && sz.Valid()
    && |x| == sz.batch && |ms| == sz.batch && |z| == sz.batch && Words(ms)
    && forall b :: 0 <= b < sz.batch ==> x[b] < sz.LutSize()
  }

  /** Shares after reading one chunk whose first item is `base`. */
  function Extract(sz: Sizes, x: seq<nat>, ms: seq<BitString>, z: seq<BitString>, buf: BitString, base: nat): (r: seq<BitString>)
    requires ClientInputs(sz, x, ms, z) && |buf| == sz.chunk * sz.LutSize() * sz.lOut
    ensures |r| == |z|
    ensures Words(z) ==> Words(r)
  {
    seq(|z|, b requires 0 <= b < |z| =>
      if base <= b < base + sz.chunk then Extracted(sz, buf, b - base, x[b], ms[b]) else z[b])
  }

  /** A buffer of the size ALICE sends. */
  predicate ChunkBuffers(sz: Sizes, received: seq<BitString>)
  {
    && sz.Valid()
    && |received| == sz.Chunks()
    && forall k :: 0 <= k < |received| ==> |received[k]| == sz.chunk * sz.LutSize() * sz.lOut
  }

  /** BOB's inputs together with the buffers ALICE sent. */
  predicate ClientRun(sz: Sizes, x: seq<nat>, ms: seq<BitString>, z: seq<BitString>, received: seq<BitString>)
  {
    ClientInputs(sz, x, ms, z) && ChunkBuffers(sz, received)
  }

  /** BOB's shares after the first `n` chunks, starting from `z`: item `b` of
      a chunk already read comes from cell `b % chunk` of buffer
      `b / chunk`; the others keep their share. */
  function ClientShares(sz: Sizes, x: seq<nat>, ms: seq<BitString>, z: seq<BitString>, received: seq<BitString>, n: nat): (r: seq<BitString>)
    requires ClientRun(sz, x, ms, z, received) && n <= sz.Chunks()
    ensures |r| == |z|
    ensures Words(z) ==> Words(r)
  {
    seq(|z|, b requires 0 <= b < |z| => ItemShare(sz, x, ms, z, received, n, b))
  }

  /** BOB's share of item `b` after the first `n` chunks. */
  function ItemShare(sz: Sizes, x: seq<nat>, ms: seq<BitString>, z: seq<BitString>, received: seq<BitString>, n: nat, b: nat): (r: BitString)
    requires ClientRun(sz, x, ms, z, received) && n <= sz.Chunks() && b < |z|
    ensures |z[b]| == WIDTH ==> |r| == WIDTH
  {
    if b < Blocks(n, sz.chunk) then
      ChunksBelow(sz.chunk, n, b);
      ChunkShare(sz, x, ms, received, b / sz.chunk, b % sz.chunk, b)
    else z[b]
  }

  /** Item `b`'s share read from cell `c` of the `k`-th buffer. */
  function ChunkShare(sz: Sizes, x: seq<nat>, ms: seq<BitString>, received: seq<BitString>, k: nat, c: nat, b: nat): (r: BitString)
    requires ChunkBuffers(sz, received) && k < |received| && c < sz.chunk
    requires b < |x| && b < |ms| && x[b] < sz.LutSize() && |ms[b]| == WIDTH
    ensures |r| == WIDTH
  {
    Extracted(sz, received[k], c, x[b], ms[b])
  }

  /** An item of chunk `k` gets its share from the `k`-th buffer. */
  lemma ClientSharesAt(sz: Sizes, x: seq<nat>, ms: seq<BitString>, z: seq<BitString>, received: seq<BitString>, n: nat, k: nat, b: nat)
    requires ClientRun(sz, x, ms, z, received) && k < n <= sz.Chunks()
    requires Blocks(k, sz.chunk) <= b < Blocks(k, sz.chunk) + sz.chunk && b < sz.batch
    ensures ClientShares(sz, x, ms, z, received, n)[b] == Extracted(sz, received[k], b - Blocks(k, sz.chunk), x[b], ms[b])
  {
    ChunkIndex(sz.chunk, k, b);
    EarlierChunk(sz.chunk, k, n, b);
  }

  /** Reading chunk `n` extends the shares by one chunk. */
  lemma ClientSharesNext(sz: Sizes, x: seq<nat>, ms: seq<BitString>, z: seq<BitString>, received: seq<BitString>, n: nat)
    requires ClientRun(sz, x, ms, z, received) && n < sz.Chunks()
    ensures ClientInputs(sz, x, ms, ClientShares(sz, x, ms, z, received, n))
    ensures ClientShares(sz, x, ms, z, received, n + 1)
      == Extract(sz, x, ms, ClientShares(sz, x, ms, z, received, n), received[n], Blocks(n, sz.chunk))
  {
    var prev := ClientShares(sz, x, ms, z, received, n);
    var next := Extract(sz, x, ms, prev, received[n], Blocks(n, sz.chunk));
    forall b | 0 <= b < |z|
      ensures ClientShares(sz, x, ms, z, received, n + 1)[b] == next[b]
    {
      if Blocks(n, sz.chunk) <= b < Blocks(n + 1, sz.chunk) {
        ChunkIndex(sz.chunk, n, b);
      }
    }
  }

  /** Items of chunk `k` are numbered from `k * chunk`. */
  lemma ChunkIndex(size: nat, k: nat, b: nat)
    requires Blocks(k, size) <= b < Blocks(k, size) + size
    ensures b / size == k && b % size == b - Blocks(k, size)
  {
    BlocksMul(k, size);
    DivUnique(b, size, k, b - k * size);
  }

  /** The items of the first `n` chunks lie in those chunks. */
  lemma ChunksBelow(size: nat, n: nat, b: nat)
    requires size > 0 && b < Blocks(n, size)
    ensures b / size < n && b % size < size
  {
    var k := ChunkOf(size, n, b);
    ChunkIndex(size, k, b);
  }

  /** Reads one slot of the received buffer into a word. */
  method ReadSlot(buf: BitString, sz: Sizes, c: nat, xb: nat) returns (v: BitString)
    requires sz.Valid() && |buf| == sz.chunk * sz.LutSize() * sz.lOut
    requires c < sz.chunk && xb < sz.LutSize()
    ensures v == Slot(sz, buf, c, xb)
  {
    var lut := sz.LutSize();
    var width := sz.lOut;
    CellBound(sz.chunk, lut, width, c, xb);
    var blk := new bool[WIDTH](_ => false);
    for j := 0 to width
      invariant forall j' :: 0 <= j' < WIDTH ==> blk[j'] == (j' < j && buf[Offset(lut, width, c, xb, j')])
    {
      blk[j] := buf[Offset(lut, width, c, xb, j)];
    }
    v := blk[..];
  }

  /** BOB's pass over one received chunk. */
  method ClientChunk(z: array<BitString>, buf: BitString, sz: Sizes, x: seq<nat>, ms: seq<BitString>, base: nat)
    requires ClientInputs(sz, x, ms, z[..]) && |buf| == sz.chunk * sz.LutSize() * sz.lOut
    requires base + sz.chunk <= sz.batch
    modifies z
    ensures z[..] == Extract(sz, x, ms, old(z[..]), buf, base)
  {
    ghost var z0 := z[..];
    ghost var target := Extract(sz, x, ms, z0, buf, base);
    for c := 0 to sz.chunk
      invariant z.Length == |z0|
      invariant forall b :: 0 <= b < z.Length ==> z[b] == if base <= b < base + c then target[b] else z0[b]
    {
      var b := base + c;
      ghost var before := z[..];
      z[b] := ExtractItem(buf, sz, c, x[b], ms[b]);
      assert z[..] == before[b := target[b]];
    }
    assert z[..] == target;
  }

  /** One item of the chunk: its slot of the buffer, unmasked, cut to
      `l_out` bits. */
  method ExtractItem(buf: BitString, sz: Sizes, c: nat, xb: nat, m: BitString) returns (v: BitString)
    requires sz.Valid() && |buf| == sz.chunk * sz.LutSize() * sz.lOut
    requires c < sz.chunk && xb < sz.LutSize() && |m| == WIDTH
    ensures v == Extracted(sz, buf, c, xb, m)
  {
    var slot := ReadSlot(buf, sz, c, xb);
    v := Low(Xor(slot, m), WIDTH, sz.lOut);
  }

  /** BOB's online loop over the received chunks. */
  method ClientOnline(z: array<BitString>, received: seq<BitString>, sz: Sizes, x: seq<nat>, ms: seq<BitString>)
    requires ClientRun(sz, x, ms, z[..], received)
    modifies z
    ensures z[..] == ClientShares(sz, x, ms, old(z[..]), received, sz.Chunks())
  {
    ghost var z0 := z[..];
    for k := 0 to sz.Chunks()
      invariant z[..] == ClientShares(sz, x, ms, z0, received, k)
    {
      var base := k * sz.chunk;
      BlocksMul(k, sz.chunk);
      ChunksFit(sz, k + 1);
      ClientSharesNext(sz, x, ms, z0, received, k);
      ClientChunk(z, received[k], sz, x, ms, base);
    }
  }

  // ---------------------------------------------------------------------
  // Correctness

  /** The whole run: ALICE starts from `Shares(randA)`, BOB from `z0B`, BOB's
      choices go to ALICE, ALICE's chunks go to BOB. */
  predicate RunInputs(sz: Sizes, T: seq<BitString>, xA: seq<nat>, xB: seq<nat>, s: seq<nat>, ms: seq<BitString>,
                      masks: seq<seq<BitString>>, randA: seq<BitString>, z0B: seq<BitString>)
  {
    && sz.Valid()
    && |T| == sz.LutSize() && Words(T)
    && |xA| == sz.batch && |xB| == sz.batch && |s| == sz.batch && |ms| == sz.batch
    && |masks| == sz.batch && |randA| == sz.batch && |z0B| == sz.batch
    && Words(ms) && Words(randA) && Words(z0B)
    && (forall b :: 0 <= b < sz.batch ==> xA[b] < sz.LutSize() && xB[b] < sz.LutSize() && s[b] < sz.LutSize())
    && (forall b :: 0 <= b < sz.batch ==> |masks[b]| == sz.LutSize() && Words(masks[b]))
  }

  lemma RunServerInputs(sz: Sizes, T: seq<BitString>, xA: seq<nat>, xB: seq<nat>, s: seq<nat>, ms: seq<BitString>,
                        masks: seq<seq<BitString>>, randA: seq<BitString>, z0B: seq<BitString>)
    requires RunInputs(sz, T, xA, xB, s, ms, masks, randA, z0B)
    ensures ServerInputs(sz, T, xA, Choices(xB, s, sz.lIn), Shares(randA, sz.lOut), masks)
    ensures ClientInputs(sz, xB, ms, z0B)
  {
  }

  /** BOB's share of a looked-up item, as a function of everything. */
  function ClientResult(sz: Sizes, T: seq<BitString>, xA: seq<nat>, xB: seq<nat>, s: seq<nat>, ms: seq<BitString>,
                        masks: seq<seq<BitString>>, randA: seq<BitString>, z0B: seq<BitString>): (zB: seq<BitString>)
    requires RunInputs(sz, T, xA, xB, s, ms, masks, randA, z0B)
    ensures |zB| == sz.batch && Words(zB)
  {
    RunServerInputs(sz, T, xA, xB, s, ms, masks, randA, z0B);
    var sent := ServerChunks(sz, T, xA, Choices(xB, s, sz.lIn), Shares(randA, sz.lOut), masks, sz.Chunks());
    ClientShares(sz, xB, ms, z0B, sent, sz.Chunks())
  }

  /** The slot BOB reads for item `b` is ALICE's rotation at `xB[b]`. */
  lemma SlotIsRotation(sz: Sizes, T: seq<BitString>, x: seq<nat>, u: seq<nat>, z: seq<BitString>, masks: seq<seq<BitString>>,
                       sent: seq<BitString>, k: nat, c: nat, b: nat, xb: nat)
    requires ServerInputs(sz, T, x, u, z, masks) && sent == ServerChunks(sz, T, x, u, z, masks, sz.Chunks())
    requires k < sz.Chunks() && c < sz.chunk && b == Blocks(k, sz.chunk) + c && xb < sz.LutSize()
    ensures b < sz.batch && |sent[k]| == sz.chunk * sz.LutSize() * sz.lOut
    ensures Slot(sz, sent[k], c, xb) == Rotated(sz, T, x, u, z, masks, b, xb)
  {
    ChunksFit(sz, k + 1);
    assert sent[k] == ServerChunk(sz, T, x, u, z, masks, k);
    SlotOfCells(sz, T, x, u, z, masks, Blocks(k, sz.chunk), sent[k], c, xb);
  }

  lemma SlotOfCells(sz: Sizes, T: seq<BitString>, x: seq<nat>, u: seq<nat>, z: seq<BitString>, masks: seq<seq<BitString>>,
                    base: nat, buf: BitString, c: nat, xb: nat)
    requires ServerInputs(sz, T, x, u, z, masks) && base + sz.chunk <= sz.batch && c < sz.chunk && xb < sz.LutSize()
    requires buf == Flatten(ServerCells(sz, T, x, u, z, masks, base), sz.chunk, sz.LutSize(), sz.lOut)
    ensures Slot(sz, buf, c, xb) == Rotated(sz, T, x, u, z, masks, base + c, xb)
  {
    var cells := ServerCells(sz, T, x, u, z, masks, base);
    SliceCell(cells, sz.chunk, sz.LutSize(), sz.lOut, c, xb);
    var v := Rotated(sz, T, x, u, z, masks, base + c, xb);
    assert cells[c] == RotatedRow(sz, T, x, u, z, masks, base + c);
    assert Slice(buf, Offset(sz.LutSize(), sz.lOut, c, xb, 0), sz.lOut) == v[..sz.lOut];
    LowPrefix(v, WIDTH, sz.lOut);
  }

  /** Masking algebra of one item: with the OT masks agreeing at BOB's
      choice, the two shares XOR to the table entry. */
  lemma Unmask(t: BitString, mA: BitString, mB: BitString, zA: BitString, lOut: nat)
    requires |t| == WIDTH && |mA| == WIDTH && |mB| == WIDTH && |zA| == WIDTH && lOut <= WIDTH
    requires Low(mA, WIDTH, lOut) == Low(mB, WIDTH, lOut)
    requires Low(zA, WIDTH, lOut) == zA
    ensures Xor(zA, Low(Xor(Low(Xor(Xor(t, mA), zA), WIDTH, lOut), mB), WIDTH, lOut)) == Low(t, WIDTH, lOut)
  {
    var r := Xor(zA, Low(Xor(Low(Xor(Xor(t, mA), zA), WIDTH, lOut), mB), WIDTH, lOut));
    forall j | 0 <= j < WIDTH
      ensures r[j] == Low(t, WIDTH, lOut)[j]
    {
      if j < lOut {
        assert Low(mA, WIDTH, lOut)[j] == mA[j];
        assert Low(mB, WIDTH, lOut)[j] == mB[j];
      } else {
        assert Low(zA, WIDTH, lOut)[j] == false;
      }
    }
  }

  /** SPLUT correctness: for every item of a whole chunk, ALICE's output XOR
      BOB's output is the table entry at `xA[b] ^ xB[b]`, cut to `l_out`
      bits; when the entries fit in `l_out` bits it is the entry itself. */
  lemma SplutCorrect(sz: Sizes, T: seq<BitString>, xA: seq<nat>, xB: seq<nat>, s: seq<nat>, ms: seq<BitString>,
                     masks: seq<seq<BitString>>, randA: seq<BitString>, z0B: seq<BitString>, b: nat)
    requires RunInputs(sz, T, xA, xB, s, ms, masks, randA, z0B)
    requires b < sz.batch && b < Blocks(sz.Chunks(), sz.chunk)
    requires Low(masks[b][s[b]], WIDTH, sz.lOut) == Low(ms[b], WIDTH, sz.lOut)
    ensures var zA := Shares(randA, sz.lOut)[b];
      var zB := ClientResult(sz, T, xA, xB, s, ms, masks, randA, z0B)[b];
      var t := T[XorIndex(xA[b], xB[b], sz.lIn)];
      && Xor(zA, zB) == Low(t, WIDTH, sz.lOut)
      && (Low(t, WIDTH, sz.lOut) == t ==> Xor(zA, zB) == t)
  {
    var zA := Shares(randA, sz.lOut);
    ClientResultAt(sz, T, xA, xB, s, ms, masks, randA, z0B, b);
    RotatedAtChoice(sz, T, xA, xB, s, ms, masks, randA, z0B, b);
    ShareBound(randA, sz.lOut, b);
    Unmask(T[XorIndex(xA[b], xB[b], sz.lIn)], masks[b][s[b]], ms[b], zA[b], sz.lOut);
  }

  /** BOB's output for an item of a whole chunk is ALICE's rotation at
      `xB[b]`, unmasked with `ms[b]`. */
  lemma ClientResultAt(sz: Sizes, T: seq<BitString>, xA: seq<nat>, xB: seq<nat>, s: seq<nat>, ms: seq<BitString>,
                       masks: seq<seq<BitString>>, randA: seq<BitString>, z0B: seq<BitString>, b: nat)
    requires RunInputs(sz, T, xA, xB, s, ms, masks, randA, z0B)
    requires b < sz.batch && b < Blocks(sz.Chunks(), sz.chunk)
    ensures ServerInputs(sz, T, xA, Choices(xB, s, sz.lIn), Shares(randA, sz.lOut), masks)
    ensures ClientResult(sz, T, xA, xB, s, ms, masks, randA, z0B)[b]
      == Low(Xor(Rotated(sz, T, xA, Choices(xB, s, sz.lIn), Shares(randA, sz.lOut), masks, b, xB[b]), ms[b]), WIDTH, sz.lOut)
  {
    RunServerInputs(sz, T, xA, xB, s, ms, masks, randA, z0B);
    ReadRotation(sz, T, xA, Choices(xB, s, sz.lIn), Shares(randA, sz.lOut), masks, xB, ms, z0B, b);
  }

  /** BOB reads ALICE's rotation of item `b` at its index share. */
  lemma ReadRotation(sz: Sizes, T: seq<BitString>, x: seq<nat>, u: seq<nat>, zA: seq<BitString>, masks: seq<seq<BitString>>,
                     xB: seq<nat>, ms: seq<BitString>, z0: seq<BitString>, b: nat)
    requires ServerInputs(sz, T, x, u, zA, masks) && ClientInputs(sz, xB, ms, z0)
    requires b < sz.batch && b < Blocks(sz.Chunks(), sz.chunk)
    ensures var sent := ServerChunks(sz, T, x, u, zA, masks, sz.Chunks());
      && ClientRun(sz, xB, ms, z0, sent)
      && ClientShares(sz, xB, ms, z0, sent, sz.Chunks())[b]
         == Low(Xor(Rotated(sz, T, x, u, zA, masks, b, xB[b]), ms[b]), WIDTH, sz.lOut)
  {
    var k := ChunkOf(sz.chunk, sz.Chunks(), b);
    var c := b - Blocks(k, sz.chunk);
    var sent := ServerChunks(sz, T, x, u, zA, masks, sz.Chunks());
    SlotIsRotation(sz, T, x, u, zA, masks, sent, k, c, b, xB[b]);
    ReadSlotShare(sz, xB, ms, z0, sent, k, c, b, Rotated(sz, T, x, u, zA, masks, b, xB[b]));
  }

  /** BOB's output for an item is the slot it reads, unmasked. */
  lemma ReadSlotShare(sz: Sizes, xB: seq<nat>, ms: seq<BitString>, z0: seq<BitString>, sent: seq<BitString>,
                      k: nat, c: nat, b: nat, v: BitString)
    requires ClientRun(sz, xB, ms, z0, sent) && k < sz.Chunks() && c < sz.chunk && b == Blocks(k, sz.chunk) + c && b < sz.batch
    requires Slot(sz, sent[k], c, xB[b]) == v
    ensures ClientShares(sz, xB, ms, z0, sent, sz.Chunks())[b] == Low(Xor(v, ms[b]), WIDTH, sz.lOut)
  {
    ClientSharesAt(sz, xB, ms, z0, sent, sz.Chunks(), k, b);
  }

  /** At BOB's slot, ALICE's rotation is the looked-up entry masked with the
      OT mask of BOB's choice and ALICE's share. */
  lemma RotatedAtChoice(sz: Sizes, T: seq<BitString>, xA: seq<nat>, xB: seq<nat>, s: seq<nat>, ms: seq<BitString>,
                        masks: seq<seq<BitString>>, randA: seq<BitString>, z0B: seq<BitString>, b: nat)
    requires RunInputs(sz, T, xA, xB, s, ms, masks, randA, z0B) && b < sz.batch
    ensures ServerInputs(sz, T, xA, Choices(xB, s, sz.lIn), Shares(randA, sz.lOut), masks)
    ensures Rotated(sz, T, xA, Choices(xB, s, sz.lIn), Shares(randA, sz.lOut), masks, b, xB[b])
      == Low(Xor(Xor(T[XorIndex(xA[b], xB[b], sz.lIn)], masks[b][s[b]]), Shares(randA, sz.lOut)[b]), WIDTH, sz.lOut)
  {
    RunServerInputs(sz, T, xA, xB, s, ms, masks, randA, z0B);
    XorIndexCancel(xB[b], s[b], sz.lIn);
    XorIndexComm(xB[b], xA[b], sz.lIn);
  }

  /** The chunk holding item `b`. */
  lemma {:induction false} ChunkOf(size: nat, n: nat, b: nat) returns (k: nat)
    requires b < Blocks(n, size)
    ensures k < n && Blocks(k, size) <= b < Blocks(k, size) + size
  {
    if b < Blocks(n - 1, size) {
      k := ChunkOf(size, n - 1, b);
    } else {
      k := n - 1;
    }
  }

  /** Items past the last whole chunk are not looked up: BOB keeps the share
      it started with. */
  lemma Leftover(sz: Sizes, T: seq<BitString>, xA: seq<nat>, xB: seq<nat>, s: seq<nat>, ms: seq<BitString>,
                 masks: seq<seq<BitString>>, randA: seq<BitString>, z0B: seq<BitString>, b: nat)
    requires RunInputs(sz, T, xA, xB, s, ms, masks, randA, z0B)
    requires Blocks(sz.Chunks(), sz.chunk) <= b < sz.batch
    ensures ClientResult(sz, T, xA, xB, s, ms, masks, randA, z0B)[b] == z0B[b]
  {
    RunServerInputs(sz, T, xA, xB, s, ms, masks, randA, z0B);
  }
}
