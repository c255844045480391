/** Flat bit buffers holding a table of fixed-width cells: cell `(r, c)` of a
    table with `cols` columns of `width` bits starts at offset
    `r * cols * width + c * width`.  BOB's share buffer in a lookup, the SPLUT
    server's serialised rotations and the join's share buffer all use this
    layout. */
module Layout {
  import opened Bits

  /** A table of `rows` by `cols` cells of `width` bits each. */
  predicate Cells(t: seq<seq<BitString>>, rows: nat, cols: nat, width: nat)
  {
    && |t| == rows
    && (forall r :: 0 <= r < rows ==> |t[r]| == cols)
    && (forall r, c :: 0 <= r < rows && 0 <= c < cols ==> |t[r][c]| == width)
  }

  /** Offset of bit `k` of cell `(r, c)`, counted in blocks so that the
      solver sees no products (see `OffsetBlocks`). */
  function Offset(cols: nat, width: nat, r: nat, c: nat, k: nat): nat
  {
    Blocks(r, Blocks(cols, width)) + Blocks(c, width) + k
  }

  /** `n` blocks of `size` bits, counted block by block. */
  function Blocks(n: nat, size: nat): nat
  {
    if n == 0 then 0 else Blocks(n - 1, size) + size
  }

  lemma {:induction false} BlocksMul(n: nat, size: nat)
    ensures Blocks(n, size) == n * size
  {
    if n > 0 {
      BlocksMul(n - 1, size);
    }
  }

  /** Offsets are `r * (cols * width) + c * width + k`, and the buffer holds
      `rows * cols * width` bits. */
  lemma OffsetBlocks(rows: nat, cols: nat, width: nat, r: nat, c: nat, k: nat)
    ensures Offset(cols, width, r, c, k) == r * (cols * width) + c * width + k
    ensures rows * cols * width == Blocks(rows, Blocks(cols, width))
  {
    BlocksMul(cols, width);
    BlocksMul(r, cols * width);
    BlocksMul(rows, cols * width);
    BlocksMul(c, width);
    MulAssoc(r, cols, width);
    MulAssoc(rows, cols, width);
  }

  /** The last bit of a cell is followed by the next cell, the last cell of a
      row by the next row, and the last row by the end of the buffer. */
  lemma OffsetSteps(rows: nat, cols: nat, width: nat, r: nat, c: nat)
    ensures Offset(cols, width, r, c, width) == Offset(cols, width, r, c + 1, 0)
    ensures c == cols ==> Offset(cols, width, r, c, 0) == Offset(cols, width, r + 1, 0, 0)
    ensures r == rows && c == 0 ==> Offset(cols, width, r, c, 0) == rows * cols * width
  {
    OffsetBlocks(rows, cols, width, r, c, width);
    OffsetBlocks(rows, cols, width, r, c + 1, 0);
    OffsetBlocks(rows, cols, width, r, c, 0);
    OffsetBlocks(rows, cols, width, r + 1, 0, 0);
  }

  /** Every cell lies inside the buffer. */
  lemma CellBound(rows: nat, cols: nat, width: nat, r: nat, c: nat)
    requires r < rows && c < cols
    ensures Offset(cols, width, r, c, 0) + width <= rows * cols * width
  {
    OffsetBlocks(rows, cols, width, r, c, 0);
    RowBound(cols, width, c);
    RowBound(rows, Blocks(cols, width), r);
  }

  lemma {:induction false} RowBound(n: nat, size: nat, i: nat)
    requires i < n
    ensures Blocks(i, size) + size <= Blocks(n, size)
  {
    if i < n - 1 {
      RowBound(n - 1, size, i);
    }
  }

  /** The first `n` cells of row `r`, one after the other. */
  function Row(t: seq<seq<BitString>>, rows: nat, cols: nat, width: nat, r: nat, n: nat): (s: BitString)
    requires Cells(t, rows, cols, width) && r < rows && n <= cols
    ensures |s| == Blocks(n, width)
  {
    if n == 0 then [] else Row(t, rows, cols, width, r, n - 1) + t[r][n - 1]
  }

  /** The first `n` rows, one after the other. */
  function Rows(t: seq<seq<BitString>>, rows: nat, cols: nat, width: nat, n: nat): (s: BitString)
    requires Cells(t, rows, cols, width) && n <= rows
    ensures |s| == Blocks(n, Blocks(cols, width))
  {
    if n == 0 then [] else Rows(t, rows, cols, width, n - 1) + Row(t, rows, cols, width, n - 1, cols)
  }

  /** The whole table laid out row by row, cell by cell. */
  function Flatten(t: seq<seq<BitString>>, rows: nat, cols: nat, width: nat): (s: BitString)
    requires Cells(t, rows, cols, width)
    ensures |s| == rows * cols * width
  {
    OffsetBlocks(rows, cols, width, 0, 0, 0);
    Rows(t, rows, cols, width, rows)
  }

  lemma {:induction false} RowAt(t: seq<seq<BitString>>, rows: nat, cols: nat, width: nat, r: nat, n: nat, c: nat, k: nat)
    requires Cells(t, rows, cols, width) && r < rows && c < n <= cols && k < width
    ensures Blocks(c, width) + k < Blocks(n, width)
    ensures Row(t, rows, cols, width, r, n)[Blocks(c, width) + k] == t[r][c][k]
  {
    if c < n - 1 {
      RowAt(t, rows, cols, width, r, n - 1, c, k);
    }
  }

  lemma {:induction false} RowsAt(t: seq<seq<BitString>>, rows: nat, cols: nat, width: nat, n: nat, r: nat, c: nat, k: nat)
    requires Cells(t, rows, cols, width) && r < n <= rows && c < cols && k < width
    ensures var o := Blocks(r, Blocks(cols, width)) + Blocks(c, width) + k;
      && o < Blocks(n, Blocks(cols, width))
      && Rows(t, rows, cols, width, n)[o] == t[r][c][k]
  {
    RowAt(t, rows, cols, width, r, cols, c, k);
    if r < n - 1 {
      RowsAt(t, rows, cols, width, n - 1, r, c, k);
    }
  }

  /** Bit `k` of cell `(r, c)` sits at its offset. */
  lemma FlattenAt(t: seq<seq<BitString>>, rows: nat, cols: nat, width: nat, r: nat, c: nat, k: nat)
    requires Cells(t, rows, cols, width) && r < rows && c < cols && k < width
    ensures Offset(cols, width, r, c, 0) + k == Offset(cols, width, r, c, k) < rows * cols * width
    ensures Flatten(t, rows, cols, width)[Offset(cols, width, r, c, k)] == t[r][c][k]
  {
    RowsAt(t, rows, cols, width, rows, r, c, k);
    OffsetBlocks(rows, cols, width, r, c, k);
  }

  /** The `len` bits from offset `start`. */
  function Slice(bits: BitString, start: nat, len: nat): (s: BitString)
    requires start + len <= |bits|
    ensures |s| == len
  {
    bits[start..start + len]
  }

  /** A slice is determined bit by bit. */
  lemma SliceIs(bits: BitString, start: nat, target: BitString)
    requires start + |target| <= |bits|
    requires forall k :: 0 <= k < |target| ==> bits[start + k] == target[k]
    ensures Slice(bits, start, |target|) == target
  {
  }

  /** Layout round trip: the bits of a cell, sliced from where the cell starts,
      are the cell. */
  lemma SliceCell(t: seq<seq<BitString>>, rows: nat, cols: nat, width: nat, r: nat, c: nat)
    requires Cells(t, rows, cols, width) && r < rows && c < cols
    ensures Offset(cols, width, r, c, 0) + width <= rows * cols * width
    ensures Slice(Flatten(t, rows, cols, width), Offset(cols, width, r, c, 0), width) == t[r][c]
  {
    var flat := Flatten(t, rows, cols, width);
    var start := Offset(cols, width, r, c, 0);
    CellBound(rows, cols, width, r, c);
    forall k | 0 <= k < width
      ensures flat[start + k] == t[r][c][k]
    {
      FlattenAt(t, rows, cols, width, r, c, k);
    }
    SliceIs(flat, start, t[r][c]);
  }

  /** Every cell of row `r`, sliced from where it starts. */
  lemma RowCells(t: seq<seq<BitString>>, rows: nat, cols: nat, width: nat, r: nat)
    requires Cells(t, rows, cols, width) && r < rows
    ensures forall c {:trigger t[r][c]} :: 0 <= c < cols ==>
      && Offset(cols, width, r, c, 0) + width <= rows * cols * width
      && Slice(Flatten(t, rows, cols, width), Offset(cols, width, r, c, 0), width) == t[r][c]
  {
    forall c | 0 <= c < cols
      ensures Offset(cols, width, r, c, 0) + width <= rows * cols * width
      ensures Slice(Flatten(t, rows, cols, width), Offset(cols, width, r, c, 0), width) == t[r][c]
    {
      SliceCell(t, rows, cols, width, r, c);
    }
  }

  /** Writes the first `width` bits of `v` from offset `start` on, where `flat`
      holds them: a buffer that agreed with `flat` before `start` then agrees
      with it up to `start + width`, and no bit from `start + width` on changes. */
  method WriteBits(buf: array<bool>, start: nat, v: BitString, width: nat, ghost flat: BitString)
    requires start + width <= buf.Length == |flat| && width <= |v|
    requires Slice(flat, start, width) == v[..width]
    requires forall o :: 0 <= o < start ==> buf[o] == flat[o]
    modifies buf
    ensures forall o :: 0 <= o < start + width ==> buf[o] == flat[o]
    ensures forall o :: start + width <= o < buf.Length ==> buf[o] == old(buf[o])
  {
    for j := 0 to width
      invariant forall o :: 0 <= o < start + j ==> buf[o] == flat[o]
      invariant forall o :: start + j <= o < buf.Length ==> buf[o] == old(buf[o])
    {
      assert flat[start + j] == Slice(flat, start, width)[j];
      buf[start + j] := v[j];
    }
  }
}
