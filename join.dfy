/** The two-table join of src/applications/join.cpp.  `share` lays a clear table
    out in a bit buffer, field by field, and slices it into 32-bit secret
    integers; `join_scs` joins two secret tables on their first column by
    concatenating them into one bitonic sequence, merging it with the swap-logged
    `bitonic_merge` of module `Sort` and pairing neighbours; `join_cleartext` is
    the clear hash join its output is compared with, by `check_eq`.

    A table is held column by column, as in the source: `t[f][r]` is field `f`
    of row `r`, field 0 being the join key.  A secret `Integer` is modelled by the
    value it shares, the unsigned number its 32 bits stand for. */
module Join {
  import opened Bits
  import Layout
  import opened SwapLog
  import opened BitonicNetwork
  import opened SortSpec
  import BitonicSorted
  import Sort

  /** The width of every shared value. */
  const WORD: nat := 32

  // ---------------------------------------------------------------------------
  // share

  /** `pt` has `fields` columns of `rows` values each. */
  predicate Plain(pt: seq<seq<nat>>, fields: nat, rows: nat)
  {
    |pt| == fields && forall f :: 0 <= f < fields ==> |pt[f]| == rows
  }

  /** The secret integers a clear table is shared as: cell `(f, r)` holds the
      32 bits `int_to_bool` writes for `pt[f][r]`, least significant first. */
  function Words(pt: seq<seq<nat>>, fields: nat, rows: nat): (t: seq<seq<BitString>>)
    requires Plain(pt, fields, rows)
    ensures Layout.Cells(t, fields, rows, WORD)
  {
    seq(fields, f requires 0 <= f < fields =>
      seq(rows, r requires 0 <= r < rows => FromNat(WORD, pt[f][r])))
  }

  /** The buffer `share(pt, src_party)` hands to the feed.  The source party
      writes the bits of `pt[f][r]` at `(f * num_rows + r) * 32`, 32 times over;
      the other party hands over zeros. */
  method ShareBuffer(pt: seq<seq<nat>>, isSource: bool) returns (buffer: array<bool>)
    requires |pt| >= 1 && Plain(pt, |pt|, |pt[0]|)
    ensures fresh(buffer)
    ensures isSource ==> buffer[..] == Layout.Flatten(Words(pt, |pt|, |pt[0]|), |pt|, |pt[0]|, WORD)
    ensures !isSource ==> buffer.Length == |pt| * |pt[0]| * 32 && forall o :: 0 <= o < buffer.Length ==> !buffer[o]
  {
    if !isSource {
      buffer := new bool[|pt| * |pt[0]| * 32](_ => false);
    } else {
      buffer := SourceBuffer(pt);
    }
  }

  /** The source party's buffer: the `f` loop over the fields. */
  method SourceBuffer(pt: seq<seq<nat>>) returns (buffer: array<bool>)
    requires |pt| >= 1 && Plain(pt, |pt|, |pt[0]|)
    ensures fresh(buffer)
    ensures buffer[..] == Layout.Flatten(Words(pt, |pt|, |pt[0]|), |pt|, |pt[0]|, WORD)
  {
    var fields, rows := |pt|, |pt[0]|;
    ghost var flat := Layout.Flatten(Words(pt, fields, rows), fields, rows, WORD);
    buffer := new bool[fields * rows * 32];
    assert buffer.Length == |flat|;
    for f := 0 to fields
      invariant forall o :: 0 <= o < Layout.Offset(rows, WORD, f, 0, 0) && o < buffer.Length ==> buffer[o] == flat[o]
    {
      WriteField(buffer, pt, f, flat);
    }
    Layout.OffsetSteps(fields, rows, WORD, fields, 0);
    assert Layout.Offset(rows, WORD, fields, 0, 0) == buffer.Length;
    assert forall o :: 0 <= o < buffer.Length ==> buffer[o] == flat[o];
  }

  /** The `r` loop for field `f`: the cells of field `f` are written one after
      the other, after what earlier fields wrote. */
  method WriteField(buffer: array<bool>, pt: seq<seq<nat>>, f: nat, ghost flat: BitString)
    requires |pt| >= 1 && Plain(pt, |pt|, |pt[0]|) && f < |pt|
    requires buffer.Length == |pt| * |pt[0]| * 32
    requires flat == Layout.Flatten(Words(pt, |pt|, |pt[0]|), |pt|, |pt[0]|, WORD)
    requires forall o :: 0 <= o < Layout.Offset(|pt[0]|, WORD, f, 0, 0) && o < buffer.Length ==> buffer[o] == flat[o]
    modifies buffer
    ensures forall o :: 0 <= o < Layout.Offset(|pt[0]|, WORD, f + 1, 0, 0) && o < buffer.Length ==> buffer[o] == flat[o]
  {
    var fields, rows := |pt|, |pt[0]|;
    for r := 0 to rows
      invariant forall o :: 0 <= o < Layout.Offset(rows, WORD, f, r, 0) && o < buffer.Length ==> buffer[o] == flat[o]
    {
      WriteCell(buffer, pt, f, r, flat);
      Layout.OffsetSteps(fields, rows, WORD, f, r);
    }
    Layout.OffsetSteps(fields, rows, WORD, f, rows);
  }

  /** The body of the `i` loop for cell `(f, r)`: `int_to_bool` writes the
      32 bits of `pt[f][r]` at the cell's offset, once per value of `i`, and
      leaves the bits after the cell alone. */
  method WriteCell(buffer: array<bool>, pt: seq<seq<nat>>, f: nat, r: nat, ghost flat: BitString)
    requires |pt| >= 1 && Plain(pt, |pt|, |pt[0]|) && f < |pt| && r < |pt[0]|
    requires buffer.Length == |pt| * |pt[0]| * 32
    requires flat == Layout.Flatten(Words(pt, |pt|, |pt[0]|), |pt|, |pt[0]|, WORD)
    requires forall o :: 0 <= o < Layout.Offset(|pt[0]|, WORD, f, r, 0) && o < buffer.Length ==> buffer[o] == flat[o]
    modifies buffer
    ensures forall o :: 0 <= o < Layout.Offset(|pt[0]|, WORD, f, r, 0) + WORD && o < buffer.Length ==> buffer[o] == flat[o]
    ensures forall o :: Layout.Offset(|pt[0]|, WORD, f, r, 0) + WORD <= o < buffer.Length ==> buffer[o] == old(buffer[o])
  {
    var fields, rows := |pt|, |pt[0]|;
    ghost var t := Words(pt, fields, rows);
    var start := Layout.Offset(rows, WORD, f, r, 0);
    Layout.CellBound(fields, rows, WORD, f, r);
    Layout.SliceCell(t, fields, rows, WORD, f, r);
    assert FromNat(WORD, pt[f][r])[..WORD] == t[f][r];
    for i := 0 to 32
      invariant forall o :: 0 <= o < start ==> buffer[o] == flat[o]
      invariant 0 < i ==> forall o :: 0 <= o < start + WORD ==> buffer[o] == flat[o]
      invariant forall o :: start + WORD <= o < buffer.Length ==> buffer[o] == old(buffer[o])
    {
      Layout.WriteBits(buffer, start, FromNat(WORD, pt[f][r]), WORD, flat);
    }
  }

  /** `share(pt, src_party)`: the secret table whose cell `(f, r)` is the
      32-bit slice of the fed buffer at `(f * num_rows + r) * 32`.  The feed is
      modelled as handing on the source party's buffer. */
  method Share(pt: seq<seq<nat>>) returns (t: seq<seq<BitString>>)
    requires |pt| >= 1 && Plain(pt, |pt|, |pt[0]|)
    ensures t == Words(pt, |pt|, |pt[0]|)
  {
    var fields, rows := |pt|, |pt[0]|;
    var buffer := ShareBuffer(pt, true);
    var bits := buffer[..];
    ghost var w := Words(pt, fields, rows);
    t := seq(fields, _ => seq(rows, _ => []));
    for f := 0 to fields
      invariant |t| == fields && forall f' :: 0 <= f' < fields ==> |t[f']| == rows
      invariant forall f' :: 0 <= f' < f ==> t[f'] == w[f']
    {
      for r := 0 to rows
        invariant |t| == fields && forall f' :: 0 <= f' < fields ==> |t[f']| == rows
        invariant forall f' :: 0 <= f' < f ==> t[f'] == w[f']
        invariant forall r' :: 0 <= r' < r ==> t[f][r'] == w[f][r']
      {
        Layout.SliceCell(w, fields, rows, WORD, f, r);
        t := t[f := t[f][r := Layout.Slice(bits, Layout.Offset(rows, WORD, f, r, 0), WORD)]];
      }
      assert t[f] == w[f];
    }
  }

  /** Two powers of two the word width needs. */
  lemma Pow2Word()
    ensures Pow2(WORD) == 0x1_0000_0000
  {
    assert Pow2(4) == 16;
    assert Pow2(8) == 256 by { Pow2Add(4, 4); }
    assert Pow2(16) == 0x1_0000 by { Pow2Add(8, 8); }
    Pow2Add(16, 16);
  }

  /** Each shared integer holds its clear value, reduced to 32 bits. */
  lemma ShareValue(pt: seq<seq<nat>>, f: nat, r: nat)
    requires |pt| >= 1 && Plain(pt, |pt|, |pt[0]|) && f < |pt| && r < |pt[0]|
    ensures ToNat(Words(pt, |pt|, |pt[0]|)[f][r]) == pt[f][r] % 0x1_0000_0000
  {
    ToNatFromNat(WORD, pt[f][r]);
    Pow2Word();
  }

  // ---------------------------------------------------------------------------
  // join_scs: building the bitonic sequence

  /** Every one of the (at least one) columns holds `len` values. */
  predicate Columns(t: seq<seq<int>>, len: nat)
  {
    |t| >= 1 && forall f :: 0 <= f < |t| ==> |t[f]| == len
  }

  /** A table: at least one column, all as long as the key column. */
  predicate Table(t: seq<seq<int>>)
  {
    |t| >= 1 && Columns(t, |t[0]|)
  }

  /** `n` zero integers: `IntegerArray(n, Integer(w, 0))`. */
  function Zeroes(n: nat): (s: seq<int>)
    ensures |s| == n && forall k :: 0 <= k < n ==> s[k] == 0
  {
    seq(n, _ => 0)
  }

  /** Column `f` of the table `join_scs` merges: a common field is the reversed
      `t1` column followed by the `t2` column, a field only `t1` has is padded
      with zeros at the end and a field only `t2` has with zeros in front. */
  function Column(t1: seq<seq<int>>, t2: seq<seq<int>>, nc: nat, f: nat): seq<int>
    requires Table(t1) && Table(t2) && nc <= |t1| && nc <= |t2| && f < |t1| + |t2| - nc
  {
    if f < nc then Reverse(t1[f]) + t2[f]
    else if f < |t1| then Reverse(t1[f]) + Zeroes(|t2[0]|)
    else Zeroes(|t1[0]|) + t2[f - |t1| + nc]
  }

  /** The table `join_scs` merges, both tables put end to end.  Position
      `p < len1` holds row `len1 - 1 - p` of `t1`, zero in the fields only `t2`
      has; position `len1 + q` holds row `q` of `t2`, zero in the fields only
      `t1` has.  The `nc` common fields come first, then the rest of `t1`, then
      the rest of `t2`. */
  function Concatenated(t1: seq<seq<int>>, t2: seq<seq<int>>, nc: nat): (data: seq<seq<int>>)
    requires Table(t1) && Table(t2) && nc <= |t1| && nc <= |t2|
    ensures Columns(data, |t1[0]| + |t2[0]|) && |data| == |t1| + |t2| - nc
    ensures forall f, p :: 0 <= f < |data| && 0 <= p < |t1[0]| ==>
      data[f][p] == if f < |t1| then t1[f][|t1[0]| - 1 - p] else 0
    ensures forall f, p :: 0 <= f < |data| && |t1[0]| <= p < |t1[0]| + |t2[0]| ==>
      data[f][p] == if f < nc then t2[f][p - |t1[0]|] else if f < |t1| then 0 else t2[f - |t1| + nc][p - |t1[0]|]
  {
    seq(|t1| + |t2| - nc, f requires 0 <= f < |t1| + |t2| - nc => Column(t1, t2, nc, f))
  }

  /** The three loops of `join_scs` that fill `data`: each column is assigned
      the `t2` part, or zeros, and then gets the reversed `t1` part, or zeros,
      inserted in front. */
  method Concat(t1: seq<seq<int>>, t2: seq<seq<int>>, nc: nat) returns (data: seq<seq<int>>)
    requires Table(t1) && Table(t2) && nc <= |t1| && nc <= |t2|
    ensures data == Concatenated(t1, t2, nc)
  {
    var cols := new seq<int>[|t1| + |t2| - nc](_ => []);
    InsertCommon(cols, t1, t2, nc);
    InsertLeft(cols, t1, t2, nc);
    InsertRight(cols, t1, t2, nc);
    data := cols[..];
    assert forall f :: 0 <= f < |data| ==> data[f] == Concatenated(t1, t2, nc)[f];
  }

  /** The first loop of the concatenation: each common field is `t1`'s column
      reversed, followed by `t2`'s. */
  method InsertCommon(cols: array<seq<int>>, t1: seq<seq<int>>, t2: seq<seq<int>>, nc: nat)
    requires Table(t1) && Table(t2) && nc <= |t1| && nc <= |t2|
    requires cols.Length == |t1| + |t2| - nc
    modifies cols
    ensures forall f :: 0 <= f < nc ==> cols[f] == Column(t1, t2, nc, f)
  {
    for i := 0 to nc
      invariant forall f :: 0 <= f < i ==> cols[f] == Column(t1, t2, nc, f)
    {
      cols[i] := t2[i];
      cols[i] := Reverse(t1[i]) + cols[i];
    }
  }

  /** The second loop: each field only `t1` has is its column reversed,
      followed by zeros for `t2`'s rows. */
  method InsertLeft(cols: array<seq<int>>, t1: seq<seq<int>>, t2: seq<seq<int>>, nc: nat)
    requires Table(t1) && Table(t2) && nc <= |t1| && nc <= |t2|
    requires cols.Length == |t1| + |t2| - nc
    requires forall f :: 0 <= f < nc ==> cols[f] == Column(t1, t2, nc, f)
    modifies cols
    ensures forall f :: 0 <= f < |t1| ==> cols[f] == Column(t1, t2, nc, f)
  {
    for i := nc to |t1|
      invariant forall f :: 0 <= f < i ==> cols[f] == Column(t1, t2, nc, f)
    {
      cols[i] := Zeroes(|t2[0]|);
      cols[i] := Reverse(t1[i]) + cols[i];
    }
  }

  /** The third loop: each field only `t2` has is zeros for `t1`'s rows,
      followed by its column. */
  method InsertRight(cols: array<seq<int>>, t1: seq<seq<int>>, t2: seq<seq<int>>, nc: nat)
    requires Table(t1) && Table(t2) && nc <= |t1| && nc <= |t2|
    requires cols.Length == |t1| + |t2| - nc
    requires forall f :: 0 <= f < |t1| ==> cols[f] == Column(t1, t2, nc, f)
    modifies cols
    ensures forall f :: 0 <= f < cols.Length ==> cols[f] == Column(t1, t2, nc, f)
  {
    for i := nc to |t2|
      invariant forall f :: 0 <= f < i - nc + |t1| ==> cols[f] == Column(t1, t2, nc, f)
    {
      var d := i - nc + |t1|;
      cols[d] := t2[i];
      var placeholder := Zeroes(|t1[0]|);
      cols[d] := placeholder + cols[d];
    }
  }

  // ---------------------------------------------------------------------------
  // join_scs: merging

  /** Position `p` of a table as module `Sort` holds it: the key is field 0 and
      the payload the other fields in order. */
  function RowAt(data: seq<seq<int>>, n: nat, p: nat): (row: Row)
    requires Columns(data, n) && p < n
    ensures row.key == data[0][p] && |row.payload| == |data| - 1
    ensures forall f :: 1 <= f < |data| ==> row.payload[f - 1] == data[f][p]
  {
    Row(data[0][p], seq(|data| - 1, f requires 0 <= f < |data| - 1 => data[f + 1][p]))
  }

  function RowsOf(data: seq<seq<int>>, n: nat): (rows: seq<Row>)
    requires Columns(data, n)
    ensures |rows| == n
  {
    seq(n, p requires 0 <= p < n => RowAt(data, n, p))
  }

  /** Field `f` of a row, and 0 past its last field. */
  function FieldOf(f: nat): Row -> int
  {
    (row: Row) => if f == 0 then row.key else if f - 1 < |row.payload| then row.payload[f - 1] else 0
  }

  /** The first `width` columns of a table held row by row. */
  function ColumnsOf(rows: seq<Row>, width: nat): (data: seq<seq<int>>)
    ensures |data| == width
    ensures forall f :: 0 <= f < width ==> data[f] == Map(FieldOf(f), rows)
  {
    seq(width, f requires 0 <= f < width => Map(FieldOf(f), rows))
  }

  /** Turning columns into rows and back loses nothing. */
  lemma ColumnsOfRowsOf(data: seq<seq<int>>, n: nat)
    requires Columns(data, n)
    ensures ColumnsOf(RowsOf(data, n), |data|) == data
  {
    var back := ColumnsOf(RowsOf(data, n), |data|);
    forall f | 0 <= f < |data|
      ensures back[f] == data[f]
    {
      forall p | 0 <= p < n
        ensures back[f][p] == data[f][p]
      {
        assert back[f][p] == FieldOf(f)(RowAt(data, n, p));
      }
    }
  }

  /** The swaps `bitonic_merge(data, pl, 0, n, true, ...)` records: they depend
      on the key column alone. */
  function MergeLog(data: seq<seq<int>>, n: nat): seq<Swap>
    requires Columns(data, n)
  {
    Exec(MergeRange(0, n, true), data[0]).log
  }

  /** The columns `bitonic_merge` leaves, the rows being swapped whole. */
  function Merged(data: seq<seq<int>>, n: nat): (merged: seq<seq<int>>)
    requires Columns(data, n)
    ensures Columns(merged, n) && |merged| == |data|
  {
    ColumnsOf(SecretRun(MergeRange(0, n, true), RowsOf(data, n), []).0, |data|)
  }

  /** Every column is reordered by the same log, the one the key column's
      comparisons record. */
  lemma MergedColumns(data: seq<seq<int>>, n: nat, f: nat)
    requires Columns(data, n) && f < |data|
    ensures Merged(data, n)[f] == Permute(MergeLog(data, n), data[f])
  {
    var rows := RowsOf(data, n);
    assert Keys(rows) == data[0];
    ColumnsOfRowsOf(data, n);
    assert Map(FieldOf(f), rows) == data[f];
    PermuteMap(MergeLog(data, n), FieldOf(f), rows);
  }

  // ---------------------------------------------------------------------------
  // join_scs: pairing neighbours

  /** `If(c, x, Integer(w, 0))`. */
  function Select(c: bool, x: int): int
  {
    if c then x else 0
  }

  /** Bitwise exclusive or of the low `w` bits of two numbers.  The join works
      on the values its 32-bit `Integer`s stand for rather than on their bits;
      `XorBitsIsXor` ties the two views together. */
  function XorBits(a: nat, b: nat, w: nat): (c: nat)
    ensures c < Pow2(w)
  {
    if w == 0 then 0 else (a + b) % 2 + 2 * XorBits(a / 2, b / 2, w - 1)
  }

  /** `XorBits` is `Bits.Xor` on the `w`-bit strings of the two numbers, read
      back as a number. */
  lemma {:induction false} XorBitsIsXor(a: nat, b: nat, w: nat)
    ensures XorBits(a, b, w) == ToNat(Xor(FromNat(w, a), FromNat(w, b)))
  {
    if w > 0 {
      var fa, fb := FromNat(w, a), FromNat(w, b);
      var x := Xor(fa, fb);
      assert fa[1..] == FromNat(w - 1, a / 2) && fb[1..] == FromNat(w - 1, b / 2);
      assert x[1..] == Xor(FromNat(w - 1, a / 2), FromNat(w - 1, b / 2));
      assert x[0] == ((a % 2 == 1) != (b % 2 == 1));
      SumParity(a, b);
      XorBitsIsXor(a / 2, b / 2, w - 1);
    }
  }

  lemma SumParity(a: nat, b: nat)
    ensures (a + b) % 2 == if (a % 2 == 1) != (b % 2 == 1) then 1 else 0
  {
  }

  /** `^` on two 32-bit integers, on the values they stand for. */
  function Xor32(a: int, b: int): nat
  {
    XorBits(a % 0x1_0000_0000, b % 0x1_0000_0000, WORD)
  }

  /** What `join_scs` emits for field `f` at the odd position `i` of the merged
      columns `d`: `cond` says the key equals its left neighbour's, `cond2` its
      right neighbour's (there is none at the last position). */
  function Record(d: seq<seq<int>>, n: nat, nc: nat, f: nat, i: nat): int
    requires Columns(d, n) && f < |d| && 1 <= i < n
  {
    var cond := d[0][i - 1] == d[0][i];
    if i < n - 1 then
      var cond2 := d[0][i] == d[0][i + 1];
      var rec := Select(cond || cond2, d[f][i]);
      if f >= nc then Xor32(Xor32(rec, Select(cond, d[f][i - 1])), Select(cond2, d[f][i + 1])) else rec
    else
      var rec := Select(cond, d[f][i]);
      if f >= nc then Xor32(rec, Select(cond, d[f][i - 1])) else rec
  }

  /** One pass of the loop over odd `i` that fills `join_result`: the record of
      every field at position `i` is pushed onto that field's column. */
  method PushRecords(out: array<seq<int>>, d: seq<seq<int>>, n: nat, nc: nat, i: nat)
    requires Columns(d, n) && 1 <= i < n && out.Length == |d|
    modifies out
    ensures forall f :: 0 <= f < |d| ==> out[f] == old(out[f]) + [Record(d, n, nc, f, i)]
  {
    var cond := d[0][i - 1] == d[0][i];
    var cond2 := false;
    if i < n - 1 {
      cond2 := d[0][i] == d[0][i + 1];
    }
    for f := 0 to |d|
      invariant forall f' :: 0 <= f' < f ==> out[f'] == old(out[f']) + [Record(d, n, nc, f', i)]
      invariant forall f' :: f <= f' < |d| ==> out[f'] == old(out[f'])
    {
      var rec := JoinedRecord(d, n, nc, f, i, cond, cond2);
      out[f] := out[f] + [rec];
    }
  }

  /** The body of the field loop: `joined_record` for field `f` at `i`. */
  method JoinedRecord(d: seq<seq<int>>, n: nat, nc: nat, f: nat, i: nat, cond: bool, cond2: bool) returns (rec: int)
    requires Columns(d, n) && f < |d| && 1 <= i < n
    requires cond == (d[0][i - 1] == d[0][i])
    requires i < n - 1 ==> cond2 == (d[0][i] == d[0][i + 1])
    ensures rec == Record(d, n, nc, f, i)
  {
    if i < n - 1 {
      rec := Select(cond || cond2, d[f][i]);
      if f >= nc {
        rec := Xor32(Xor32(rec, Select(cond, d[f][i - 1])), Select(cond2, d[f][i + 1]));
      }
    } else {
      rec := Select(cond, d[f][i]);
      if f >= nc {
        rec := Xor32(rec, Select(cond, d[f][i - 1]));
      }
    }
  }

  /** The loop over odd `i`, `join_result` starting with one empty column per
      field: column `f` gets the record of field `f` at every odd position. */
  method Pair(d: seq<seq<int>>, n: nat, nc: nat) returns (res: seq<seq<int>>)
    requires Columns(d, n)
    ensures |res| == |d|
    ensures forall f :: 0 <= f < |d| ==> |res[f]| == n / 2
    ensures forall f, k :: 0 <= f < |d| && 0 <= k < n / 2 ==> res[f][k] == Record(d, n, nc, f, 2 * k + 1)
  {
    var out := new seq<int>[|d|](_ => []);
    var i := 1;
    while i < n
      invariant 1 <= i <= n + 1 && i % 2 == 1
      invariant forall f :: 0 <= f < |d| ==> |out[f]| == i / 2
      invariant forall f, k :: 0 <= f < |d| && 0 <= k < i / 2 ==> out[f][k] == Record(d, n, nc, f, 2 * k + 1)
    {
      PushRecords(out, d, n, nc, i);
      i := i + 2;
    }
    res := out[..];
  }

  /** XOR with zero changes no value that fits the width. */
  lemma {:induction false} XorBitsZero(a: nat, w: nat)
    requires a < Pow2(w)
    ensures XorBits(a, 0, w) == a && XorBits(0, a, w) == a
    decreases w
  {
    if w > 0 {
      XorBitsZero(a / 2, w - 1);
    }
  }

  /** XOR with the zero integer changes nothing. */
  lemma Xor32Zero(a: int)
    requires 0 <= a < 0x1_0000_0000
    ensures Xor32(a, 0) == a && Xor32(0, a) == a
  {
    Pow2Word();
    XorBitsZero(a, WORD);
    DivUnique(a, 0x1_0000_0000, 0, a);
    DivUnique(0, 0x1_0000_0000, 0, 0);
    assert Xor32(a, 0) == XorBits(a, 0, WORD);
  }

  /** A key equal to exactly one neighbour's, the one at `j`: a common field is
      kept, and any other field is the two rows' values combined, which is the
      non-zero one when one of the two rows is zero there, as the padding of a
      field the row's table lacks is. */
  lemma RecordPair(d: seq<seq<int>>, n: nat, nc: nat, f: nat, i: nat, j: nat)
    requires Columns(d, n) && f < |d| && 1 <= i < n && (j == i - 1 || j == i + 1) && j < n
    requires d[0][j] == d[0][i]
    requires j == i - 1 ==> i == n - 1 || d[0][i + 1] != d[0][i]
    requires j == i + 1 ==> d[0][i - 1] != d[0][i]
    requires 0 <= d[f][i] < 0x1_0000_0000 && 0 <= d[f][j] < 0x1_0000_0000
    requires f >= nc ==> d[f][i] == 0 || d[f][j] == 0
    ensures Record(d, n, nc, f, i) == if f < nc then d[f][i] else d[f][i] + d[f][j]
  {
    Xor32Zero(d[f][i]);
    Xor32Zero(d[f][j]);
    if f >= nc {
      if d[f][i] == 0 {
        Xor32Zero(0);
      }
    }
  }

  /** A key equal to neither neighbour's gives a record of zeros. */
  lemma RecordNone(d: seq<seq<int>>, n: nat, nc: nat, f: nat, i: nat)
    requires Columns(d, n) && f < |d| && 1 <= i < n
    requires d[0][i - 1] != d[0][i] && (i < n - 1 ==> d[0][i + 1] != d[0][i])
    ensures Record(d, n, nc, f, i) == 0
  {
    Xor32Zero(0);
  }

  /** The number of values of an ascending `s` below `t`. */
  function Below(s: seq<int>, t: int): (c: nat)
    ensures c <= |s|
  {
    if s == [] then 0 else (if s[0] < t then 1 else 0) + Below(s[1..], t)
  }

  /** In an ascending sequence the values below `t` are the first `Below(s, t)`. */
  lemma {:induction false} BelowPrefix(s: seq<int>, t: int)
    requires SortedRange(s, 0, |s|, true)
    ensures forall p :: 0 <= p < |s| ==> (s[p] < t <==> p < Below(s, t))
    decreases |s|
  {
    if s != [] {
      var rest := s[1..];
      assert SortedRange(rest, 0, |rest|, true) by {
        forall p, q | 0 <= p < q < |rest|
          ensures Ordered(true, rest[p], rest[q])
        {
          assert rest[p] == s[p + 1] && rest[q] == s[q + 1];
        }
      }
      BelowPrefix(rest, t);
      if |s| > 1 {
        assert Ordered(true, s[0], s[1]);
      }
      forall p | 1 <= p < |s|
        ensures s[p] < t <==> p < Below(s, t)
      {
        assert s[p] == rest[p - 1];
      }
    }
  }

  /** Thresholding a key column that falls and then rises gives a 0-1 valley:
      ones, zeros, ones. */
  lemma KeysValley(k1: seq<int>, k2: seq<int>, key: seq<int>, t: int)
    requires SortedRange(k1, 0, |k1|, true) && SortedRange(k2, 0, |k2|, true) && key == Reverse(k1) + k2
    ensures BitonicSorted.Valley(BitonicSorted.Threshold(key, t), 0, |key|, true)
  {
    var th := BitonicSorted.Threshold(key, t);
    BelowPrefix(k1, t);
    BelowPrefix(k2, t);
    var a, b := |k1| - Below(k1, t), |k1| + Below(k2, t);
    forall p | 0 <= p < |key|
      ensures BitonicSorted.At(th, p) == if a <= p < b then BitonicSorted.Bottom(true) else 1 - BitonicSorted.Bottom(true)
    {
      if p < |k1| {
        assert key[p] == k1[|k1| - 1 - p];
      } else {
        assert key[p] == k2[p - |k1|];
      }
    }
    assert BitonicSorted.Shape(th, 0, |key|, a, b, BitonicSorted.Bottom(true));
  }

  /** The 0-1 principle for the merge: a key column whose threshold at `t` is
      a valley is merged into one whose threshold at `t` is sorted. */
  lemma MergeThreshold(key: seq<int>, t: int)
    requires BitonicSorted.Valley(BitonicSorted.Threshold(key, t), 0, |key|, true)
    ensures BitonicSorted.Sorted01(BitonicSorted.Threshold(Run(MergeNet(0, |key|, true), key), t), 0, |key|, true)
  {
    MergeNetBetween(0, |key|, true);
    BitonicSorted.MergeSortsValley(BitonicSorted.Threshold(key, t), 0, |key|, true);
    BitonicSorted.RunThreshold(MergeNet(0, |key|, true), key, t);
  }

  /** A merge sorts a key column every threshold of which is a valley: any two
      positions come out in order, by thresholding at the value left at the
      first. */
  lemma MergeSorts(key: seq<int>)
    requires forall t :: BitonicSorted.Valley(BitonicSorted.Threshold(key, t), 0, |key|, true)
    ensures SortedRange(Run(MergeNet(0, |key|, true), key), 0, |key|, true)
  {
    var r := Run(MergeNet(0, |key|, true), key);
    forall p, q | 0 <= p < q < |key|
      ensures Ordered(true, r[p], r[q])
    {
      var t := r[p];
      MergeThreshold(key, t);
      assert BitonicSorted.Sorted01(BitonicSorted.Threshold(r, t), 0, |key|, true);
      BitonicSorted.ThresholdOrdered(r, 0, |key|, true, p, q);
    }
  }

  /** The key column the merge leaves is the one its network leaves. */
  lemma MergedKey(data: seq<seq<int>>, n: nat)
    requires Columns(data, n)
    ensures Merged(data, n)[0] == Run(MergeNet(0, n, true), data[0])
  {
    MergedColumns(data, n, 0);
    ExecReplays(MergeRange(0, n, true), data[0]);
    ExecNet(MergeRange(0, n, true), data[0]);
  }

  /** Every threshold of a key column that falls and then rises is a valley. */
  lemma KeysValleys(k1: seq<int>, k2: seq<int>, key: seq<int>)
    requires SortedRange(k1, 0, |k1|, true) && SortedRange(k2, 0, |k2|, true) && key == Reverse(k1) + k2
    ensures forall t :: BitonicSorted.Valley(BitonicSorted.Threshold(key, t), 0, |key|, true)
  {
    forall t
      ensures BitonicSorted.Valley(BitonicSorted.Threshold(key, t), 0, |key|, true)
    {
      KeysValley(k1, k2, key, t);
    }
  }

  /** With both key columns ascending, as `join_scs` expects of its inputs, the
      merge leaves the key column ascending, so that equal keys are neighbours. */
  lemma MergedKeysAscending(t1: seq<seq<int>>, t2: seq<seq<int>>, nc: nat)
    requires Table(t1) && Table(t2) && 1 <= nc <= |t1| && nc <= |t2|
    requires SortedRange(t1[0], 0, |t1[0]|, true) && SortedRange(t2[0], 0, |t2[0]|, true)
    ensures var n := |t1[0]| + |t2[0]|; SortedRange(Merged(Concatenated(t1, t2, nc), n)[0], 0, n, true)
  {
    var n := |t1[0]| + |t2[0]|;
    var data := Concatenated(t1, t2, nc);
    ConcatenatedKey(t1, t2, nc);
    KeysValleys(t1[0], t2[0], data[0]);
    MergeSorts(data[0]);
    MergedKey(data, n);
  }

  /** The key column of the concatenated table is the reversed `t1` keys
      followed by the `t2` keys. */
  lemma ConcatenatedKey(t1: seq<seq<int>>, t2: seq<seq<int>>, nc: nat)
    requires Table(t1) && Table(t2) && 1 <= nc <= |t1| && nc <= |t2|
    ensures Concatenated(t1, t2, nc)[0] == Reverse(t1[0]) + t2[0]
  {
    assert Concatenated(t1, t2, nc)[0] == Column(t1, t2, nc, 0);
  }

  /** `join_scs(table1, table2, n_common_fields)`: the concatenated table is
      merged ascending on its key column, and neighbours are paired. */
  method JoinScs(t1: seq<seq<int>>, t2: seq<seq<int>>, nc: nat, party: int) returns (res: seq<seq<int>>)
    requires Table(t1) && Table(t2) && nc <= |t1| && nc <= |t2|
    ensures var n := |t1[0]| + |t2[0]|;
      var d := Merged(Concatenated(t1, t2, nc), n);
      && |res| == |t1| + |t2| - nc
      && (forall f :: 0 <= f < |res| ==> |res[f]| == n / 2)
      && forall f, k :: 0 <= f < |res| && 0 <= k < n / 2 ==> res[f][k] == Record(d, n, nc, f, 2 * k + 1)
  {
    var data := Concat(t1, t2, nc);
    var n := |data[0]|;
    assert n == |t1[0]| + |t2[0]|;
    // `Sort` holds the table row by row; swapping rows swaps every column.
    var rows := new Row[n](p requires 0 <= p < n => RowAt(data, n, p));
    assert rows[..] == RowsOf(data, n);
    var result := new Sort.CompResult();
    var pl := new int[0];
    Sort.BitonicMerge(rows, pl, 0, n, true, false, party, result);
    var merged := ColumnsOf(rows[..], |data|);
    assert merged == Merged(data, n);
    assert merged == Merged(Concatenated(t1, t2, nc), |t1[0]| + |t2[0]|) && |merged| == |t1| + |t2| - nc;
    res := Pair(merged, n, nc);
  }

  // ---------------------------------------------------------------------------
  // join_cleartext

  /** A clear table: at least one column, all as long as the key column. */
  predicate Clear(t: seq<seq<nat>>)
  {
    |t| >= 1 && Plain(t, |t|, |t[0]|)
  }

  /** Some key occurs twice. */
  predicate Repeats(keys: seq<nat>)
  {
    exists i, j :: 0 <= i < j < |keys| && keys[i] == keys[j]
  }

  /** The positions below `n` of `keys1` whose key occurs in `keys2`, in
      order. */
  function Matches(keys1: seq<nat>, keys2: seq<nat>, n: nat): (m: seq<nat>)
    requires n <= |keys1|
    ensures |m| <= n
  {
    if n == 0 then [] else Matches(keys1, keys2, n - 1) + (if keys1[n - 1] in keys2 then [n - 1] else [])
  }

  /** A position is matched iff it is below `n` and its key occurs in `keys2`. */
  lemma {:induction false} MatchesMembers(keys1: seq<nat>, keys2: seq<nat>, n: nat)
    requires n <= |keys1|
    ensures forall p: nat :: p in Matches(keys1, keys2, n) <==> p < n && keys1[p] in keys2
    decreases n
  {
    if n > 0 {
      MatchesMembers(keys1, keys2, n - 1);
    }
  }

  /** The matched positions come in increasing order: the output keeps the
      order of `t1`'s rows. */
  lemma {:induction false} MatchesIncreasing(keys1: seq<nat>, keys2: seq<nat>, n: nat)
    requires n <= |keys1|
    ensures forall a, b :: 0 <= a < b < |Matches(keys1, keys2, n)| ==> Matches(keys1, keys2, n)[a] < Matches(keys1, keys2, n)[b]
    decreases n
  {
    if n > 0 {
      var prev := Matches(keys1, keys2, n - 1);
      MatchesIncreasing(keys1, keys2, n - 1);
      MatchesMembers(keys1, keys2, n - 1);
      forall a | 0 <= a < |prev|
        ensures prev[a] < n - 1
      {
        assert prev[a] in prev;
      }
    }
  }

  /** The last position of `key` in `keys`: the one the index map keeps, and
      the only one when the keys are distinct. */
  function PositionOf(keys: seq<nat>, key: nat): (j: nat)
    requires key in keys
    ensures j < |keys| && keys[j] == key
  {
    if keys[|keys| - 1] == key then |keys| - 1 else PositionOf(keys[..|keys| - 1], key)
  }

  /** Field `f` of the output row for row `p` of `t1`: `t1`'s own fields first,
      then the fields of the `t2` row with the same key, from `nc` on. */
  function Value(t1: seq<seq<nat>>, t2: seq<seq<nat>>, nc: nat, f: nat, p: nat): nat
    requires Clear(t1) && Clear(t2) && f < |t1| + |t2| - nc && p < |t1[0]| && t1[0][p] in t2[0]
  {
    if f < |t1| then t1[f][p] else t2[f - |t1| + nc][PositionOf(t2[0], t1[0][p])]
  }

  /** Output column `f` for the rows of `t1` at positions `m`. */
  function JoinedColumn(t1: seq<seq<nat>>, t2: seq<seq<nat>>, nc: nat, f: nat, m: seq<nat>): (col: seq<nat>)
    requires Clear(t1) && Clear(t2) && f < |t1| + |t2| - nc && MatchesValid(t1[0], t2[0], m)
    ensures |col| == |m|
  {
    seq(|m|, k requires 0 <= k < |m| => Value(t1, t2, nc, f, m[k]))
  }

  /** The table `join_cleartext` returns when the keys of `t2` are distinct. */
  function ClearJoined(t1: seq<seq<nat>>, t2: seq<seq<nat>>, nc: nat): (r: seq<seq<nat>>)
    requires Clear(t1) && Clear(t2) && nc <= |t1| + |t2|
    ensures |r| == |t1| + |t2| - nc
  {
    MatchesInRange(t1[0], t2[0], |t1[0]|);
    var m := Matches(t1[0], t2[0], |t1[0]|);
    seq(|t1| + |t2| - nc, f requires 0 <= f < |t1| + |t2| - nc => JoinedColumn(t1, t2, nc, f, m))
  }

  /** What `join_cleartext` gives: the joined table, or the key whose second
      occurrence in `t2` makes `check` fail. */
  datatype ClearJoin = Joined(table: seq<seq<nat>>) | Repeated(key: nat)

  /** The index `join_cleartext` builds over the keys of `t2`: each key to its
      row, or the first key met a second time. */
  method IndexKeys(keys: seq<nat>) returns (index: map<nat, nat>, repeated: bool, key: nat)
    ensures repeated <==> Repeats(keys)
    ensures repeated ==> exists i, j :: 0 <= i < j < |keys| && keys[i] == key && keys[j] == key
    ensures !repeated ==> forall k :: k in index <==> k in keys
    ensures !repeated ==> forall k :: k in index ==> index[k] == PositionOf(keys, k)
  {
    index := map[];
    for row := 0 to |keys|
      invariant forall k :: k in index <==> k in keys[..row]
      invariant forall k :: k in index ==> index[k] < row && keys[index[k]] == k
      invariant !Repeats(keys[..row])
    {
      if keys[row] in index {
        assert 0 <= index[keys[row]] < row < |keys| && keys[index[keys[row]]] == keys[row];
        return index, true, keys[row];
      }
      RepeatsExtend(keys, row);
      index := index[keys[row] := row];
    }
    assert keys[..|keys|] == keys;
    forall k | k in index
      ensures index[k] == PositionOf(keys, k)
    {
      DistinctPosition(keys, index[k]);
    }
    return index, false, 0;
  }

  /** `join_cleartext(table1, table2, n_common_fields)`: index `t2` by key,
      failing on a repeated key, then emit a row for each row of `t1` whose key
      the index has. */
  method JoinCleartext(t1: seq<seq<nat>>, t2: seq<seq<nat>>, nc: nat) returns (r: ClearJoin)
    requires Clear(t1) && Clear(t2) && nc <= |t1| + |t2|
    ensures r.Repeated? <==> Repeats(t2[0])
    ensures r.Repeated? ==> exists i, j :: 0 <= i < j < |t2[0]| && t2[0][i] == r.key && t2[0][j] == r.key
    ensures r.Joined? ==> r.table == ClearJoined(t1, t2, nc)
  {
    var index, repeated, key := IndexKeys(t2[0]);
    if repeated {
      return Repeated(key);
    }
    var result := new seq<nat>[|t1| + |t2| - nc](_ => []);
    MatchesInRange(t1[0], t2[0], 0);
    for row := 0 to |t1[0]|
      invariant MatchesValid(t1[0], t2[0], Matches(t1[0], t2[0], row))
      invariant forall f :: 0 <= f < result.Length ==> result[f] == JoinedColumn(t1, t2, nc, f, Matches(t1[0], t2[0], row))
    {
      if t1[0][row] in index {
        PushRow(result, t1, t2, nc, row, index[t1[0][row]], Matches(t1[0], t2[0], row));
      }
      MatchesInRange(t1[0], t2[0], row + 1);
    }
    r := Joined(result[..]);
  }

  /** A key not seen before keeps a prefix free of repeats. */
  lemma RepeatsExtend(keys: seq<nat>, row: nat)
    requires row < |keys| && !Repeats(keys[..row]) && keys[row] !in keys[..row]
    ensures !Repeats(keys[..row + 1])
  {
    var s := keys[..row + 1];
    forall i, j | 0 <= i < j < |s|
      ensures s[i] != s[j]
    {
      if j < row {
        assert s[i] == keys[..row][i] && s[j] == keys[..row][j];
      } else {
        assert s[i] == keys[..row][i];
      }
    }
  }

  /** Every position of a prefix's matches is a row of `keys1` whose key
      `keys2` has. */
  predicate MatchesValid(keys1: seq<nat>, keys2: seq<nat>, m: seq<nat>)
  {
    forall k :: 0 <= k < |m| ==> m[k] < |keys1| && keys1[m[k]] in keys2
  }

  lemma MatchesInRange(keys1: seq<nat>, keys2: seq<nat>, row: nat)
    requires row <= |keys1|
    ensures MatchesValid(keys1, keys2, Matches(keys1, keys2, row))
  {
    var m := Matches(keys1, keys2, row);
    MatchesMembers(keys1, keys2, row);
    forall k | 0 <= k < |m|
      ensures m[k] < |keys1| && keys1[m[k]] in keys2
    {
      assert m[k] in m;
    }
  }

  /** With distinct keys, a position holding a key is the position of that key. */
  lemma DistinctPosition(keys: seq<nat>, j: nat)
    requires !Repeats(keys) && j < |keys|
    ensures PositionOf(keys, keys[j]) == j
  {
  }

  /** The field loop for a matching row: every output column gets the row's
      value of that field. */
  method PushRow(result: array<seq<nat>>, t1: seq<seq<nat>>, t2: seq<seq<nat>>, nc: nat, row: nat, row2: nat,
                 ghost m: seq<nat>)
    requires Clear(t1) && Clear(t2) && nc <= |t1| + |t2| && result.Length == |t1| + |t2| - nc
    requires row < |t1[0]| && row2 < |t2[0]| && t2[0][row2] == t1[0][row] && PositionOf(t2[0], t1[0][row]) == row2
    requires MatchesValid(t1[0], t2[0], m)
    requires forall f :: 0 <= f < result.Length ==> result[f] == JoinedColumn(t1, t2, nc, f, m)
    modifies result
    ensures forall f :: 0 <= f < result.Length ==> result[f] == JoinedColumn(t1, t2, nc, f, m + [row])
  {
    for f := 0 to result.Length
      invariant forall f' :: 0 <= f' < f ==> result[f'] == JoinedColumn(t1, t2, nc, f', m + [row])
      invariant forall f' :: f <= f' < result.Length ==> result[f'] == JoinedColumn(t1, t2, nc, f', m)
    {
      if f < |t1| {
        result[f] := result[f] + [t1[f][row]];
      } else {
        result[f] := result[f] + [t2[f - |t1| + nc][row2]];
      }
      assert result[f] == JoinedColumn(t1, t2, nc, f, m + [row]);
    }
  }

  // ---------------------------------------------------------------------------
  // check_eq

  /** A difference `check_eq` reports. */
  datatype Mismatch =
    | ColumnCount(n1: nat, n2: nat)
    | FieldSize(field: nat, n1: nat, n2: nat)
    | Entry(field: nat, row: nat, v1: nat, v2: nat)

  datatype Verdict = Equal | Differ(mismatch: Mismatch)

  /** `m` is the first difference met scanning the column counts, then column
      after column its length and its entries from the first row on. */
  predicate FirstDifference(t1: seq<seq<nat>>, t2: seq<seq<nat>>, m: Mismatch)
  {
    match m
    case ColumnCount(n1, n2) => n1 == |t1| && n2 == |t2| && n1 != n2
    case FieldSize(f, n1, n2) =>
      && |t1| == |t2| && f < |t1| && t1[..f] == t2[..f]
      && n1 == |t1[f]| && n2 == |t2[f]| && n1 != n2
    case Entry(f, r, v1, v2) =>
      && |t1| == |t2| && f < |t1| && t1[..f] == t2[..f]
      && |t1[f]| == |t2[f]| && r < |t1[f]| && t1[f][..r] == t2[f][..r]
      && v1 == t1[f][r] && v2 == t2[f][r] && v1 != v2
  }

  /** `check_eq(table1, table2)`: passes iff the tables are equal, and
      otherwise stops at the first difference. */
  method CheckEq(t1: seq<seq<nat>>, t2: seq<seq<nat>>) returns (v: Verdict)
    ensures v == Equal <==> t1 == t2
    ensures v.Differ? ==> FirstDifference(t1, t2, v.mismatch)
  {
    if |t1| != |t2| {
      return Differ(ColumnCount(|t1|, |t2|));
    }
    for f := 0 to |t1|
      invariant t1[..f] == t2[..f]
    {
      if |t1[f]| != |t2[f]| {
        return Differ(FieldSize(f, |t1[f]|, |t2[f]|));
      }
      for r := 0 to |t1[f]|
        invariant t1[f][..r] == t2[f][..r]
      {
        if t1[f][r] != t2[f][r] {
          return Differ(Entry(f, r, t1[f][r], t2[f][r]));
        }
        assert t1[f][..r + 1] == t1[f][..r] + [t1[f][r]];
        assert t2[f][..r + 1] == t2[f][..r] + [t2[f][r]];
      }
      assert t1[f] == t1[f][..|t1[f]|] && t2[f] == t2[f][..|t2[f]|];
      assert t1[..f + 1] == t1[..f] + [t1[f]];
      assert t2[..f + 1] == t2[..f] + [t2[f]];
    }
    assert t1 == t1[..|t1|] && t2 == t2[..|t2|];
    v := Equal;
  }
}
