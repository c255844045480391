/** The FLUTE lookup-table dump of src/gen_flute_lut.cpp: a fixed statistics
    header naming the `addr` inputs and `dout` outputs, then one `LUT` line whose
    body holds a record ` ones input 0x1 dout[j]` for every set output bit of
    every table entry. */
module FluteLut {
  import opened Bits
  import opened Text
  import opened LutTypes

  // ---------------------------------------------------------------------------
  // The header

  /** ` p[k]`: signal `k` of bus `p`, as `fmt::format(" p[{}]", k)` prints it. */
  function Entry(prefix: string, k: nat): string
  {
    " " + prefix + "[" + Decimal(k) + "]"
  }

  /** ` p[0] p[1] ... p[n-1]`: `n` signal names in index order. */
  function Names(prefix: string, n: nat): string
  {
    if n == 0 then "" else Names(prefix, n - 1) + Entry(prefix, n - 1)
  }

  lemma AppendAssoc<T>(a: seq<T>, b: seq<T>, c: seq<T>)
    ensures a + b + c == a + (b + c)
  {
  }

  /** The list of `n` names begins with the list of the first `m`, so the
      names come in index order. */
  lemma {:induction false} NamesPrefix(prefix: string, m: nat, n: nat)
    requires m <= n
    ensures Names(prefix, m) <= Names(prefix, n)
    decreases n
  {
    if m < n {
      NamesPrefix(prefix, m, n - 1);
    }
  }

  /** A list of `n` names holds exactly `n` opening brackets when the prefix
      has none: one name per signal. */
  lemma {:induction false} NamesCount(prefix: string, n: nat)
    requires CountChar(prefix, '[') == 0
    ensures CountChar(Names(prefix, n), '[') == n
    decreases n
  {
    if n > 0 {
      var d := Decimal(n - 1);
      DecimalNoBracket(d);
      NamesCount(prefix, n - 1);
      CountCharAppend(Names(prefix, n - 1), Entry(prefix, n - 1), '[');
      CountCharAppend(" ", prefix, '[');
      CountCharAppend(" " + prefix, "[", '[');
      CountCharAppend(" " + prefix + "[", d, '[');
      CountCharAppend(" " + prefix + "[" + d, "]", '[');
    }
  }

  lemma {:induction false} DecimalNoBracket(d: string)
    requires forall k :: 0 <= k < |d| ==> '0' <= d[k] <= '9'
    ensures CountChar(d, '[') == 0
    decreases |d|
  {
    if d != "" {
      DecimalNoBracket(d[..|d| - 1]);
    }
  }

  const STATISTICS: string := "#STATISTICS\n#ORIGINAL LUTS: "
  const STATISTICS_TAIL: string := "\n\n#GROUPED LUTS: 1\n#DEPTH: 1\n#XOR: 0\n#NOT: 0\n#XNOR: 0\n#ASSIGN: 0\n\n"
  const INPUTS: string := "#INPUTS "
  const OUTPUTS: string := "#OUTPUTS "
  const NEWLINE: string := "\n"
  const CONSTANTS: string := "#constant zero\n0\n#constant one\n1\n#LUTs\n"

  /** The text `gen_header` returns. */
  function Header(inputBits: nat, outputBits: nat): string
  {
    STATISTICS + Decimal(inputBits) + STATISTICS_TAIL
    + INPUTS + Decimal(inputBits) + NEWLINE + Names("addr", inputBits) + NEWLINE
    + OUTPUTS + Decimal(outputBits) + NEWLINE + Names("dout", outputBits) + NEWLINE
    + CONSTANTS
  }

  /** `gen_header()`: builds the header name by name. */
  method GenHeader(inputBits: nat, outputBits: nat) returns (res: string)
    ensures res == Header(inputBits, outputBits)
  {
    res := STATISTICS + Decimal(inputBits) + STATISTICS_TAIL;
    res := res + INPUTS + Decimal(inputBits) + NEWLINE;
    ghost var before := res;
    for i := 0 to inputBits
      invariant res == before + Names("addr", i)
    {
      AppendAssoc(before, Names("addr", i), Entry("addr", i));
      res := res + Entry("addr", i);
    }
    res := res + NEWLINE;
    res := res + OUTPUTS + Decimal(outputBits) + NEWLINE;
    before := res;
    for i := 0 to outputBits
      invariant res == before + Names("dout", i)
    {
      AppendAssoc(before, Names("dout", i), Entry("dout", i));
      res := res + Entry("dout", i);
    }
    res := res + NEWLINE;
    res := res + CONSTANTS;
  }

  // ---------------------------------------------------------------------------
  // The body

  /** One body record: the number of ones in the input, the input bits, the
      constant `0x1` (`{:#x}` of 1) and the output signal. */
  datatype Record = Record(ones: nat, input: string, out: nat)

  function Render(r: Record): string
  {
    " " + Decimal(r.ones) + " " + r.input + " 0x1 dout[" + Decimal(r.out) + "]"
  }

  function RenderAll(rs: seq<Record>): string
  {
    if rs == [] then "" else RenderAll(rs[..|rs| - 1]) + Render(rs[|rs| - 1])
  }

  lemma {:induction false} RenderAppend(a: seq<Record>, b: seq<Record>)
    ensures RenderAll(a + b) == RenderAll(a) + RenderAll(b)
    decreases |b|
  {
    if b != [] {
      assert (a + b)[..|a + b| - 1] == a + b[..|b| - 1];
      RenderAppend(a, b[..|b| - 1]);
    } else {
      assert a + b == a;
    }
  }

  /** The records of one entry for its output characters `0 .. m-1`: one per
      `'1'`, naming that character's position. */
  function OutputRecords(ones: nat, input: string, output: string, m: nat): seq<Record>
    requires m <= |output|
  {
    if m == 0 then []
    else OutputRecords(ones, input, output, m - 1)
         + (if output[m - 1] == '1' then [Record(ones, input, m - 1)] else [])
  }

  /** Exactly one record per `'1'` among the first `m` output characters, in
      increasing position. */
  lemma {:induction false} OutputRecordsSpec(ones: nat, input: string, output: string, m: nat)
    requires m <= |output|
    ensures |OutputRecords(ones, input, output, m)| == CountOnes(output[..m])
    ensures forall r :: r in OutputRecords(ones, input, output, m) <==>
      r.ones == ones && r.input == input && r.out < m && output[r.out] == '1'
    ensures var rs := OutputRecords(ones, input, output, m);
      forall a, b :: 0 <= a < b < |rs| ==> rs[a].out < rs[b].out
    decreases m
  {
    if m > 0 {
      OutputRecordsSpec(ones, input, output, m - 1);
      assert output[..m][..m - 1] == output[..m - 1];
    }
  }

  /** The records of entry `i`: its input is the low `inputBits` bits of `i`,
      most significant first, and its output the low `outputBits` bits of
      `lut[i]`. */
  function ItemRecords(lut: seq<nat>, inputBits: nat, outputBits: nat, i: nat): (rs: seq<Record>)
    requires i < |lut|
    ensures |rs| == Ones(FromNat(outputBits, lut[i]))
  {
    ItemRecordsCount(lut, inputBits, outputBits, i);
    var input := BinaryString(i, inputBits);
    OutputRecords(CountOnes(input), input, BinaryString(lut[i], outputBits), outputBits)
  }

  /** The records of entries `0 .. n-1`, entry by entry. */
  function LutRecords(lut: seq<nat>, inputBits: nat, outputBits: nat, n: nat): seq<Record>
    requires n <= |lut|
  {
    if n == 0 then [] else LutRecords(lut, inputBits, outputBits, n - 1) + ItemRecords(lut, inputBits, outputBits, n - 1)
  }

  /** The number of set output bits of entries `0 .. n-1`. */
  function SetBits(lut: seq<nat>, outputBits: nat, n: nat): nat
    requires n <= |lut|
  {
    if n == 0 then 0 else SetBits(lut, outputBits, n - 1) + Ones(FromNat(outputBits, lut[n - 1]))
  }

  /** Entry `i` has one record per set bit of `lut[i]`. */
  lemma ItemRecordsCount(lut: seq<nat>, inputBits: nat, outputBits: nat, i: nat)
    requires i < |lut|
    ensures |OutputRecords(CountOnes(BinaryString(i, inputBits)), BinaryString(i, inputBits), BinaryString(lut[i], outputBits), outputBits)| == Ones(FromNat(outputBits, lut[i]))
  {
    var input := BinaryString(i, inputBits);
    var output := BinaryString(lut[i], outputBits);
    OutputRecordsSpec(CountOnes(input), input, output, outputBits);
    assert output[..outputBits] == output;
    CountOnesBinary(lut[i], outputBits);
  }

  /** What a record of entry `i` says: its `ones` is the number of set bits of
      `i`, its input denotes `i`, and the output bit it names is set in
      `lut[i]` (character `j` of the printout is bit `outputBits-1-j`). */
  lemma ItemRecordsSound(lut: seq<nat>, inputBits: nat, outputBits: nat, i: nat)
    requires i < |lut|
    ensures forall r :: r in ItemRecords(lut, inputBits, outputBits, i) ==>
      && r.ones == Ones(FromNat(inputBits, i))
      && BitsetOf(r.input) == FromNat(inputBits, i)
      && r.out < outputBits && FromNat(outputBits, lut[i])[outputBits - 1 - r.out]
  {
    var input := BinaryString(i, inputBits);
    var output := BinaryString(lut[i], outputBits);
    var rs := OutputRecords(CountOnes(input), input, output, outputBits);
    assert rs == ItemRecords(lut, inputBits, outputBits, i);
    OutputRecordsSpec(CountOnes(input), input, output, outputBits);
    CountOnesBinary(i, inputBits);
    BitsetOfBinary(i, inputBits);
    forall r | r in rs
      ensures r.out < outputBits && FromNat(outputBits, lut[i])[outputBits - 1 - r.out]
    {
      OutputBit(lut[i], outputBits, r.out);
    }
  }

  /** Every set output bit of entry `i` has its record. */
  lemma ItemRecordsComplete(lut: seq<nat>, inputBits: nat, outputBits: nat, i: nat)
    requires i < |lut|
    ensures forall j :: 0 <= j < outputBits && FromNat(outputBits, lut[i])[outputBits - 1 - j] ==>
      Record(Ones(FromNat(inputBits, i)), BinaryString(i, inputBits), j) in ItemRecords(lut, inputBits, outputBits, i)
  {
    var input := BinaryString(i, inputBits);
    var output := BinaryString(lut[i], outputBits);
    var ones := CountOnes(input);
    var rs := OutputRecords(ones, input, output, outputBits);
    assert rs == ItemRecords(lut, inputBits, outputBits, i);
    OutputRecordsSpec(ones, input, output, outputBits);
    CountOnesBinary(i, inputBits);
    forall j | 0 <= j < outputBits && FromNat(outputBits, lut[i])[outputBits - 1 - j]
      ensures Record(ones, input, j) in rs
    {
      OutputBit(lut[i], outputBits, j);
    }
  }

  /** Character `j` of a `w`-bit printout is bit `w-1-j`. */
  lemma OutputBit(v: nat, w: nat, j: nat)
    requires j < w
    ensures BinaryString(v, w)[j] == '1' <==> FromNat(w, v)[w - 1 - j]
  {
    var s := BinaryString(v, w);
    BitsetOfBinary(v, w);
    assert BitsetOf(s)[w - 1 - j] <==> s[w - 1 - (w - 1 - j)] == '1';
  }

  /** The counter `c` of `dump_lut` ends up the number of records. */
  lemma {:induction false} LutRecordsCount(lut: seq<nat>, inputBits: nat, outputBits: nat, n: nat)
    requires n <= |lut|
    ensures |LutRecords(lut, inputBits, outputBits, n)| == SetBits(lut, outputBits, n)
    decreases n
  {
    if n > 0 {
      LutRecordsCount(lut, inputBits, outputBits, n - 1);
    }
  }

  /** The text `dump_lut` returns: the header, `LUT inputs count`, the input
      names, the records, and a closing newline. */
  function DumpText(lut: seq<nat>, inputBits: nat, outputBits: nat): string
  {
    Header(inputBits, outputBits)
    + "LUT " + Decimal(inputBits) + " " + Decimal(SetBits(lut, outputBits, |lut|))
    + Names("addr", inputBits)
    + RenderAll(LutRecords(lut, inputBits, outputBits, |lut|)) + "\n"
  }

  /** The records of one entry, appended to `body` one output character at a
      time while `c` counts them. */
  method DumpItem(lut: seq<nat>, inputBits: nat, outputBits: nat, i: nat, body0: string, c0: nat)
    returns (body: string, c: nat)
    requires i < |lut|
    requires body0 == RenderAll(LutRecords(lut, inputBits, outputBits, i))
    requires c0 == |LutRecords(lut, inputBits, outputBits, i)|
    ensures body == RenderAll(LutRecords(lut, inputBits, outputBits, i + 1))
    ensures c == |LutRecords(lut, inputBits, outputBits, i + 1)|
  {
    var input := BinaryString(i, inputBits);
    var output := BinaryString(lut[i], outputBits);
    var ones := CountOnes(input);
    body, c := DumpOutputs(LutRecords(lut, inputBits, outputBits, i), ones, input, output, body0, c0);
  }

  /** The loop over the output characters of one entry: a record for each
      `'1'`, appended to the records `done` already rendered and counted. */
  method DumpOutputs(ghost done: seq<Record>, ones: nat, input: string, output: string, body0: string, c0: nat)
    returns (body: string, c: nat)
    requires body0 == RenderAll(done) && c0 == |done|
    ensures body == RenderAll(done + OutputRecords(ones, input, output, |output|))
    ensures c == |done + OutputRecords(ones, input, output, |output|)|
  {
    body, c := body0, c0;
    assert done + OutputRecords(ones, input, output, 0) == done;
    for j := 0 to |output|
      invariant body == RenderAll(done + OutputRecords(ones, input, output, j))
      invariant c == |done + OutputRecords(ones, input, output, j)|
    {
      RecordStep(done, ones, input, output, j);
      if output[j] == '1' {
        c := c + 1;
        body := body + Render(Record(ones, input, j));
      }
    }
  }

  /** One step of the inner loop of `dump_lut`: character `j` adds a record
      when it is `'1'` and nothing otherwise. */
  lemma RecordStep(done: seq<Record>, ones: nat, input: string, output: string, j: nat)
    requires j < |output|
    ensures output[j] == '1' ==>
      && RenderAll(done + OutputRecords(ones, input, output, j + 1))
         == RenderAll(done + OutputRecords(ones, input, output, j)) + Render(Record(ones, input, j))
      && |done + OutputRecords(ones, input, output, j + 1)| == |done + OutputRecords(ones, input, output, j)| + 1
    ensures output[j] != '1' ==>
      done + OutputRecords(ones, input, output, j + 1) == done + OutputRecords(ones, input, output, j)
  {
    var prev := done + OutputRecords(ones, input, output, j);
    if output[j] == '1' {
      var next := done + OutputRecords(ones, input, output, j + 1);
      assert next == prev + [Record(ones, input, j)];
      assert next[..|next| - 1] == prev;
    }
  }

  /** `dump_lut(lut)`: the caller's table has `2^input_bits` entries, each
      below `2^output_bits`. */
  method DumpLut(lut: seq<nat>, inputBits: nat, outputBits: nat) returns (text: string)
    requires |lut| == Pow2(inputBits)
    requires forall i :: 0 <= i < |lut| ==> lut[i] < Pow2(outputBits)
    ensures text == DumpText(lut, inputBits, outputBits)
  {
    var body, c := DumpRecords(lut, inputBits, outputBits);
    body := body + "\n";
    var header := GenHeader(inputBits, outputBits);
    header := header + "LUT " + Decimal(inputBits) + " " + Decimal(c);
    header := AppendNames(header, inputBits);
    text := header + body;
    AppendAssoc(header, RenderAll(LutRecords(lut, inputBits, outputBits, |lut|)), "\n");
  }

  /** The entry loop of `dump_lut`: the rendered records of every entry, and
      their number `c`, which is the number of set output bits. */
  method DumpRecords(lut: seq<nat>, inputBits: nat, outputBits: nat) returns (body: string, c: nat)
    ensures body == RenderAll(LutRecords(lut, inputBits, outputBits, |lut|))
    ensures c == SetBits(lut, outputBits, |lut|)
  {
    body, c := "", 0;
    for i := 0 to |lut|
      invariant body == RenderAll(LutRecords(lut, inputBits, outputBits, i))
      invariant c == |LutRecords(lut, inputBits, outputBits, i)|
    {
      body, c := DumpItem(lut, inputBits, outputBits, i, body, c);
    }
    LutRecordsCount(lut, inputBits, outputBits, |lut|);
  }

  /** The loop appending ` addr[i]` for each input. */
  method AppendNames(header0: string, n: nat) returns (header: string)
    ensures header == header0 + Names("addr", n)
  {
    header := header0;
    for i := 0 to n
      invariant header == header0 + Names("addr", i)
    {
      AppendAssoc(header0, Names("addr", i), Entry("addr", i));
      header := header + Entry("addr", i);
    }
  }

  // ---------------------------------------------------------------------------
  // Argument checks

  /** What `utils::check` does with a failed condition: stop with a message. */
  datatype Outcome = Pass | Fail(message: string)

  /** The checks `main` makes before generating a table, in order. */
  function CheckArgs(lutType: int, inputBits: int, outputBits: int): (r: Outcome)
    ensures r == Pass <==> IsLutType(lutType) && inputBits > 0 && outputBits > 0
    ensures !IsLutType(lutType) ==> r == Fail("Invalid LUT type")
    ensures IsLutType(lutType) && inputBits <= 0 ==> r == Fail("Invalid input bits")
    ensures IsLutType(lutType) && inputBits > 0 && outputBits <= 0 ==> r == Fail("Invalid output bits")
  {
    if !(lutType < NUM_LUT_TYPES && lutType >= 0) then Fail("Invalid LUT type")
    else if !(inputBits > 0) then Fail("Invalid input bits")
    else if !(outputBits > 0) then Fail("Invalid output bits")
    else Pass
  }
}
