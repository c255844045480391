/** Text forms of numbers used by the serialisers: the binary string
    `std::bitset<w>(v).to_string()` prints (most significant bit first), the
    bitset a `'0'`/`'1'` string denotes (rightmost character is bit 0), and the
    decimal text `fmt::format("{}", n)` prints. */
module Text {
  import opened Bits

  /** `std::bitset<w>(v).to_string()`: the low `w` bits of `v`, most
      significant first. */
  function BinaryString(v: nat, w: nat): (s: string)
    ensures |s| == w
  {
    if w == 0 then "" else BinaryString(v / 2, w - 1) + [if v % 2 == 1 then '1' else '0']
  }

  /** The printout consists of `'0'` and `'1'` characters only. */
  lemma {:induction false} BinaryStringIsBinary(v: nat, w: nat)
    ensures IsBinary(BinaryString(v, w))
    decreases w
  {
    if w > 0 {
      BinaryStringIsBinary(v / 2, w - 1);
      var s := BinaryString(v, w);
      assert s[..w - 1] == BinaryString(v / 2, w - 1);
      assert forall k :: 0 <= k < w - 1 ==> s[k] == s[..w - 1][k];
    }
  }

  /** A string of `'0'` and `'1'` characters. */
  predicate IsBinary(s: string)
  {
    forall k :: 0 <= k < |s| ==> s[k] == '0' || s[k] == '1'
  }

  /** The bits a binary string denotes, least significant first: its rightmost
      character is bit 0, as in `std::bitset`'s string constructor. */
  function BitsetOf(s: string): (bs: BitString)
    ensures |bs| == |s|
    ensures forall k :: 0 <= k < |s| ==> (bs[k] <==> s[|s| - 1 - k] == '1')
  {
    if s == "" then [] else [s[|s| - 1] == '1'] + BitsetOf(s[..|s| - 1])
  }

  /** Printing `v` in binary and reading the string back as a bitset gives the
      low `w` bits of `v`. */
  lemma {:induction false} BitsetOfBinary(v: nat, w: nat)
    ensures BitsetOf(BinaryString(v, w)) == FromNat(w, v)
    ensures ToNat(BitsetOf(BinaryString(v, w))) == v % Pow2(w)
    decreases w
  {
    if w > 0 {
      var s := BinaryString(v, w);
      assert s[..w - 1] == BinaryString(v / 2, w - 1);
      BitsetOfBinary(v / 2, w - 1);
    }
    ToNatFromNat(w, v);
  }

  /** The other way round: a binary string is the printout of the value it
      denotes. */
  lemma {:induction false} BinaryOfBitset(s: string)
    requires IsBinary(s)
    ensures BinaryString(ToNat(BitsetOf(s)), |s|) == s
    decreases |s|
  {
    if s != "" {
      var init := s[..|s| - 1];
      var bs := BitsetOf(s);
      assert bs[1..] == BitsetOf(init);
      BinaryOfBitset(init);
      var v := ToNat(bs);
      assert v % 2 == 1 <==> s[|s| - 1] == '1';
      assert v / 2 == ToNat(BitsetOf(init));
      assert s == init + [s[|s| - 1]];
    }
  }

  /** The number of occurrences of `ch`: `std::count(s.begin(), s.end(), ch)`. */
  function CountChar(s: string, ch: char): (n: nat)
    ensures n <= |s|
  {
    if s == "" then 0 else CountChar(s[..|s| - 1], ch) + (if s[|s| - 1] == ch then 1 else 0)
  }

  /** The number of `'1'` characters. */
  function CountOnes(s: string): (n: nat)
  {
    CountChar(s, '1')
  }

  /** A binary printout has as many `'1'` characters as the value has set
      bits among its low `w`. */
  lemma {:induction false} CountOnesBinary(v: nat, w: nat)
    ensures CountOnes(BinaryString(v, w)) == Ones(FromNat(w, v))
    decreases w
  {
    if w > 0 {
      var s := BinaryString(v, w);
      assert s[..w - 1] == BinaryString(v / 2, w - 1);
      CountOnesBinary(v / 2, w - 1);
      assert FromNat(w, v)[1..] == FromNat(w - 1, v / 2);
    }
  }

  /** Occurrences in a concatenation add up. */
  lemma {:induction false} CountCharAppend(a: string, b: string, ch: char)
    ensures CountChar(a + b, ch) == CountChar(a, ch) + CountChar(b, ch)
    decreases |b|
  {
    if b != "" {
      var b' := b[..|b| - 1];
      assert (a + b)[..|a + b| - 1] == a + b';
      CountCharAppend(a, b', ch);
    } else {
      assert a + b == a;
    }
  }

  function DigitChar(d: nat): (c: char)
    requires d < 10
  {
    (48 + d) as char
  }

  /** `fmt::format("{}", n)`: the decimal digits of `n`, most significant
      first. */
  function Decimal(n: nat): (s: string)
    ensures |s| >= 1
    ensures forall k :: 0 <= k < |s| ==> '0' <= s[k] <= '9'
  {
    if n < 10 then [DigitChar(n)] else Decimal(n / 10) + [DigitChar(n % 10)]
  }

  /** The number a string of decimal digits denotes. */
  function ParseDecimal(s: string): nat
    requires forall k :: 0 <= k < |s| ==> '0' <= s[k] <= '9'
  {
    if s == "" then 0 else 10 * ParseDecimal(s[..|s| - 1]) + (s[|s| - 1] as int - 48)
  }

  /** Decimal printing loses nothing. */
  lemma {:induction false} DecimalRoundTrip(n: nat)
    ensures ParseDecimal(Decimal(n)) == n
    decreases n
  {
    var s := Decimal(n);
    if n >= 10 {
      assert s[..|s| - 1] == Decimal(n / 10);
      DecimalRoundTrip(n / 10);
    } else {
      assert s[..0] == "";
    }
  }

  /** Distinct numbers print differently. */
  lemma DecimalInjective(a: nat, b: nat)
    requires Decimal(a) == Decimal(b)
    ensures a == b
  {
    DecimalRoundTrip(a);
    DecimalRoundTrip(b);
  }
}
