/** Powers of two and bit strings.  A bit string is a `seq<bool>` whose element
    `k` is bit `k` of the value it stands for (least significant bit first), as
    the garbled-circuit `Integer` and `BitArray` types store their wires. */
module Bits {

  type BitString = seq<bool>

  function Pow2(k: nat): (p: nat)
    ensures p >= 1
  {
    if k == 0 then 1 else 2 * Pow2(k - 1)
  }

  lemma {:induction false} Pow2Add(a: nat, b: nat)
    ensures Pow2(a + b) == Pow2(a) * Pow2(b)
    decreases a
  {
    if a > 0 {
      Pow2Add(a - 1, b);
    }
  }

  lemma {:induction false} Pow2Increasing(a: nat, b: nat)
    requires a < b
    ensures Pow2(a) < Pow2(b)
    decreases b
  {
    if a < b - 1 {
      Pow2Increasing(a, b - 1);
    }
  }

  /** `Pow2` is injective, and ordered like its exponent. */
  lemma Pow2Ordered(a: nat, b: nat)
    ensures Pow2(a) < Pow2(b) <==> a < b
    ensures Pow2(a) == Pow2(b) <==> a == b
  {
    if a < b { Pow2Increasing(a, b); }
    if b < a { Pow2Increasing(b, a); }
  }

  /** The value of a bit string, least significant bit first. */
  function ToNat(bs: BitString): (v: nat)
    ensures v < Pow2(|bs|)
  {
    if bs == [] then 0 else (if bs[0] then 1 else 0) + 2 * ToNat(bs[1..])
  }

  /** The low `w` bits of `v`: what an `Integer(w, v)` holds. */
  function FromNat(w: nat, v: nat): (bs: BitString)
    ensures |bs| == w
  {
    if w == 0 then [] else [v % 2 == 1] + FromNat(w - 1, v / 2)
  }

  /** Bit `k` of `v`. */
  function BitOf(v: nat, k: nat): bool
  {
    (v / Pow2(k)) % 2 == 1
  }

  /** Writing `v` in `w` bits and reading it back keeps `v` modulo `2^w`. */
  lemma {:induction false} ToNatFromNat(w: nat, v: nat)
    ensures ToNat(FromNat(w, v)) == v % Pow2(w)
    decreases w
  {
    if w > 0 {
      var bs := FromNat(w, v);
      assert bs[1..] == FromNat(w - 1, v / 2);
      ToNatFromNat(w - 1, v / 2);
      var h := Pow2(w - 1);
      var q, r := (v / 2) / h, (v / 2) % h;
      DivMod(v / 2, h);
      // v == (2 * r + v % 2) + (2 * h) * q, with the first part below 2 * h.
      MulAssoc(2, h, q);
      DivUnique(v, 2 * h, q, 2 * r + v % 2);
    }
  }

  lemma MulAssoc(a: int, b: int, c: int)
    ensures a * (b * c) == (a * b) * c
  {
  }

  lemma DivMod(v: int, d: int)
    requires d > 0
    ensures v == d * (v / d) + v % d && 0 <= v % d < d
  {
  }

  lemma MulMono(d: int, a: int, b: int)
    requires d >= 0 && a <= b
    ensures d * a <= d * b
  {
    assert d * b - d * a == d * (b - a);
  }

  /** Quotient and remainder are unique. */
  lemma DivUnique(v: int, d: int, q: int, r: int)
    requires d > 0 && 0 <= r < d && v == d * q + r
    ensures v / d == q && v % d == r
  {
    var q', r' := v / d, v % d;
    DivMod(v, d);
    if q' < q {
      MulMono(d, q' + 1, q);
    } else if q' > q {
      MulMono(d, q + 1, q');
    }
  }

  /** Reading a bit string and writing it back at its own width is the identity. */
  lemma {:induction false} FromNatToNat(bs: BitString)
    ensures FromNat(|bs|, ToNat(bs)) == bs
    decreases |bs|
  {
    if bs != [] {
      FromNatToNat(bs[1..]);
      var v := ToNat(bs);
      assert v % 2 == 1 <==> bs[0];
      assert v / 2 == ToNat(bs[1..]);
    }
  }

  /** Element `k` of `FromNat(w, v)` is bit `k` of `v`. */
  lemma {:induction false} FromNatAt(w: nat, v: nat, k: nat)
    requires k < w
    ensures FromNat(w, v)[k] == BitOf(v, k)
    decreases k
  {
    if k > 0 {
      FromNatAt(w - 1, v / 2, k - 1);
      assert FromNat(w, v)[k] == FromNat(w - 1, v / 2)[k - 1];
      assert v / Pow2(k) == (v / 2) / Pow2(k - 1) by {
        DivDiv(v, 2, Pow2(k - 1));
      }
    }
  }

  lemma DivDiv(v: nat, a: nat, b: nat)
    requires a > 0 && b > 0
    ensures v / (a * b) == (v / a) / b
  {
    var x := v / a;
    var q, r := x / b, x % b;
    DivMod(v, a);
    DivMod(x, b);
    // v == a * (b * q + r) + v % a == (a * b) * q + (a * r + v % a)
    assert a * x == a * (b * q) + a * r;
    MulAssoc(a, b, q);
    MulMono(a, r, b - 1);
    assert a * (b - 1) == a * b - a;
    DivUnique(v, a * b, q, a * r + v % a);
  }

  /** The all-false string of width `w`: `Integer(w, 0)`. */
  function Zeros(w: nat): (bs: BitString)
    ensures |bs| == w
    ensures ToNat(bs) == 0
  {
    if w == 0 then [] else [false] + Zeros(w - 1)
  }

  /** `Integer(w, 0)` holds the all-false string. */
  lemma {:induction false} FromNatZero(w: nat)
    ensures FromNat(w, 0) == Zeros(w)
    decreases w
  {
    if w > 0 {
      FromNatZero(w - 1);
    }
  }

  /** Wire-wise exclusive or of two strings of the same width. */
  function Xor(a: BitString, b: BitString): (c: BitString)
    requires |a| == |b|
    ensures |c| == |a|
    ensures forall k :: 0 <= k < |a| ==> (c[k] <==> a[k] != b[k])
  {
    seq(|a|, k requires 0 <= k < |a| => a[k] != b[k])
  }

  /** XOR sharing: a value masked by `m` and combined with `m` again is the value. */
  lemma XorUnmask(v: BitString, m: BitString)
    requires |v| == |m|
    ensures Xor(m, Xor(v, m)) == v
    ensures Xor(Xor(v, m), m) == v
  {
  }

  lemma XorZeros(a: BitString)
    ensures Xor(a, Zeros(|a|)) == a && Xor(Zeros(|a|), a) == a
  {
    var z := Zeros(|a|);
    assert forall k :: 0 <= k < |a| ==> !z[k] by {
      ZerosAt(|a|);
    }
  }

  lemma {:induction false} ZerosAt(w: nat)
    ensures forall k :: 0 <= k < w ==> !Zeros(w)[k]
    decreases w
  {
    if w > 0 {
      ZerosAt(w - 1);
      assert forall k :: 1 <= k < w ==> Zeros(w)[k] == Zeros(w - 1)[k - 1];
    }
  }

  /** `s` from back to front: the range `rbegin() .. rend()` of a vector. */
  function Reverse<T>(s: seq<T>): (r: seq<T>)
    ensures |r| == |s|
    ensures forall k :: 0 <= k < |s| ==> r[k] == s[|s| - 1 - k]
  {
    seq(|s|, k requires 0 <= k < |s| => s[|s| - 1 - k])
  }

  function Min(a: nat, b: nat): nat
  {
    if a <= b then a else b
  }

  /** The first `inBits` bits of `q`, then zeros up to `blockSize` bits: `q`
      masked with `2^inBits - 1` in a `blockSize`-bit word. */
  function Low(q: BitString, blockSize: nat, inBits: nat): (m: BitString)
    requires Min(blockSize, inBits) <= |q|
    ensures |m| == blockSize
  {
    seq(blockSize, j requires 0 <= j < blockSize => j < inBits && q[j])
  }

  /** Masking depends only on the low bits, and masking twice is masking once. */
  lemma LowPrefix(q: BitString, blockSize: nat, inBits: nat)
    requires inBits <= blockSize == |q|
    ensures Low(q[..inBits], blockSize, inBits) == Low(q, blockSize, inBits)
    ensures Low(Low(q, blockSize, inBits), blockSize, inBits) == Low(q, blockSize, inBits)
  {
  }

  /** With room for all `inBits` bits, the masked word has the value of those bits. */
  lemma {:induction false} LowValue(q: BitString, blockSize: nat, inBits: nat)
    requires inBits <= blockSize && inBits <= |q|
    ensures ToNat(Low(q, blockSize, inBits)) == ToNat(q[..inBits])
    decreases inBits
  {
    var m := Low(q, blockSize, inBits);
    if inBits == 0 {
      ZerosValue(m);
    } else {
      assert m[0] == q[0];
      assert m[1..] == Low(q[1..], blockSize - 1, inBits - 1);
      LowValue(q[1..], blockSize - 1, inBits - 1);
      assert q[1..][..inBits - 1] == q[..inBits][1..];
    }
  }

  lemma {:induction false} ZerosValue(m: BitString)
    requires forall j :: 0 <= j < |m| ==> !m[j]
    ensures ToNat(m) == 0
  {
    if m != [] {
      ZerosValue(m[1..]);
    }
  }

  /** The number of set bits. */
  function Ones(bs: BitString): (n: nat)
    ensures n <= |bs|
  {
    if bs == [] then 0 else (if bs[0] then 1 else 0) + Ones(bs[1..])
  }
}
