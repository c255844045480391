/** The one-hot encoder of test/test_dpf_cmp.cpp: a pool holding the
    `bitlength`-bit encodings of `0 .. size-1`, and a `size`-bit word whose bit
    `j` says whether the index equals pool entry `j`.  A secret `Integer` is the
    bit string it shares; `Integer` equality compares bit strings of one width. */
module DpfCmp {
  import opened Bits

  /** `get_pool(size)`: entry `i` is `Integer(bitlength, i)`, the low
      `bitlength` bits of `i`. */
  method GetPool(size: nat, bitlength: nat) returns (pool: array<BitString>)
    ensures fresh(pool) && pool.Length == size
    ensures forall i :: 0 <= i < size ==> pool[i] == FromNat(bitlength, i)
  {
    pool := new BitString[size];
    for i := 0 to size
      invariant forall i' :: 0 <= i' < i ==> pool[i'] == FromNat(bitlength, i')
    {
      pool[i] := FromNat(bitlength, i);
    }
  }

  /** A pool entry holds its own position as long as positions fit in
      `bitlength` bits: `get_pool(size)[i] == i`. */
  lemma PoolValue(size: nat, bitlength: nat, i: nat)
    requires size <= Pow2(bitlength) && i < size
    ensures ToNat(FromNat(bitlength, i)) == i
  {
    ToNatFromNat(bitlength, i);
    DivUnique(i, Pow2(bitlength), 0, i);
  }

  /** `one_hot(idx, pool, size)`: a `size`-bit word, bit `j` set iff `idx`
      equals `pool[j]`. */
  method OneHot(idx: BitString, pool: array<BitString>, size: nat) returns (ret: BitString)
    requires size <= pool.Length
    ensures |ret| == size
    ensures forall j :: 0 <= j < size ==> (ret[j] <==> idx == pool[j])
  {
    var bits := new bool[size](_ => false);
    for i := 0 to size
      invariant forall j :: 0 <= j < i ==> (bits[j] <==> idx == pool[j])
    {
      bits[i] := idx == pool[i];
    }
    ret := bits[..];
  }

  /** `ret` marks exactly position `v`: bit `j` is set iff `j == v`. */
  predicate Marks(ret: BitString, v: nat)
  {
    forall j :: 0 <= j < |ret| ==> (ret[j] <==> j == v)
  }

  /** Against the standard pool, bit `j` of the one-hot word is set iff the
      index has value `j`. */
  lemma OneHotOfPool(idx: BitString, pool: seq<BitString>, ret: BitString, bitlength: nat)
    requires |idx| == bitlength && |ret| <= |pool| && |ret| <= Pow2(bitlength)
    requires forall i :: 0 <= i < |ret| ==> pool[i] == FromNat(bitlength, i)
    requires forall j :: 0 <= j < |ret| ==> (ret[j] <==> idx == pool[j])
    ensures Marks(ret, ToNat(idx))
  {
    forall j | 0 <= j < |ret|
      ensures ret[j] <==> j == ToNat(idx)
    {
      FromNatToNat(idx);
      PoolValue(|ret|, bitlength, j);
    }
  }

  /** An index below `size` sets exactly one bit; a larger one sets none. */
  lemma {:induction false} MarksOnes(ret: BitString, v: nat)
    requires Marks(ret, v)
    ensures Ones(ret) == if v < |ret| then 1 else 0
    decreases |ret|
  {
    if ret != [] {
      var rest := ret[1..];
      if v == 0 {
        assert forall j :: 0 <= j < |rest| ==> !rest[j];
        NoOnes(rest);
      } else {
        assert Marks(rest, v - 1);
        MarksOnes(rest, v - 1);
      }
    }
  }

  lemma {:induction false} NoOnes(bs: BitString)
    requires forall j :: 0 <= j < |bs| ==> !bs[j]
    ensures Ones(bs) == 0
    decreases |bs|
  {
    if bs != [] {
      NoOnes(bs[1..]);
    }
  }
}
