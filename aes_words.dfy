/** The byte and word helpers of `aes.cpp`, which work on 8- and 32-bit
    `Integer`s: `xtime`, `word2bytes`, `bytes2word`, `RotWord` and `SubWord`,
    and the conversions between bit strings and bytes that the ECB interface
    performs.  A 32-bit `Integer` holds bit `k` of the FIPS 197 word it
    stands for at bit `k`: the key's first byte lands in its low bits, and
    `word2bytes` lists the bytes from the most significant one. */
module AesWords {
  import opened Bits
  import opened AesSBox
  import opened AesSBoxProof
  import AesSpec

  type Byte = AesSpec.Byte
  type Word = AesSpec.Word

  // ---------------------------------------------------------------------
  // Bytes and bit strings

  /** The value of an 8-bit `Integer`: bit `k` of the string is bit `k` of
      the byte. */
  function ByteOfBits(b: BitString): Byte
    requires |b| == 8
  {
    (if b[0] then 0x01 else 0) | (if b[1] then 0x02 else 0) | (if b[2] then 0x04 else 0) | (if b[3] then 0x08 else 0)
    | (if b[4] then 0x10 else 0) | (if b[5] then 0x20 else 0) | (if b[6] then 0x40 else 0) | (if b[7] then 0x80 else 0)
  }

  /** The 8-bit `Integer` holding a byte. */
  function BitsOfByte(v: Byte): (b: BitString)
    ensures |b| == 8 && ByteOfBits(b) == v
  {
    [v & 0x01 != 0, v & 0x02 != 0, v & 0x04 != 0, v & 0x08 != 0, v & 0x10 != 0, v & 0x20 != 0, v & 0x40 != 0, v & 0x80 != 0]
  }

  /** Reading the bits of a byte and writing them back gives the same bits. */
  lemma BitsOfByteOfBits(b: BitString)
    requires |b| == 8
    ensures BitsOfByte(ByteOfBits(b)) == b
  {
    var r := BitsOfByte(ByteOfBits(b));
    assert r[0] == b[0] && r[1] == b[1] && r[2] == b[2] && r[3] == b[3];
    assert r[4] == b[4] && r[5] == b[5] && r[6] == b[6] && r[7] == b[7];
  }

  /** The bytes of a bit string, byte `m` being bits `8m .. 8m + 8`. */
  function BytesOf(bits: BitString): (bytes: seq<Byte>)
    requires |bits| % 8 == 0
    ensures |bytes| == |bits| / 8
  {
    seq(|bits| / 8, m requires 0 <= m < |bits| / 8 => ByteOfBits(bits[8 * m .. 8 * m + 8]))
  }

  /** The bytes one after the other, each as eight bits. */
  function BitsOf(bytes: seq<Byte>): (bits: BitString)
    ensures |bits| == 8 * |bytes|
  {
    seq(8 * |bytes|, k requires 0 <= k < 8 * |bytes| => BitsOfByte(bytes[k / 8])[k % 8])
  }

  lemma BitsOfAt(bytes: seq<Byte>, m: nat)
    requires m < |bytes|
    ensures BitsOf(bytes)[8 * m .. 8 * m + 8] == BitsOfByte(bytes[m])
  {
    var s, t := BitsOf(bytes)[8 * m .. 8 * m + 8], BitsOfByte(bytes[m]);
    forall j | 0 <= j < 8
      ensures s[j] == t[j]
    {
      assert (8 * m + j) / 8 == m && (8 * m + j) % 8 == j;
    }
    SameBits(s, t);
  }

  lemma SameBits(s: BitString, t: BitString)
    requires |s| == |t| && forall j :: 0 <= j < |s| ==> s[j] == t[j]
    ensures s == t
  {
  }

  /** Appending a byte appends its eight bits. */
  lemma BitsOfSnoc(bytes: seq<Byte>, v: Byte)
    ensures BitsOf(bytes + [v]) == BitsOf(bytes) + BitsOfByte(v)
  {
    var n := 8 * |bytes|;
    forall k | 0 <= k < n + 8
      ensures BitsOf(bytes + [v])[k] == (BitsOf(bytes) + BitsOfByte(v))[k]
    {
      if k >= n {
        assert k / 8 == |bytes| && k % 8 == k - n;
      }
    }
  }

  /** Cutting the bits of a byte sequence back into bytes gives the bytes. */
  lemma BytesOfBitsOf(bytes: seq<Byte>)
    ensures BytesOf(BitsOf(bytes)) == bytes
  {
    forall m | 0 <= m < |bytes|
      ensures BytesOf(BitsOf(bytes))[m] == bytes[m]
    {
      BitsOfAt(bytes, m);
    }
  }

  /** Writing out the bytes of a bit string gives the bit string. */
  lemma BitsOfBytesOf(bits: BitString)
    requires |bits| % 8 == 0
    ensures BitsOf(BytesOf(bits)) == bits
  {
    forall k | 0 <= k < |bits|
      ensures BitsOf(BytesOf(bits))[k] == bits[k]
    {
      BitOfBytesOf(bits, k);
    }
  }

  lemma BitOfBytesOf(bits: BitString, k: nat)
    requires |bits| % 8 == 0 && k < |bits|
    ensures BitsOf(BytesOf(bits))[k] == bits[k]
  {
    var m, j := k / 8, k % 8;
    assert k == 8 * m + j && 8 * m + 8 <= |bits|;
    var b := bits[8 * m .. 8 * m + 8];
    assert BitsOf(BytesOf(bits))[k] == BitsOfByte(ByteOfBits(b))[j];
    ByteBit(b, j);
  }

  lemma ByteBit(b: BitString, j: nat)
    requires |b| == 8 && j < 8
    ensures BitsOfByte(ByteOfBits(b))[j] == b[j]
  {
    BitsOfByteOfBits(b);
  }

  /** The value of a 32-bit `Integer`: bit `k` of the string is bit `k` of
      the word. */
  function WordOfBits(b: BitString): Word
    requires |b| == 32
  {
    ByteOfBits(b[0..8]) as Word | (ByteOfBits(b[8..16]) as Word << 8)
    | (ByteOfBits(b[16..24]) as Word << 16) | (ByteOfBits(b[24..32]) as Word << 24)
  }

  // ---------------------------------------------------------------------
  // Multiplication by x

  /** `xtime(b)`: shift left within the byte and XOR the mask that has bits
      0, 1, 3 and 4 equal to bit 7 of `b` (that is `0x1b` or `0x00`); this is
      the product `{02} • b` of section 4.2.1 of FIPS 197. */
  function XTime(b: Byte): (r: Byte)
    ensures r == AesSpec.XTime(b)
  {
    var top := b >> 7;
    (b << 1) ^ (top | (top << 1) | (top << 3) | (top << 4))
  }

  // ---------------------------------------------------------------------
  // Words

  /** `word2bytes(w)`: byte `i` is bits `(3 - i) * 8 .. (4 - i) * 8`, so
      byte 0 is the most significant one. */
  function Word2Bytes(w: Word): (bytes: seq<Byte>)
    ensures |bytes| == 4
  {
    [((w >> 24) & 0xff) as Byte, ((w >> 16) & 0xff) as Byte, ((w >> 8) & 0xff) as Byte, (w & 0xff) as Byte]
  }

  /** `bytes2word(bytes)`: `bytes[3]` first, in the low bits. */
  function Bytes2Word(bytes: seq<Byte>): Word
    requires |bytes| == 4
  {
    bytes[3] as Word | (bytes[2] as Word << 8) | (bytes[1] as Word << 16) | (bytes[0] as Word << 24)
  }

  /** The two conversions are inverse to each other. */
  lemma WordBytesRoundTrip(w: Word)
    ensures Bytes2Word(Word2Bytes(w)) == w
  {
  }

  lemma BytesWordRoundTrip(bytes: seq<Byte>)
    requires |bytes| == 4
    ensures Word2Bytes(Bytes2Word(bytes)) == bytes
  {
    BytesWord(bytes[0], bytes[1], bytes[2], bytes[3]);
    assert bytes == [bytes[0], bytes[1], bytes[2], bytes[3]];
  }

  lemma BytesWord(b0: Byte, b1: Byte, b2: Byte, b3: Byte)
    ensures Word2Bytes(Bytes2Word([b0, b1, b2, b3])) == [b0, b1, b2, b3]
  {
  }

  /** `word2bytes` lists the FIPS 197 bytes of a word last to first. */
  lemma Word2BytesFips(w: Word)
    ensures Word2Bytes(w)
      == [AesSpec.WordByte(w, 3), AesSpec.WordByte(w, 2), AesSpec.WordByte(w, 1), AesSpec.WordByte(w, 0)]
  {
  }

  /** `bytes2word` of the bytes last to first packs the FIPS 197 word. */
  lemma Bytes2WordFips(a0: Byte, a1: Byte, a2: Byte, a3: Byte)
    ensures Bytes2Word([a3, a2, a1, a0]) == AesSpec.MakeWord(a0, a1, a2, a3)
  {
  }

  /** `RotWord(a)`: bytes `[b0, b1, b2, b3]` become `[b3, b0, b1, b2]`, which
      is the FIPS 197 rotation of the word. */
  function RotWord(a: Word): (r: Word)
    ensures Word2Bytes(r) == [Word2Bytes(a)[3], Word2Bytes(a)[0], Word2Bytes(a)[1], Word2Bytes(a)[2]]
    ensures r == AesSpec.RotWord(a)
  {
    var b := Word2Bytes(a);
    BytesWord(b[3], b[0], b[1], b[2]);
    Bytes2Word([b[3], b[0], b[1], b[2]])
  }

  /** Four rotations give the word back. */
  lemma RotWordFour(a: Word)
    ensures RotWord(RotWord(RotWord(RotWord(a)))) == a
  {
    var b := Word2Bytes(a);
    var r := RotWord(RotWord(RotWord(RotWord(a))));
    assert Word2Bytes(r) == b;
    WordBytesRoundTrip(r);
    WordBytesRoundTrip(a);
  }

  /** `SubWord(a)`: the S-box circuit on each byte, which is the FIPS 197
      `SubWord`. */
  function SubWord(a: Word): (r: Word)
    ensures var b := Word2Bytes(a);
      Word2Bytes(r) == [AesSpec.SubByte(b[0]), AesSpec.SubByte(b[1]), AesSpec.SubByte(b[2]), AesSpec.SubByte(b[3])]
    ensures r == AesSpec.SubWord(a)
  {
    var b := Word2Bytes(a);
    var s := [SBoxCircuit(b[0]), SBoxCircuit(b[1]), SBoxCircuit(b[2]), SBoxCircuit(b[3])];
    SBoxAgrees(b[0]);
    SBoxAgrees(b[1]);
    SBoxAgrees(b[2]);
    SBoxAgrees(b[3]);
    BytesWord(s[0], s[1], s[2], s[3]);
    Word2BytesFips(a);
    Bytes2WordFips(s[3], s[2], s[1], s[0]);
    Bytes2Word(s)
  }

  /** The zero-extended round-constant byte is the FIPS 197 word `Rcon[n]`. */
  lemma RconWord(n: nat)
    requires n >= 1
    ensures AesSpec.XPow(n - 1) as Word == AesSpec.Rcon(n)
  {
  }

  /** The four key bytes `key[4i .. 4i + 4]` read as one 32-bit `Integer`
      are the FIPS 197 key word `i`. */
  lemma KeyWord(bits: BitString, i: nat)
    requires |bits| == 128 && i < 4
    ensures var key := BytesOf(bits);
      WordOfBits(bits[32 * i .. 32 * i + 32])
      == AesSpec.MakeWord(key[4 * i], key[4 * i + 1], key[4 * i + 2], key[4 * i + 3])
  {
    var b := bits[32 * i .. 32 * i + 32];
    var key := BytesOf(bits);
    KeyByte(bits, i, 0);
    KeyByte(bits, i, 1);
    KeyByte(bits, i, 2);
    KeyByte(bits, i, 3);
    assert b[0..8] == bits[32 * i .. 32 * i + 32][0..8];
    assert b[8..16] == bits[32 * i .. 32 * i + 32][8..16];
    assert b[16..24] == bits[32 * i .. 32 * i + 32][16..24];
    assert b[24..32] == bits[32 * i .. 32 * i + 32][24..32];
    WordOfByteBits(b, key[4 * i], key[4 * i + 1], key[4 * i + 2], key[4 * i + 3]);
  }

  /** Key byte `4i + k` is the `k`-th eight bits of key word `i`. */
  lemma KeyByte(bits: BitString, i: nat, k: nat)
    requires |bits| == 128 && i < 4 && k < 4
    ensures ByteOfBits(bits[32 * i .. 32 * i + 32][8 * k .. 8 * k + 8]) == BytesOf(bits)[4 * i + k]
  {
    var o := 32 * i + 8 * k;
    assert 8 * (4 * i + k) == o;
    var y := bits[32 * i .. 32 * i + 32];
    var x := y[8 * k .. 8 * k + 8];
    forall m | 0 <= m < 8
      ensures x[m] == bits[o + m]
    {
      assert x[m] == y[8 * k + m];
      assert y[8 * k + m] == bits[32 * i + (8 * k + m)];
    }
    assert x == bits[o .. o + 8];
  }

  /** A 32-bit `Integer` whose four 8-bit pieces are `a0 .. a3`, low first, is
      the word of those bytes. */
  lemma WordOfByteBits(b: BitString, a0: Byte, a1: Byte, a2: Byte, a3: Byte)
    requires |b| == 32
    requires ByteOfBits(b[0..8]) == a0 && ByteOfBits(b[8..16]) == a1
    requires ByteOfBits(b[16..24]) == a2 && ByteOfBits(b[24..32]) == a3
    ensures WordOfBits(b) == AesSpec.MakeWord(a0, a1, a2, a3)
  {
  }
}
