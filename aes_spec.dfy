/** AES-128 as FIPS 197 defines it, on byte values: the reference the
    circuit in `aes.cpp` is proved against.  A state is four rows of four
    bytes, `s[r][c]`.  A word `[a0, a1, a2, a3]` is packed into 32 bits with
    `a0` in the least significant byte: FIPS 197 treats words as arrays of
    bytes, and this packing is the one of the circuit's 32-bit integers. */
module AesSpec {
  type Byte = bv8
  type Word = bv32

  /** `Nr`: rounds of AES-128 (section 5 of FIPS 197). */
  const ROUNDS: nat := 10
  /** Words of the expanded key: `Nb * (Nr + 1)`. */
  const KEY_WORDS: nat := 44

  // ---------------------------------------------------------------------
  // The field GF(2^8) (section 4 of FIPS 197)

  /** `xtime(b)`: multiplication by `x`, a left shift followed, when bit 7
      of `b` was set, by the reduction with `{1b}` (section 4.2.1); the
      bit shifted out selects the reduction by multiplying it. */
  function XTime(b: Byte): Byte
  {
    (b << 1) ^ ((b >> 7) * 0x1b)
  }

  /** The sum of `x^i • b` over the set bits `i < n` of `a`, the powers of
      `x` obtained by repeated `xtime` (section 4.2.1). */
  function MulBits(a: Byte, b: Byte, n: nat): Byte
    decreases n
  {
    if n == 0 then 0 else (if a & 1 == 1 then b else 0) ^ MulBits(a >> 1, XTime(b), n - 1)
  }

  /** The product `a • b` of section 4.2. */
  function Mul(a: Byte, b: Byte): Byte
  {
    MulBits(a, b, 8)
  }

  /** No set bits, no terms. */
  lemma {:induction false} MulBitsZero(b: Byte, n: nat)
    ensures MulBits(0, b, n) == 0
    decreases n
  {
    if n > 0 {
      MulBitsZero(XTime(b), n - 1);
    }
  }

  /** One step of the sum: bit 0 of `a`, then the rest with `b` times `x`. */
  lemma MulBitsStep(a: Byte, b: Byte, n: nat)
    requires n > 0
    ensures MulBits(a, b, n) == (if a & 1 == 1 then b else 0) ^ MulBits(a >> 1, XTime(b), n - 1)
  {
  }

  /** `{02} • b` is `xtime(b)`. */
  lemma MulTwo(b: Byte)
    ensures Mul(0x02, b) == XTime(b)
  {
    MulBitsStep(0x02, b, 8);
    MulBitsStep(0x01, XTime(b), 7);
    MulBitsZero(XTime(XTime(b)), 6);
  }

  /** `{03} • b` is `xtime(b) ^ b`. */
  lemma MulThree(b: Byte)
    ensures Mul(0x03, b) == XTime(b) ^ b
  {
    MulBitsStep(0x03, b, 8);
    MulBitsStep(0x01, XTime(b), 7);
    MulBitsZero(XTime(XTime(b)), 6);
  }

  /** `x^k` in the field, the first byte of `Rcon[k + 1]`. */
  function XPow(k: nat): Byte
  {
    if k == 0 then 1 else Mul(0x02, XPow(k - 1))
  }

  // ---------------------------------------------------------------------
  // The S-box (section 5.1.1, Figure 7)

  /** Entry `(x, y)` of the S-box table: the substitution of the byte with
      high nibble `x` and low nibble `y`. */
  function SBoxCell(x: Byte, y: Byte): Byte
  {
    match x
    case 0x0 =>
      (match y
      case 0x0 => 0x63
      case 0x1 => 0x7c
      case 0x2 => 0x77
      case 0x3 => 0x7b
      case 0x4 => 0xf2
      case 0x5 => 0x6b
      case 0x6 => 0x6f
      case 0x7 => 0xc5
      case 0x8 => 0x30
      case 0x9 => 0x01
      case 0xa => 0x67
      case 0xb => 0x2b
      case 0xc => 0xfe
      case 0xd => 0xd7
      case 0xe => 0xab
      case _ => 0x76)
    case 0x1 =>
      (match y
      case 0x0 => 0xca
      case 0x1 => 0x82
      case 0x2 => 0xc9
      case 0x3 => 0x7d
      case 0x4 => 0xfa
      case 0x5 => 0x59
      case 0x6 => 0x47
      case 0x7 => 0xf0
      case 0x8 => 0xad
      case 0x9 => 0xd4
      case 0xa => 0xa2
      case 0xb => 0xaf
      case 0xc => 0x9c
      case 0xd => 0xa4
      case 0xe => 0x72
      case _ => 0xc0)
    case 0x2 =>
      (match y
      case 0x0 => 0xb7
      case 0x1 => 0xfd
      case 0x2 => 0x93
      case 0x3 => 0x26
      case 0x4 => 0x36
      case 0x5 => 0x3f
      case 0x6 => 0xf7
      case 0x7 => 0xcc
      case 0x8 => 0x34
      case 0x9 => 0xa5
      case 0xa => 0xe5
      case 0xb => 0xf1
      case 0xc => 0x71
      case 0xd => 0xd8
      case 0xe => 0x31
      case _ => 0x15)
    case 0x3 =>
      (match y
      case 0x0 => 0x04
      case 0x1 => 0xc7
      case 0x2 => 0x23
      case 0x3 => 0xc3
      case 0x4 => 0x18
      case 0x5 => 0x96
      case 0x6 => 0x05
      case 0x7 => 0x9a
      case 0x8 => 0x07
      case 0x9 => 0x12
      case 0xa => 0x80
      case 0xb => 0xe2
      case 0xc => 0xeb
      case 0xd => 0x27
      case 0xe => 0xb2
      case _ => 0x75)
    case 0x4 =>
      (match y
      case 0x0 => 0x09
      case 0x1 => 0x83
      case 0x2 => 0x2c
      case 0x3 => 0x1a
      case 0x4 => 0x1b
      case 0x5 => 0x6e
      case 0x6 => 0x5a
      case 0x7 => 0xa0
      case 0x8 => 0x52
      case 0x9 => 0x3b
      case 0xa => 0xd6
      case 0xb => 0xb3
      case 0xc => 0x29
      case 0xd => 0xe3
      case 0xe => 0x2f
      case _ => 0x84)
    case 0x5 =>
      (match y
      case 0x0 => 0x53
      case 0x1 => 0xd1
      case 0x2 => 0x00
      case 0x3 => 0xed
      case 0x4 => 0x20
      case 0x5 => 0xfc
      case 0x6 => 0xb1
      case 0x7 => 0x5b
      case 0x8 => 0x6a
      case 0x9 => 0xcb
      case 0xa => 0xbe
      case 0xb => 0x39
      case 0xc => 0x4a
      case 0xd => 0x4c
      case 0xe => 0x58
      case _ => 0xcf)
    case 0x6 =>
      (match y
      case 0x0 => 0xd0
      case 0x1 => 0xef
      case 0x2 => 0xaa
      case 0x3 => 0xfb
      case 0x4 => 0x43
      case 0x5 => 0x4d
      case 0x6 => 0x33
      case 0x7 => 0x85
      case 0x8 => 0x45
      case 0x9 => 0xf9
      case 0xa => 0x02
      case 0xb => 0x7f
      case 0xc => 0x50
      case 0xd => 0x3c
      case 0xe => 0x9f
      case _ => 0xa8)
    case 0x7 =>
      (match y
      case 0x0 => 0x51
      case 0x1 => 0xa3
      case 0x2 => 0x40
      case 0x3 => 0x8f
      case 0x4 => 0x92
      case 0x5 => 0x9d
      case 0x6 => 0x38
      case 0x7 => 0xf5
      case 0x8 => 0xbc
      case 0x9 => 0xb6
      case 0xa => 0xda
      case 0xb => 0x21
      case 0xc => 0x10
      case 0xd => 0xff
      case 0xe => 0xf3
      case _ => 0xd2)
    case 0x8 =>
      (match y
      case 0x0 => 0xcd
      case 0x1 => 0x0c
      case 0x2 => 0x13
      case 0x3 => 0xec
      case 0x4 => 0x5f
      case 0x5 => 0x97
      case 0x6 => 0x44
      case 0x7 => 0x17
      case 0x8 => 0xc4
      case 0x9 => 0xa7
      case 0xa => 0x7e
      case 0xb => 0x3d
      case 0xc => 0x64
      case 0xd => 0x5d
      case 0xe => 0x19
      case _ => 0x73)
    case 0x9 =>
      (match y
      case 0x0 => 0x60
      case 0x1 => 0x81
      case 0x2 => 0x4f
      case 0x3 => 0xdc
      case 0x4 => 0x22
      case 0x5 => 0x2a
      case 0x6 => 0x90
      case 0x7 => 0x88
      case 0x8 => 0x46
      case 0x9 => 0xee
      case 0xa => 0xb8
      case 0xb => 0x14
      case 0xc => 0xde
      case 0xd => 0x5e
      case 0xe => 0x0b
      case _ => 0xdb)
    case 0xa =>
      (match y
      case 0x0 => 0xe0
      case 0x1 => 0x32
      case 0x2 => 0x3a
      case 0x3 => 0x0a
      case 0x4 => 0x49
      case 0x5 => 0x06
      case 0x6 => 0x24
      case 0x7 => 0x5c
      case 0x8 => 0xc2
      case 0x9 => 0xd3
      case 0xa => 0xac
      case 0xb => 0x62
      case 0xc => 0x91
      case 0xd => 0x95
      case 0xe => 0xe4
      case _ => 0x79)
    case 0xb =>
      (match y
      case 0x0 => 0xe7
      case 0x1 => 0xc8
      case 0x2 => 0x37
      case 0x3 => 0x6d
      case 0x4 => 0x8d
      case 0x5 => 0xd5
      case 0x6 => 0x4e
      case 0x7 => 0xa9
      case 0x8 => 0x6c
      case 0x9 => 0x56
      case 0xa => 0xf4
      case 0xb => 0xea
      case 0xc => 0x65
      case 0xd => 0x7a
      case 0xe => 0xae
      case _ => 0x08)
    case 0xc =>
      (match y
      case 0x0 => 0xba
      case 0x1 => 0x78
      case 0x2 => 0x25
      case 0x3 => 0x2e
      case 0x4 => 0x1c
      case 0x5 => 0xa6
      case 0x6 => 0xb4
      case 0x7 => 0xc6
      case 0x8 => 0xe8
      case 0x9 => 0xdd
      case 0xa => 0x74
      case 0xb => 0x1f
      case 0xc => 0x4b
      case 0xd => 0xbd
      case 0xe => 0x8b
      case _ => 0x8a)
    case 0xd =>
      (match y
      case 0x0 => 0x70
      case 0x1 => 0x3e
      case 0x2 => 0xb5
      case 0x3 => 0x66
      case 0x4 => 0x48
      case 0x5 => 0x03
      case 0x6 => 0xf6
      case 0x7 => 0x0e
      case 0x8 => 0x61
      case 0x9 => 0x35
      case 0xa => 0x57
      case 0xb => 0xb9
      case 0xc => 0x86
      case 0xd => 0xc1
      case 0xe => 0x1d
      case _ => 0x9e)
    case 0xe =>
      (match y
      case 0x0 => 0xe1
      case 0x1 => 0xf8
      case 0x2 => 0x98
      case 0x3 => 0x11
      case 0x4 => 0x69
      case 0x5 => 0xd9
      case 0x6 => 0x8e
      case 0x7 => 0x94
      case 0x8 => 0x9b
      case 0x9 => 0x1e
      case 0xa => 0x87
      case 0xb => 0xe9
      case 0xc => 0xce
      case 0xd => 0x55
      case 0xe => 0x28
      case _ => 0xdf)
    case _ =>
      (match y
      case 0x0 => 0x8c
      case 0x1 => 0xa1
      case 0x2 => 0x89
      case 0x3 => 0x0d
      case 0x4 => 0xbf
      case 0x5 => 0xe6
      case 0x6 => 0x42
      case 0x7 => 0x68
      case 0x8 => 0x41
      case 0x9 => 0x99
      case 0xa => 0x2d
      case 0xb => 0x0f
      case 0xc => 0xb0
      case 0xd => 0x54
      case 0xe => 0xbb
      case _ => 0x16)
  }

  /** The S-box: `S[x][y]` for the byte `xy`. */
  function SubByte(b: Byte): Byte
  {
    SBoxCell(b >> 4, b & 0x0f)
  }

  // ---------------------------------------------------------------------
  // The state and its transformations (section 5.1)

  type Grid = seq<seq<Byte>>

  predicate IsState(s: Grid)
  {
    |s| == 4 && forall r :: 0 <= r < 4 ==> |s[r]| == 4
  }

  /** `s[r][c] = in[r + 4c]` (section 3.4). */
  function InputState(input: seq<Byte>): (s: Grid)
    requires |input| == 16
    ensures IsState(s)
  {
    seq(4, r requires 0 <= r < 4 => seq(4, c requires 0 <= c < 4 => input[r + 4 * c]))
  }

  /** `out[r + 4c] = s[r][c]` (section 3.4). */
  function OutputBytes(s: Grid): (out: seq<Byte>)
    requires IsState(s)
    ensures |out| == 16
  {
    seq(16, k requires 0 <= k < 16 => s[k % 4][k / 4])
  }

  function SubBytes(s: Grid): (t: Grid)
    requires IsState(s)
    ensures IsState(t)
  {
    seq(4, r requires 0 <= r < 4 => seq(4, c requires 0 <= c < 4 => SubByte(s[r][c])))
  }

  /** Row `r` is rotated left by `r` positions (section 5.1.2). */
  function ShiftRows(s: Grid): (t: Grid)
    requires IsState(s)
    ensures IsState(t)
  {
    seq(4, r requires 0 <= r < 4 => s[r][r..] + s[r][..r])
  }

  /** Equation (5.3): `s'[r][c] = s[r][(c + shift(r, Nb)) mod Nb]`, with
      `shift(r, 4) = r`. */
  lemma ShiftRowsCell(s: Grid, r: nat, c: nat)
    requires IsState(s) && r < 4 && c < 4
    ensures ShiftRows(s)[r][c] == s[r][(c + r) % 4]
  {
    if c + r >= 4 {
      assert ShiftRows(s)[r][c] == s[r][..r][c - (4 - r)];
    }
  }

  /** Column `c` of a state, top to bottom. */
  function Column(s: Grid, c: nat): (col: seq<Byte>)
    requires IsState(s) && c < 4
    ensures |col| == 4
  {
    [s[0][c], s[1][c], s[2][c], s[3][c]]
  }

  /** The column `a0, a1, a2, a3` (top to bottom) multiplied by
      `{03}x^3 + {01}x^2 + {01}x + {02}` modulo `x^4 + 1` (section 5.1.3,
      equation 5.6). */
  function MixColumn(a0: Byte, a1: Byte, a2: Byte, a3: Byte): (m: seq<Byte>)
    ensures |m| == 4
  {
    [Mul(0x02, a0) ^ Mul(0x03, a1) ^ a2 ^ a3,
     Mul(0x02, a1) ^ Mul(0x03, a2) ^ a3 ^ a0,
     Mul(0x02, a2) ^ Mul(0x03, a3) ^ a0 ^ a1,
     Mul(0x02, a3) ^ Mul(0x03, a0) ^ a1 ^ a2]
  }

  /** Every column multiplied (section 5.1.3). */
  function MixColumns(s: Grid): (t: Grid)
    requires IsState(s)
    ensures IsState(t)
  {
    seq(4, r requires 0 <= r < 4 => seq(4, c requires 0 <= c < 4 =>
      MixColumn(s[0][c], s[1][c], s[2][c], s[3][c])[r]))
  }

  /** Byte `r` of a word, byte 0 being the least significant. */
  function WordByte(w: Word, r: nat): Byte
    requires r < 4
  {
    var v := if r == 0 then w else if r == 1 then w >> 8 else if r == 2 then w >> 16 else w >> 24;
    (v & 0xff) as Byte
  }

  /** Column `c` is XORed with word `w[4 * round + c]` (section 5.1.4). */
  function AddRoundKey(s: Grid, w: seq<Word>, round: nat): (t: Grid)
    requires IsState(s) && 4 * round + 4 <= |w|
    ensures IsState(t)
  {
    seq(4, r requires 0 <= r < 4 => seq(4, c requires 0 <= c < 4 => s[r][c] ^ WordByte(w[4 * round + c], r)))
  }

  /** The state after the first `n` full rounds. */
  function Rounds(s: Grid, w: seq<Word>, n: nat): (t: Grid)
    requires IsState(s) && |w| == KEY_WORDS && n < ROUNDS
    ensures IsState(t)
  {
    if n == 0 then s
    else AddRoundKey(MixColumns(ShiftRows(SubBytes(Rounds(s, w, n - 1)))), w, n)
  }

  /** `Cipher(in, out, w)` (section 5.1, Figure 5). */
  function Cipher(input: seq<Byte>, w: seq<Word>): (out: seq<Byte>)
    requires |input| == 16 && |w| == KEY_WORDS
    ensures |out| == 16
  {
    var s := Rounds(AddRoundKey(InputState(input), w, 0), w, ROUNDS - 1);
    OutputBytes(AddRoundKey(ShiftRows(SubBytes(s)), w, ROUNDS))
  }

  // ---------------------------------------------------------------------
  // Key expansion (section 5.2, Figure 11)

  /** `word(a0, a1, a2, a3)`, `a0` in the least significant byte. */
  function MakeWord(a0: Byte, a1: Byte, a2: Byte, a3: Byte): Word
  {
    a0 as Word | (a1 as Word << 8) | (a2 as Word << 16) | (a3 as Word << 24)
  }

  /** `[a0, a1, a2, a3]` to `[a1, a2, a3, a0]`. */
  function RotWord(w: Word): Word
  {
    (w >> 8) | (w << 24)
  }

  function SubWord(w: Word): Word
  {
    MakeWord(SubByte(WordByte(w, 0)), SubByte(WordByte(w, 1)), SubByte(WordByte(w, 2)), SubByte(WordByte(w, 3)))
  }

  /** `Rcon[i] = [x^(i-1), {00}, {00}, {00}]`. */
  function Rcon(i: nat): Word
    requires i >= 1
  {
    MakeWord(XPow(i - 1), 0, 0, 0)
  }

  /** `temp` for word `i >= 4` of the key schedule, from word `i - 1`. */
  function Temp(prev: Word, i: nat): Word
    requires i >= 4
  {
    if i % 4 == 0 then SubWord(RotWord(prev)) ^ Rcon(i / 4) else prev
  }

  /** The first `n` words of the key schedule of a 16-byte key. */
  function Expand(key: seq<Byte>, n: nat): (w: seq<Word>)
    requires |key| == 16 && n <= KEY_WORDS
    ensures |w| == n
  {
    if n <= 4 then seq(n, i requires 0 <= i < n => MakeWord(key[4 * i], key[4 * i + 1], key[4 * i + 2], key[4 * i + 3]))
    else
      var w := Expand(key, n - 1);
      w + [w[n - 5] ^ Temp(w[n - 2], n - 1)]
  }

  function KeyExpansion(key: seq<Byte>): (w: seq<Word>)
    requires |key| == 16
    ensures |w| == KEY_WORDS
  {
    Expand(key, KEY_WORDS)
  }

  /** AES-128 encryption of one block under a 16-byte key. */
  function Encrypt(key: seq<Byte>, input: seq<Byte>): (out: seq<Byte>)
    requires |key| == 16 && |input| == 16
    ensures |out| == 16
  {
    Cipher(input, KeyExpansion(key))
  }
}
