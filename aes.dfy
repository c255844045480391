/** The AES-128 circuit of `aes.cpp` (class `AES`): the state and round
    transformations on a 4 x 4 array of bytes, the memoised round constants,
    the key schedule and block encryption, each proved to compute what
    FIPS 197 defines.

    The source lays the state out back to front: `state[i][j]` holds FIPS
    byte `s[3 - i][3 - j]` (`View`), a block `in[k]` is FIPS byte `15 - k`
    (`Reverse`); a source word is the FIPS word, packed with its byte 0 in
    the low bits. */
module Aes {
  import opened Bits
  import opened AesSBox
  import opened AesSBoxProof
  import opened AesWords
  import AesSpec

  // ---------------------------------------------------------------------
  // Source layouts and the FIPS 197 ones

  /** The source state `state[i][j]` as rows of bytes. */
  ghost function Grid(a: array2<Byte>): (g: AesSpec.Grid)
    requires a.Length0 == 4 && a.Length1 == 4
    reads a
    ensures AesSpec.IsState(g)
  {
    seq(4, i requires 0 <= i < 4 reads a => seq(4, j requires 0 <= j < 4 reads a => a[i, j]))
  }

  /** The column `ShiftRow` reads for column `j` when shifting by `n`: `j + n`
      in unsigned 32-bit arithmetic, modulo 4. */
  function ShiftIndex(j: nat, n: nat): (k: nat)
    ensures k < 4
  {
    (j + n) % 0x1_0000_0000 % 4
  }

  /** Shifting by `-1`, `-2` and `-3` as unsigned 32-bit numbers rotates a
      row by 3, 2 and 1 places. */
  lemma ShiftIndices(j: nat)
    requires j < 4
    ensures ShiftIndex(j, 0xFFFF_FFFF) == Rot(j, 3)
    ensures ShiftIndex(j, 0xFFFF_FFFE) == Rot(j, 2)
    ensures ShiftIndex(j, 0xFFFF_FFFD) == Rot(j, 1)
  {
    if j == 0 {
    } else if j == 1 {
    } else if j == 2 {
    } else {
    }
  }

  /** Row `row` of a source state after `ShiftRow(state, row, n)`. */
  function ShiftedRow(g: AesSpec.Grid, row: nat, n: nat): (h: AesSpec.Grid)
    requires AesSpec.IsState(g) && row < 4
    ensures AesSpec.IsState(h)
  {
    g[row := seq(4, j requires 0 <= j < 4 => g[row][ShiftIndex(j, n)])]
  }

  /** A grid that takes row `row` shifted by `n` from `g` and every other cell
      from `g` is `ShiftedRow(g, row, n)`. */
  lemma ShiftedRowOf(g: AesSpec.Grid, h: AesSpec.Grid, row: nat, n: nat)
    requires AesSpec.IsState(g) && AesSpec.IsState(h) && row < 4
    requires forall j :: 0 <= j < 4 ==> h[row][j] == g[row][ShiftIndex(j, n)]
    requires forall i, j :: 0 <= i < 4 && i != row && 0 <= j < 4 ==> h[i][j] == g[i][j]
    ensures h == ShiftedRow(g, row, n)
  {
    var s := ShiftedRow(g, row, n);
    forall i | 0 <= i < 4
      ensures h[i] == s[i]
    {
    }
  }

  /** The three calls of `ShiftRows` perform the FIPS 197 `ShiftRows` on the
      state the source state stands for. */
  lemma ShiftRowsSource(g: AesSpec.Grid)
    requires AesSpec.IsState(g)
    ensures Mirror(ShiftedRow(ShiftedRow(ShiftedRow(g, 2, 0xFFFF_FFFF), 1, 0xFFFF_FFFE), 0, 0xFFFF_FFFD))
         == AesSpec.ShiftRows(Mirror(g))
  {
    var h := ShiftedRow(ShiftedRow(ShiftedRow(g, 2, 0xFFFF_FFFF), 1, 0xFFFF_FFFE), 0, 0xFFFF_FFFD);
    var s := AesSpec.ShiftRows(Mirror(g));
    forall i, j | 0 <= i < 4 && 0 <= j < 4
      ensures h[i][j] == s[3 - i][3 - j]
    {
      ShiftedCell(g, i, j);
      ShiftIndices(j);
    }
    forall r | 0 <= r < 4
      ensures Mirror(h)[r] == s[r]
    {
    }
  }

  /** Column `j + k` of a row, wrapping around after column 3. */
  function Rot(j: nat, k: nat): nat
  {
    if j + k < 4 then j + k else j + k - 4
  }

  /** Cell `(3 - i, 3 - j)` of the FIPS 197 `ShiftRows` of a mirrored state is
      cell `(i, j + i + 1)` of the state, wrapping around. */
  lemma ShiftedCell(g: AesSpec.Grid, i: nat, j: nat)
    requires AesSpec.IsState(g) && i < 4 && j < 4
    ensures Rot(j, i + 1) < 4
    ensures AesSpec.ShiftRows(Mirror(g))[3 - i][3 - j] == g[i][Rot(j, i + 1)]
  {
    AesSpec.ShiftRowsCell(Mirror(g), 3 - i, 3 - j);
    assert (3 - j + (3 - i)) % 4 == 3 - Rot(j, i + 1);
  }

  /** Rows and columns in reverse order. */
  function Mirror(g: AesSpec.Grid): (m: AesSpec.Grid)
    requires AesSpec.IsState(g)
    ensures AesSpec.IsState(m)
  {
    seq(4, r requires 0 <= r < 4 => seq(4, c requires 0 <= c < 4 => g[3 - r][3 - c]))
  }

  lemma MirrorTwice(g: AesSpec.Grid)
    requires AesSpec.IsState(g)
    ensures Mirror(Mirror(g)) == g
  {
    forall r | 0 <= r < 4
      ensures Mirror(Mirror(g))[r] == g[r]
    {
    }
  }

  lemma ReverseTwice(s: seq<Byte>)
    requires |s| == 16
    ensures Reverse(Reverse(s)) == s
  {
  }

  /** The FIPS 197 state a source state stands for. */
  ghost function View(a: array2<Byte>): (s: AesSpec.Grid)
    requires a.Length0 == 4 && a.Length1 == 4
    reads a
    ensures AesSpec.IsState(s)
  {
    Mirror(Grid(a))
  }

  /** A source state stands for `s` when its bytes are those of `s` back to
      front. */
  lemma ViewIs(a: array2<Byte>, s: AesSpec.Grid)
    requires a.Length0 == 4 && a.Length1 == 4 && AesSpec.IsState(s)
    requires forall i, j :: 0 <= i < 4 && 0 <= j < 4 ==> a[i, j] == s[3 - i][3 - j]
    ensures View(a) == s
  {
    forall r | 0 <= r < 4
      ensures View(a)[r] == s[r]
    {
    }
  }

  /** `state[i][j] ^ key[i + 4j]` for every cell: what `AddRoundKey` leaves. */
  function XorKey(g: AesSpec.Grid, key: seq<Byte>): (h: AesSpec.Grid)
    requires AesSpec.IsState(g) && |key| == 16
    ensures AesSpec.IsState(h)
  {
    seq(4, i requires 0 <= i < 4 => seq(4, j requires 0 <= j < 4 => g[i][j] ^ key[i + 4 * j]))
  }

  /** Adding the same round key twice gives the state back. */
  lemma XorKeyTwice(g: AesSpec.Grid, key: seq<Byte>)
    requires AesSpec.IsState(g) && |key| == 16
    ensures XorKey(XorKey(g, key), key) == g
  {
    forall i | 0 <= i < 4
      ensures XorKey(XorKey(g, key), key)[i] == g[i]
    {
    }
  }

  // ---------------------------------------------------------------------
  // The key schedule in source words

  /** Round key `r`: byte `4i + j` is byte `j` of word `4r + 3 - i`. */
  function RoundKey(w: seq<Word>, r: nat): (block: seq<Byte>)
    requires |w| == AesSpec.KEY_WORDS && r <= AesSpec.ROUNDS
    ensures |block| == 16
  {
    seq(16, k requires 0 <= k < 16 => Word2Bytes(w[4 * r + 3 - k / 4])[k % 4])
  }

  /** The `Nr + 1` round keys. */
  function RoundKeys(w: seq<Word>): (keys: seq<seq<Byte>>)
    requires |w| == AesSpec.KEY_WORDS
    ensures |keys| == AesSpec.ROUNDS + 1
  {
    seq(AesSpec.ROUNDS + 1, r requires 0 <= r <= AesSpec.ROUNDS => RoundKey(w, r))
  }

  /** Byte `i + 4j` of round key `r` is byte `i` of source word
      `4r + 3 - j`. */
  lemma RoundKeyCell(w: seq<Word>, r: nat, i: nat, j: nat)
    requires |w| == AesSpec.KEY_WORDS && r <= AesSpec.ROUNDS && i < 4 && j < 4
    ensures RoundKey(w, r)[i + 4 * j] == Word2Bytes(w[4 * r + 3 - j])[i]
  {
    var k := i + 4 * j;
    assert k / 4 == j && k % 4 == i;
  }

  /** XORing round key `r` into a source state adds round key `r` of the
      words to the FIPS state it stands for. */
  lemma RoundKeyView(s: AesSpec.Grid, fips: seq<Word>, r: nat)
    requires AesSpec.IsState(s) && |fips| == AesSpec.KEY_WORDS && r <= AesSpec.ROUNDS
    ensures Mirror(XorKey(Mirror(s), RoundKey(fips, r)))
      == AesSpec.AddRoundKey(s, fips, r)
  {
    var lhs := Mirror(XorKey(Mirror(s), RoundKey(fips, r)));
    var rhs := AesSpec.AddRoundKey(s, fips, r);
    forall a | 0 <= a < 4
      ensures lhs[a] == rhs[a]
    {
      forall c | 0 <= c < 4
        ensures lhs[a][c] == rhs[a][c]
      {
        RoundKeyViewCell(s, fips, r, a, c);
      }
    }
  }

  lemma RoundKeyViewCell(s: AesSpec.Grid, fips: seq<Word>, r: nat, a: nat, c: nat)
    requires AesSpec.IsState(s) && |fips| == AesSpec.KEY_WORDS && r <= AesSpec.ROUNDS
    requires a < 4 && c < 4
    ensures Mirror(XorKey(Mirror(s), RoundKey(fips, r)))[a][c]
      == AesSpec.AddRoundKey(s, fips, r)[a][c]
  {
    var rk := RoundKey(fips, r);
    XorKeyAt(s, rk, a, c);
    RoundKeyByte(fips, r, a, c);
  }

  /** Cell `(a, c)` of a mirrored state with a key added. */
  lemma XorKeyAt(s: AesSpec.Grid, key: seq<Byte>, a: nat, c: nat)
    requires AesSpec.IsState(s) && |key| == 16 && a < 4 && c < 4
    ensures Mirror(XorKey(Mirror(s), key))[a][c] == s[a][c] ^ key[(3 - a) + 4 * (3 - c)]
  {
    MirrorAt(s, 3 - a, 3 - c);
    XorKeyCell(Mirror(s), key, 3 - a, 3 - c);
    MirrorAt(XorKey(Mirror(s), key), a, c);
  }

  /** Cell `(a, c)` of a state with a key added. */
  lemma XorKeyCell(g: AesSpec.Grid, key: seq<Byte>, a: nat, c: nat)
    requires AesSpec.IsState(g) && |key| == 16 && a < 4 && c < 4
    ensures XorKey(g, key)[a][c] == g[a][c] ^ key[a + 4 * c]
  {
  }

  /** The source round key byte for FIPS cell `(a, c)`. */
  lemma RoundKeyByte(fips: seq<Word>, r: nat, a: nat, c: nat)
    requires |fips| == AesSpec.KEY_WORDS && r <= AesSpec.ROUNDS && a < 4 && c < 4
    ensures RoundKey(fips, r)[(3 - a) + 4 * (3 - c)] == AesSpec.WordByte(fips[4 * r + c], a)
  {
    RoundKeyCell(fips, r, 3 - a, 3 - c);
    Word2BytesFips(fips[4 * r + c]);
  }

  /** Words of a shorter expansion are words of a longer one. */
  lemma {:induction false} ExpandPrefix(key: seq<Byte>, n: nat, m: nat)
    requires |key| == 16 && n <= m <= AesSpec.KEY_WORDS
    ensures AesSpec.Expand(key, n) == AesSpec.Expand(key, m)[..n]
    decreases m
  {
    if n < m {
      if m <= 4 {
        assert AesSpec.Expand(key, n) == AesSpec.Expand(key, m)[..n];
      } else {
        ExpandPrefix(key, n, m - 1);
        assert AesSpec.Expand(key, m)[..m - 1] == AesSpec.Expand(key, m - 1);
      }
    }
  }

  /** Word `k` of a partial expansion is word `k` of the full one. */
  lemma ExpandPrefixAt(key: seq<Byte>, n: nat, k: nat)
    requires |key| == 16 && k < n <= AesSpec.KEY_WORDS
    ensures AesSpec.Expand(key, n)[k] == AesSpec.KeyExpansion(key)[k]
  {
    ExpandPrefix(key, n, AesSpec.KEY_WORDS);
  }

  /** Words `0..3` of the FIPS key schedule are the key (section 5.2 of
      FIPS 197). */
  lemma ExpandHead(key: seq<Byte>, i: nat)
    requires |key| == 16 && i < 4
    ensures AesSpec.KeyExpansion(key)[i] == AesSpec.MakeWord(key[4 * i], key[4 * i + 1], key[4 * i + 2], key[4 * i + 3])
  {
    ExpandPrefixAt(key, i + 1, i);
  }

  /** Word `i >= 4` of the FIPS key schedule is word `i - 4` XOR `temp`
      (section 5.2 of FIPS 197). */
  lemma ExpandAt(key: seq<Byte>, i: nat)
    requires |key| == 16 && 4 <= i < AesSpec.KEY_WORDS
    ensures var w := AesSpec.KeyExpansion(key);
      w[i] == w[i - 4] ^ AesSpec.Temp(w[i - 1], i)
  {
    ExpandPrefixAt(key, i + 1, i);
    ExpandPrefixAt(key, i, i - 4);
    ExpandPrefixAt(key, i, i - 1);
    ExpandLast(key, i + 1);
  }

  /** The last word of a partial expansion. */
  lemma ExpandLast(key: seq<Byte>, n: nat)
    requires |key| == 16 && 4 < n <= AesSpec.KEY_WORDS
    ensures var p := AesSpec.Expand(key, n - 1);
      AesSpec.Expand(key, n)[n - 1] == p[n - 5] ^ AesSpec.Temp(p[n - 2], n - 1)
  {
  }

  /** The source word `i < 4` read from the key bits is FIPS word `i`. */
  lemma KeyWordAt(keyBits: BitString, i: nat)
    requires |keyBits| == 128 && i < 4
    ensures (i + 1) * 32 <= |keyBits|
    ensures WordOfBits(keyBits[i * 32 .. (i + 1) * 32]) == AesSpec.KeyExpansion(BytesOf(keyBits))[i]
  {
    KeyWord(keyBits, i);
    ExpandHead(BytesOf(keyBits), i);
  }

  /** Every fourth word `i` of the FIPS key schedule is word `i - 4` XOR
      `SubWord(RotWord(w[i - 1])) ^ Rcon(i / 4)`. */
  lemma ExpandRot(key: seq<Byte>, i: nat)
    requires |key| == 16 && 4 <= i < AesSpec.KEY_WORDS && i % 4 == 0
    ensures var w := AesSpec.KeyExpansion(key);
      w[i] == w[i - 4] ^ (AesSpec.SubWord(AesSpec.RotWord(w[i - 1])) ^ AesSpec.Rcon(i / 4))
  {
    ExpandAt(key, i);
  }

  /** The other words `i >= 4` of the FIPS key schedule are word `i - 4` XOR
      word `i - 1`. */
  lemma ExpandCopy(key: seq<Byte>, i: nat)
    requires |key| == 16 && 4 <= i < AesSpec.KEY_WORDS && i % 4 != 0
    ensures var w := AesSpec.KeyExpansion(key);
      w[i] == w[i - 4] ^ w[i - 1]
  {
    ExpandAt(key, i);
  }

  /** The source's `SubWord(RotWord(temp)) ^ Rcon(i / 4)` is the FIPS 197
      `temp` of word `i`. */
  lemma TempRot(prev: Word, i: nat, rc: Word)
    requires i >= 4 && i % 4 == 0 && rc == AesSpec.Rcon(i / 4)
    ensures SubWord(RotWord(prev)) ^ rc == AesSpec.Temp(prev, i)
  {
  }

  /** The number of `xtime` steps `Rcon(n)` takes: `n - 1`.  For `n == 0` the
      unsigned bound `n - 1` is `2^32 - 1`, which the signed loop counter
      cannot reach without overflowing, so the source fixes no count there; the
      model chooses `2^32 - 1`.  The key schedule only asks for `n` in 1..10. */
  function RconSteps(n: nat): nat
  {
    if n == 0 then 0xFFFF_FFFF else n - 1
  }

  /** Every memoised round constant is `xtime` applied `RconSteps(n)` times to
      1, zero-extended to 32 bits. */
  ghost predicate RconMemo(buffer: map<nat, Word>)
  {
    forall n :: n in buffer ==> buffer[n] == AesSpec.XPow(RconSteps(n)) as Word
  }

  /** Remembering a correct round constant keeps the memo correct. */
  lemma MemoAdd(buffer: map<nat, Word>, n: nat, rc: Word)
    requires RconMemo(buffer) && rc == AesSpec.XPow(RconSteps(n)) as Word
    ensures RconMemo(buffer[n := rc])
  {
  }

  // ---------------------------------------------------------------------
  // The cipher

  class Aes128 {
    /** `roundKeys`: the `Nr + 1` round keys. */
    var roundKeys: seq<seq<Byte>>
    /** `Rcon_buffer`: the round constants computed so far. */
    var rconBuffer: map<nat, Word>
    /** The key the round keys were expanded from, as FIPS 197 bytes. */
    ghost var key: seq<Byte>

    ghost predicate Valid()
      reads this
    {
      && |key| == 16
      && roundKeys == RoundKeys(AesSpec.KeyExpansion(key))
      && RconMemo(rconBuffer)
    }

    /** `AES(key)`: the key must be 128 bits long. */
    constructor (keyBits: BitString)
      requires |keyBits| == 128
      ensures Valid() && key == BytesOf(keyBits)
    {
      roundKeys := [];
      rconBuffer := map[];
      key := BytesOf(keyBits);
      new;
      KeySchedule(keyBits);
    }

    /** `Rcon(n)`: `xtime` applied `n - 1` times to `1` (with `n - 1` taken in
        unsigned 32-bit arithmetic), zero-extended to 32 bits and remembered;
        a repeated call returns the remembered value, which is the same.  For
        `n >= 1` this is the FIPS 197 round constant. */
    method Rcon(n: nat) returns (rc: Word)
      requires RconMemo(rconBuffer) && n < 0x1_0000_0000
      modifies this`rconBuffer
      ensures rc == AesSpec.XPow(RconSteps(n)) as Word
      ensures n >= 1 ==> rc == AesSpec.Rcon(n)
      ensures rconBuffer == old(rconBuffer)[n := rc] && RconMemo(rconBuffer)
    {
      if n >= 1 {
        RconWord(n);
      }
      if n in rconBuffer {
        rc := rconBuffer[n];
        assert rconBuffer == rconBuffer[n := rc];
        return;
      }
      var b: Byte := 1;
      for i := 0 to RconSteps(n)
        modifies {}
        invariant b == AesSpec.XPow(i)
      {
        AesSpec.MulTwo(b);
        b := XTime(b);
      }
      rc := b as Word;
      MemoAdd(rconBuffer, n, rc);
      rconBuffer := rconBuffer[n := rc];
    }

    /** `KeySchedule(key)`: the 44 words of the expanded key, then the
        `Nr + 1` round keys laid out from them. */
    method KeySchedule(keyBits: BitString)
      requires |keyBits| == 128 && RconMemo(rconBuffer)
      modifies this
      ensures key == BytesOf(keyBits) && Valid()
    {
      key := BytesOf(keyBits);
      var w := ExpandKey(keyBits);
      var keys: seq<seq<Byte>> := [];
      for r := 0 to AesSpec.ROUNDS + 1
        modifies {}
        invariant |keys| == r && forall q :: 0 <= q < r ==> keys[q] == RoundKey(w[..], q)
      {
        var block := LayRoundKey(w, r);
        keys := keys + [block];
      }
      assert keys == RoundKeys(w[..]);
      assert w[..] == AesSpec.KeyExpansion(key);
      roundKeys := keys;
      assert roundKeys == RoundKeys(AesSpec.KeyExpansion(key));
    }

    /** The first two loops of `KeySchedule`: the key words, then
        `w[i] = w[i - 4] ^ temp`. */
    method ExpandKey(keyBits: BitString) returns (w: array<Word>)
      requires |keyBits| == 128 && RconMemo(rconBuffer) && key == BytesOf(keyBits)
      modifies this`rconBuffer
      ensures RconMemo(rconBuffer) && w[..] == AesSpec.KeyExpansion(key)
    {
      ghost var src := AesSpec.KeyExpansion(key);
      w := new Word[AesSpec.KEY_WORDS];
      for i := 0 to 4
        modifies w
        invariant forall k :: 0 <= k < i ==> w[k] == src[k]
      {
        KeyWordAt(keyBits, i);
        w[i] := WordOfBits(keyBits[i * 32 .. (i + 1) * 32]);
      }
      for i := 4 to AesSpec.KEY_WORDS
        invariant RconMemo(rconBuffer)
        invariant forall k :: 0 <= k < i ==> w[k] == src[k]
      {
        var temp := ScheduleTemp(w[i - 1], i);
        ExpandAt(key, i);
        w[i] := w[i - 4] ^ temp;
      }
    }

    /** The middle of the second loop of `KeySchedule`: `temp = w[i - 1]`,
        replaced by `SubWord(RotWord(temp)) ^ Rcon(i / 4)` when `i` is a
        multiple of 4. */
    method ScheduleTemp(prev: Word, i: nat) returns (temp: Word)
      requires 4 <= i < AesSpec.KEY_WORDS && RconMemo(rconBuffer)
      modifies this`rconBuffer
      ensures temp == AesSpec.Temp(prev, i) && RconMemo(rconBuffer)
      ensures rconBuffer == if i % 4 == 0 then old(rconBuffer)[i / 4 := AesSpec.Rcon(i / 4)] else old(rconBuffer)
    {
      temp := prev;
      if i % 4 == 0 {
        var rc := Rcon(i / 4);
        TempRot(prev, i, rc);
        temp := SubWord(RotWord(temp)) ^ rc;
      }
    }

    /** The third loop of `KeySchedule` for round `r`:
        `roundKeys[r][i * 4 + j] = word2bytes(w[r * 4 + 4 - i - 1])[j]`. */
    method LayRoundKey(w: array<Word>, r: nat) returns (block: seq<Byte>)
      requires w.Length == AesSpec.KEY_WORDS && r <= AesSpec.ROUNDS
      ensures block == RoundKey(w[..], r)
    {
      var out := new Byte[16];
      for i := 0 to 4
        invariant forall k :: 0 <= k < 4 * i ==> out[k] == RoundKey(w[..], r)[k]
      {
        var bytes := Word2Bytes(w[r * 4 + 4 - i - 1]);
        for j := 0 to 4
          invariant forall k :: 0 <= k < 4 * i + j ==> out[k] == RoundKey(w[..], r)[k]
        {
          assert (i * 4 + j) / 4 == i && (i * 4 + j) % 4 == j;
          out[i * 4 + j] := bytes[j];
        }
      }
      block := out[..];
    }

    /** `SubBytes`: the S-box circuit on every byte of the state. */
    method SubBytes(state: array2<Byte>)
      requires state.Length0 == 4 && state.Length1 == 4
      modifies state
      ensures View(state) == AesSpec.SubBytes(old(View(state)))
    {
      ghost var g := Grid(state);
      for i := 0 to 4
        invariant forall a, b :: 0 <= a < 4 && 0 <= b < 4 ==>
          state[a, b] == if a < i then SBoxCircuit(g[a][b]) else g[a][b]
      {
        for j := 0 to 4
          invariant forall a, b :: 0 <= a < 4 && 0 <= b < 4 ==>
            state[a, b] == if a < i || (a == i && b < j) then SBoxCircuit(g[a][b]) else g[a][b]
        {
          state[i, j] := SBoxCircuit(state[i, j]);
        }
      }
      SubBytesCircuit(g, Grid(state));
    }

    /** `ShiftRow(state, row, n)`: `state[row][c]` takes the old
        `state[row][(c + n) % 4]`, with `c + n` computed in 32 bits. */
    method ShiftRow(state: array2<Byte>, row: nat, n: nat)
      requires state.Length0 == 4 && state.Length1 == 4 && row < 4 && n < 0x1_0000_0000
      modifies state
      ensures Grid(state) == ShiftedRow(old(Grid(state)), row, n)
    {
      ghost var g0 := Grid(state);
      var tmp := [state[row, 0], state[row, 1], state[row, 2], state[row, 3]];
      var from := [ShiftIndex(0, n), ShiftIndex(1, n), ShiftIndex(2, n), ShiftIndex(3, n)];
      assert tmp == g0[row];
      for column := 0 to 4
        invariant forall j :: 0 <= j < column ==> state[row, j] == tmp[from[j]]
        invariant forall i, j :: 0 <= i < 4 && 0 <= j < 4 && (i != row || column <= j) ==> state[i, j] == old(state[i, j])
      {
        state[row, column] := tmp[from[column]];
      }
      ShiftedRowOf(g0, Grid(state), row, n);
    }

    /** `ShiftRows`: rows 2, 1 and 0 shifted by `-1`, `-2` and `-3` as
        unsigned 32-bit numbers, which is the FIPS 197 rotation of rows 1, 2
        and 3 to the left by 1, 2 and 3. */
    method ShiftRows(state: array2<Byte>)
      requires state.Length0 == 4 && state.Length1 == 4
      modifies state
      ensures View(state) == AesSpec.ShiftRows(old(View(state)))
    {
      ghost var g := Grid(state);
      ShiftRow(state, 2, 0xFFFF_FFFF);
      ShiftRow(state, 1, 0xFFFF_FFFE);
      ShiftRow(state, 0, 0xFFFF_FFFD);
      ShiftRowsSource(g);
    }

    /** `mixSingleColumn(r)`: with `b[c] = xtime(r[c])`, output `k` is
        `b[k] ^ r[k + 3] ^ r[k + 2] ^ b[k + 1] ^ r[k + 1]`, the column
        product of section 5.1.3 of FIPS 197, written back into `r`. */
    method MixSingleColumn(r: array<Byte>)
      requires r.Length == 4
      modifies r
      ensures r[..] == AesSpec.MixColumn(old(r[0]), old(r[1]), old(r[2]), old(r[3]))
    {
      var b := new Byte[4];
      for c := 0 to 4
        modifies b
        invariant forall k :: 0 <= k < c ==> b[k] == XTime(r[k])
      {
        b[c] := XTime(r[c]);
      }
      var a0, a1, a2, a3 := r[0], r[1], r[2], r[3];
      var b0, b1, b2, b3 := b[0], b[1], b[2], b[3];
      var res := [ColumnTerm(b0, a3, a2, b1, a1), ColumnTerm(b1, a0, a3, b2, a2),
                  ColumnTerm(b2, a1, a0, b3, a3), ColumnTerm(b3, a2, a1, b0, a0)];
      MixColumnSource(a0, a1, a2, a3, b0, b1, b2, b3, res);
      r[0], r[1], r[2], r[3] := res[0], res[1], res[2], res[3];
    }

    /** `MixColumns`: each column, read bottom to top, goes through
        `mixSingleColumn` and back. */
    method MixColumns(state: array2<Byte>)
      requires state.Length0 == 4 && state.Length1 == 4
      modifies state
      ensures View(state) == AesSpec.MixColumns(old(View(state)))
    {
      ghost var s0 := View(state);
      ghost var s := MixedColumns(s0);
      var temp := new Byte[4];
      for i := 0 to 4
        invariant forall a, b :: 0 <= a < 4 && 0 <= b < 4 ==>
          state[a, b] == if b < i then s[3 - a][3 - b] else s0[3 - a][3 - b]
      {
        MixStateColumn(state, temp, i, s0, s);
      }
      ViewIs(state, s);
      MixedColumnsAre(s0, s);
    }

    /** One pass of the column loop of `MixColumns`: column `i` of the state,
        read bottom to top into `temp`, mixed, and written back. */
    method MixStateColumn(state: array2<Byte>, temp: array<Byte>, i: nat,
                          ghost s0: AesSpec.Grid, ghost s: AesSpec.Grid)
      requires state.Length0 == 4 && state.Length1 == 4 && temp.Length == 4 && i < 4
      requires AesSpec.IsState(s0) && AesSpec.IsState(s)
      requires forall c :: 0 <= c < 4 ==>
        AesSpec.Column(s, c) == AesSpec.MixColumn(s0[0][c], s0[1][c], s0[2][c], s0[3][c])
      requires forall a :: 0 <= a < 4 ==> state[a, i] == s0[3 - a][3 - i]
      modifies state, temp
      ensures forall a, b :: 0 <= a < 4 && 0 <= b < 4 ==>
        state[a, b] == if b == i then s[3 - a][3 - b] else old(state[a, b])
    {
      LoadColumn(state, temp, i);
      MixSingleColumn(temp);
      assert temp[..] == AesSpec.Column(s, 3 - i);
      StoreColumn(state, temp, i, s);
    }

    /** The loading loop of `MixColumns`: `temp[3 - j]` takes `state[j][i]`. */
    method LoadColumn(state: array2<Byte>, temp: array<Byte>, i: nat)
      requires state.Length0 == 4 && state.Length1 == 4 && temp.Length == 4 && i < 4
      modifies temp
      ensures forall m :: 0 <= m < 4 ==> temp[m] == state[3 - m, i]
    {
      for j := 0 to 4
        invariant forall m :: 3 - j < m < 4 ==> temp[m] == state[3 - m, i]
      {
        temp[3 - j] := state[j, i];
      }
    }

    /** The storing loop of `MixColumns`: `state[j][i]` takes `temp[3 - j]`, which
        holds entry `3 - j` of column `3 - i` of the mixed grid `s`. */
    method StoreColumn(state: array2<Byte>, temp: array<Byte>, i: nat, ghost s: AesSpec.Grid)
      requires state.Length0 == 4 && state.Length1 == 4 && temp.Length == 4 && i < 4 && AesSpec.IsState(s)
      requires temp[..] == AesSpec.Column(s, 3 - i)
      modifies state
      ensures forall a, b :: 0 <= a < 4 && 0 <= b < 4 ==>
        state[a, b] == if b == i then s[3 - a][3 - b] else old(state[a, b])
    {
      for j := 0 to 4
        invariant forall a, b :: 0 <= a < 4 && 0 <= b < 4 ==>
          state[a, b] == if b == i && a < j then s[3 - a][3 - b] else old(state[a, b])
      {
        ColumnCells(s, 3 - i);
        assert temp[..][3 - j] == temp[3 - j];
        state[j, i] := temp[3 - j];
      }
    }

    /** `AddRoundKey(state, key)`: `state[i][j] ^= key[i + 4j]`. */
    method AddRoundKey(state: array2<Byte>, roundKey: seq<Byte>)
      requires state.Length0 == 4 && state.Length1 == 4 && |roundKey| == 16
      modifies state
      ensures Grid(state) == XorKey(old(Grid(state)), roundKey)
    {
      ghost var g := XorKey(Grid(state), roundKey);
      for i := 0 to 4
        invariant forall a, b :: 0 <= a < 4 && 0 <= b < 4 ==>
          state[a, b] == if a < i then g[a][b] else old(state[a, b])
      {
        for j := 0 to 4
          invariant forall a, b :: 0 <= a < 4 && 0 <= b < 4 ==>
            state[a, b] == if a < i || (a == i && b < j) then g[a][b] else old(state[a, b])
        {
          state[i, j] := state[i, j] ^ roundKey[i + 4 * j];
        }
      }
      assert forall a :: 0 <= a < 4 ==> Grid(state)[a] == g[a];
    }

    /** `EncryptBlock(in)`: nine full rounds and a last round without
        `MixColumns`, which is FIPS 197 encryption of the reversed block. */
    method EncryptBlock(input: seq<Byte>) returns (out: seq<Byte>)
      requires Valid() && |input| == 16
      ensures out == Reverse(AesSpec.Cipher(Reverse(input), AesSpec.KeyExpansion(key)))
    {
      ghost var fips := AesSpec.KeyExpansion(key);
      var state := LoadState(input);
      ghost var g := Grid(state);
      AddRoundKey(state, roundKeys[0]);
      AddKeyStep(g, Grid(state), fips, 0);
      ghost var s0 := AesSpec.AddRoundKey(AesSpec.InputState(Reverse(input)), fips, 0);
      for round := 1 to AesSpec.ROUNDS
        invariant View(state) == AesSpec.Rounds(s0, fips, round - 1)
      {
        SubBytes(state);
        ShiftRows(state);
        MixColumns(state);
        g := Grid(state);
        AddRoundKey(state, roundKeys[round]);
        AddKeyStep(g, Grid(state), fips, round);
      }
      SubBytes(state);
      ShiftRows(state);
      g := Grid(state);
      AddRoundKey(state, roundKeys[AesSpec.ROUNDS]);
      AddKeyStep(g, Grid(state), fips, AesSpec.ROUNDS);
      out := StoreState(state);
    }

    /** The first loop of `EncryptBlock`: `state[i][j] = in[i + 4j]`. */
    static method LoadState(input: seq<Byte>) returns (state: array2<Byte>)
      requires |input| == 16
      ensures fresh(state) && state.Length0 == 4 && state.Length1 == 4
      ensures View(state) == AesSpec.InputState(Reverse(input))
    {
      state := new Byte[4, 4];
      for i := 0 to 4
        invariant forall a, b :: 0 <= a < i && 0 <= b < 4 ==> state[a, b] == input[a + 4 * b]
      {
        for j := 0 to 4
          invariant forall a, b :: 0 <= a < 4 && 0 <= b < 4 && (a < i || (a == i && b < j)) ==> state[a, b] == input[a + 4 * b]
        {
          state[i, j] := input[i + j * 4];
        }
      }
      ViewIs(state, AesSpec.InputState(Reverse(input)));
    }

    /** The last loop of `EncryptBlock`: `out[i + 4j] = state[i][j]`. */
    static method StoreState(state: array2<Byte>) returns (out: seq<Byte>)
      requires state.Length0 == 4 && state.Length1 == 4
      ensures out == Reverse(AesSpec.OutputBytes(View(state)))
    {
      var o := new Byte[16];
      for i := 0 to 4
        invariant forall a, b :: 0 <= a < i && 0 <= b < 4 ==> o[a + 4 * b] == state[a, b]
      {
        for j := 0 to 4
          invariant forall a, b :: 0 <= a < 4 && 0 <= b < 4 && (a < i || (a == i && b < j)) ==> o[a + 4 * b] == state[a, b]
        {
          o[i + j * 4] := state[i, j];
        }
      }
      out := o[..];
      forall k | 0 <= k < 16
        ensures out[k] == Reverse(AesSpec.OutputBytes(View(state)))[k]
      {
        assert out[k] == state[k % 4, k / 4];
      }
    }

    /** `EncryptECB(in)` on one 128-bit `Integer`: byte `i` of the input is
        bits `8i .. 8i + 8`, and the bytes of the output are the FIPS 197
        encryption of those bytes. */
    method EncryptECB(input: BitString) returns (out: BitString)
      requires Valid() && |input| == 128
      ensures out == BitsOf(AesSpec.Encrypt(key, BytesOf(input)))
    {
      var inner := InnerBlock(input);
      var innerOut := EncryptBlock(inner);
      out := OuterBits(innerOut);
      ReverseTwice(BytesOf(input));
      ReverseTwice(AesSpec.Encrypt(key, BytesOf(input)));
    }

    /** The first loop of `EncryptECB(in)`: byte `i` of the input goes to
        `inner_in[15 - i]`. */
    static method InnerBlock(input: BitString) returns (inner: seq<Byte>)
      requires |input| == 128
      ensures inner == Reverse(BytesOf(input))
    {
      ghost var bytes := BytesOf(input);
      var block := new Byte[16];
      for i := 0 to 16
        invariant forall k :: 0 <= k < i ==> block[16 - k - 1] == bytes[k]
      {
        block[16 - i - 1] := ByteOfBits(input[i * 8 .. (i + 1) * 8]);
      }
      inner := block[..];
    }

    /** The last loop of `EncryptECB(in)`: the bits of `inner_out[15]`, then
        of `inner_out[14]`, and so on. */
    static method OuterBits(innerOut: seq<Byte>) returns (out: BitString)
      requires |innerOut| == 16
      ensures out == BitsOf(Reverse(innerOut))
    {
      ghost var c := Reverse(innerOut);
      out := [];
      for i := 0 to 16
        invariant out == BitsOf(c[..i])
      {
        assert c[..i + 1] == c[..i] + [innerOut[16 - i - 1]];
        BitsOfSnoc(c[..i], innerOut[16 - i - 1]);
        out := out + BitsOfByte(innerOut[16 - i - 1]);
      }
      assert c[..16] == c;
    }

    /** `EncryptECB(in)` on a vector: each block encrypted on its own. */
    method EncryptECBAll(inputs: seq<BitString>) returns (res: seq<BitString>)
      requires Valid() && forall k :: 0 <= k < |inputs| ==> |inputs[k]| == 128
      ensures |res| == |inputs|
      ensures forall k :: 0 <= k < |inputs| ==> res[k] == BitsOf(AesSpec.Encrypt(key, BytesOf(inputs[k])))
    {
      res := [];
      for i := 0 to |inputs|
        invariant |res| == i
        invariant forall k :: 0 <= k < i ==> res[k] == BitsOf(AesSpec.Encrypt(key, BytesOf(inputs[k])))
      {
        var block := EncryptECB(inputs[i]);
        AppendBlock(res, block, inputs, key);
        res := res + [block];
      }
    }
  }

  /** One more block of `EncryptECB` on a vector. */
  lemma AppendBlock(res: seq<BitString>, block: BitString, inputs: seq<BitString>, key: seq<Byte>)
    requires |key| == 16 && |res| < |inputs| && forall k :: 0 <= k < |inputs| ==> |inputs[k]| == 128
    requires forall k :: 0 <= k < |res| ==> res[k] == BitsOf(AesSpec.Encrypt(key, BytesOf(inputs[k])))
    requires block == BitsOf(AesSpec.Encrypt(key, BytesOf(inputs[|res|])))
    ensures forall k :: 0 <= k < |res| + 1 ==> (res + [block])[k] == BitsOf(AesSpec.Encrypt(key, BytesOf(inputs[k])))
  {
  }

  /** The S-box circuit on every byte of a source state is the FIPS 197
      `SubBytes` on the state it stands for. */
  lemma SubBytesCircuit(g: AesSpec.Grid, h: AesSpec.Grid)
    requires AesSpec.IsState(g) && AesSpec.IsState(h)
    requires forall i, j :: 0 <= i < 4 && 0 <= j < 4 ==> h[i][j] == SBoxCircuit(g[i][j])
    ensures Mirror(h) == AesSpec.SubBytes(Mirror(g))
  {
    var lhs, rhs := Mirror(h), AesSpec.SubBytes(Mirror(g));
    forall r | 0 <= r < 4
      ensures lhs[r] == rhs[r]
    {
      forall c | 0 <= c < 4
        ensures lhs[r][c] == rhs[r][c]
      {
        var x := g[3 - r][3 - c];
        MirrorAt(h, r, c);
        MirrorAt(g, r, c);
        SubBytesAt(Mirror(g), r, c);
        SBoxAgrees(x);
      }
    }
  }

  /** A state whose every column is the mixed column of `s0`, named
      without unfolding `MixColumns`. */
  lemma MixedColumns(s0: AesSpec.Grid) returns (s: AesSpec.Grid)
    requires AesSpec.IsState(s0)
    ensures AesSpec.IsState(s)
    ensures forall c :: 0 <= c < 4 ==>
      AesSpec.Column(s, c) == AesSpec.MixColumn(s0[0][c], s0[1][c], s0[2][c], s0[3][c])
  {
    s := AesSpec.MixColumns(s0);
    forall c | 0 <= c < 4
      ensures AesSpec.Column(s, c) == AesSpec.MixColumn(s0[0][c], s0[1][c], s0[2][c], s0[3][c])
    {
      MixColumnAt(s0, c);
    }
  }

  /** Such a state is `MixColumns(s0)`. */
  lemma MixedColumnsAre(s0: AesSpec.Grid, s: AesSpec.Grid)
    requires AesSpec.IsState(s0) && AesSpec.IsState(s)
    requires forall c :: 0 <= c < 4 ==>
      AesSpec.Column(s, c) == AesSpec.MixColumn(s0[0][c], s0[1][c], s0[2][c], s0[3][c])
    ensures s == AesSpec.MixColumns(s0)
  {
    var m := AesSpec.MixColumns(s0);
    forall r, c | 0 <= r < 4 && 0 <= c < 4
      ensures s[r][c] == m[r][c]
    {
      MixColumnAt(s0, c);
      ColumnCells(s, c);
      ColumnCells(m, c);
    }
    assert forall r :: 0 <= r < 4 ==> s[r] == m[r];
  }

  /** `MixColumns` multiplies every column of the state. */
  lemma MixColumnAt(s: AesSpec.Grid, c: nat)
    requires AesSpec.IsState(s) && c < 4
    ensures AesSpec.MixColumn(s[0][c], s[1][c], s[2][c], s[3][c]) == AesSpec.Column(AesSpec.MixColumns(s), c)
  {
  }

  /** Row `k` of column `c` is `s[k][c]`. */
  lemma ColumnCells(s: AesSpec.Grid, c: nat)
    requires AesSpec.IsState(s) && c < 4
    ensures forall k :: 0 <= k < 4 ==> AesSpec.Column(s, c)[k] == s[k][c]
  {
  }

  /** The four outputs `b[k] ^ r[k + 3] ^ r[k + 2] ^ b[k + 1] ^ r[k + 1]`
      of `mixSingleColumn`, with `b = xtime(r)`, are the column product. */
  lemma MixColumnSource(a0: Byte, a1: Byte, a2: Byte, a3: Byte,
                        b0: Byte, b1: Byte, b2: Byte, b3: Byte, res: seq<Byte>)
    requires b0 == XTime(a0) && b1 == XTime(a1) && b2 == XTime(a2) && b3 == XTime(a3)
    requires res == [ColumnTerm(b0, a3, a2, b1, a1), ColumnTerm(b1, a0, a3, b2, a2),
                     ColumnTerm(b2, a1, a0, b3, a3), ColumnTerm(b3, a2, a1, b0, a0)]
    ensures res == AesSpec.MixColumn(a0, a1, a2, a3)
  {
    var m := AesSpec.MixColumn(a0, a1, a2, a3);
    MixByte(a0, a1, a2, a3);
    MixByte(a1, a2, a3, a0);
    MixByte(a2, a3, a0, a1);
    MixByte(a3, a0, a1, a2);
    SameFour(res, m);
  }

  /** Two four-byte sequences that agree at every index are equal. */
  lemma SameFour(x: seq<Byte>, y: seq<Byte>)
    requires |x| == 4 && |y| == 4
    requires x[0] == y[0] && x[1] == y[1] && x[2] == y[2] && x[3] == y[3]
    ensures x == y
  {
    assert forall k :: 0 <= k < 4 ==> x[k] == y[k];
  }

  /** Output byte `k` of `mixSingleColumn` from `b[k]`, `r[k + 3]`, `r[k + 2]`,
      `b[k + 1]` and `r[k + 1]`. */
  function ColumnTerm(bk: Byte, r3: Byte, r2: Byte, bk1: Byte, r1: Byte): Byte
  {
    bk ^ r3 ^ r2 ^ bk1 ^ r1
  }

  /** Output byte `k` of `mixSingleColumn`, `b[k] ^ r[k + 3] ^ r[k + 2] ^
      b[k + 1] ^ r[k + 1]` with `b = xtime(r)`, is
      `{02} • a_k ^ {03} • a_(k+1) ^ a_(k+2) ^ a_(k+3)`. */
  lemma MixByte(a0: Byte, a1: Byte, a2: Byte, a3: Byte)
    ensures ColumnTerm(XTime(a0), a3, a2, XTime(a1), a1)
         == AesSpec.Mul(0x02, a0) ^ AesSpec.Mul(0x03, a1) ^ a2 ^ a3
  {
    var p, q := XTime(a0), XTime(a1);
    AesSpec.MulTwo(a0);
    AesSpec.MulThree(a1);
    RegroupTerm(p, q, a1, a2, a3);
  }

  /** The five terms of an output byte, regrouped as in the FIPS 197 sum. */
  lemma RegroupTerm(p: Byte, q: Byte, a1: Byte, a2: Byte, a3: Byte)
    ensures ColumnTerm(p, a3, a2, q, a1) == p ^ (q ^ a1) ^ a2 ^ a3
  {
  }

  /** Cell `(r, c)` of a mirrored state. */
  lemma MirrorAt(g: AesSpec.Grid, r: nat, c: nat)
    requires AesSpec.IsState(g) && r < 4 && c < 4
    ensures Mirror(g)[r][c] == g[3 - r][3 - c]
  {
  }

  /** Cell `(r, c)` of the FIPS 197 `SubBytes`. */
  lemma SubBytesAt(s: AesSpec.Grid, r: nat, c: nat)
    requires AesSpec.IsState(s) && r < 4 && c < 4
    ensures AesSpec.SubBytes(s)[r][c] == AesSpec.SubByte(s[r][c])
  {
  }

  /** `AddRoundKey` with round key `r` of the words is the FIPS 197
      `AddRoundKey` on the states the source states stand for. */
  lemma AddKeyStep(g: AesSpec.Grid, h: AesSpec.Grid, fips: seq<Word>, r: nat)
    requires AesSpec.IsState(g) && |fips| == AesSpec.KEY_WORDS && r <= AesSpec.ROUNDS
    requires h == XorKey(g, RoundKey(fips, r))
    ensures Mirror(h) == AesSpec.AddRoundKey(Mirror(g), fips, r)
  {
    MirrorTwice(g);
    RoundKeyView(Mirror(g), fips, r);
  }
}
