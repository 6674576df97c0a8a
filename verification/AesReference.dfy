/** The cipher of FIPS 197 section 5.1, written cell by cell over (row, column), against the block
    transform of the FairPlay message cipher: the same rounds, with the round keys in the order of the
    first key, the nine middle keys and the last key. */
module AesReference {
  import opened Bytes
  import opened Gf256
  import opened FairPlayMessage

  /** Section 3.4: the state is filled column by column. */
  function Cell(s: Block, row: nat, column: nat): bv8
    requires row < 4 && column < 4
  {
    s[row + 4 * column]
  }

  /** Sections 5.1.1 and 5.1.2: a substituted byte of row r comes from r columns to the right. */
  function Moved(sbox: seq<bv8>, s: Block, row: nat, column: nat): bv8
    requires |sbox| == 256 && row < 4 && column < 4
  {
    Lookup(sbox, Cell(s, row, (column + row) % 4))
  }

  /** Section 5.1.3: the coefficients of row r are {02}, {03}, {01}, {01}, moved r places to the right. */
  function Coefficient(row: nat, i: nat): bv8
    requires row < 4 && i < 4
  {
    [2, 3, 1, 1][(i + 4 - row) % 4]
  }

  function MixedCell(sbox: seq<bv8>, s: Block, row: nat, column: nat): bv8
    requires |sbox| == 256 && row < 4 && column < 4
  {
    Plus(Plus(GfProduct(Moved(sbox, s, 0, column), Coefficient(row, 0)), GfProduct(Moved(sbox, s, 1, column), Coefficient(row, 1))),
         Plus(GfProduct(Moved(sbox, s, 2, column), Coefficient(row, 2)), GfProduct(Moved(sbox, s, 3, column), Coefficient(row, 3))))
  }

  /** One round but the last. */
  function Round(sbox: seq<bv8>, key: Block, s: Block): Block
    requires |sbox| == 256
  {
    seq(16, i requires 0 <= i < 16 => Plus(MixedCell(sbox, s, i % 4, i / 4), Cell(key, i % 4, i / 4)))
  }

  /** The state after the first key and n rounds. */
  function After(sbox: seq<bv8>, keys: seq<Block>, s: Block, n: nat): Block
    requires |sbox| == 256 && n < |keys|
  {
    if n == 0 then seq(16, i requires 0 <= i < 16 => Plus(s[i], keys[0][i]))
    else Round(sbox, keys[n], After(sbox, keys, s, n - 1))
  }

  /** The last round does not mix columns. */
  function LastRound(sbox: seq<bv8>, key: Block, s: Block): Block
    requires |sbox| == 256
  {
    seq(16, i requires 0 <= i < 16 => Plus(Moved(sbox, s, i % 4, i / 4), key[i]))
  }

  /** The whole cipher, with one round for each key but the first. */
  function Cipher(sbox: seq<bv8>, keys: seq<Block>, s: Block): Block
    requires |sbox| == 256 && |keys| > 1
  {
    LastRound(sbox, keys[|keys| - 1], After(sbox, keys, s, |keys| - 2))
  }

  // ---------- the block transform is that cipher ----------

  lemma MovedIs(sbox: seq<bv8>, s: Block, row: nat, column: nat)
    requires |sbox| == 256 && row < 4 && column < 4
    ensures ShiftRows(Substitute(sbox, s))[row + 4 * column] == Moved(sbox, s, row, column)
  {
    SourcesAreShifts(row, column);
    assert Index(row, column) == row + 4 * column;
  }

  lemma MixedIs(sbox: seq<bv8>, s: Block, column: nat)
    requires |sbox| == 256 && column < 4
    ensures ColumnAt(MixColumns(ShiftRows(Substitute(sbox, s))), column)
      == Column(MixedCell(sbox, s, 0, column), MixedCell(sbox, s, 1, column), MixedCell(sbox, s, 2, column), MixedCell(sbox, s, 3, column))
  {
    hide GfProduct, Plus, ShiftRows, Substitute, Moved, MixColumns;
    var x := ShiftRows(Substitute(sbox, s));
    MovedIs(sbox, s, 0, column);
    MovedIs(sbox, s, 1, column);
    MovedIs(sbox, s, 2, column);
    MovedIs(sbox, s, 3, column);
    assert ColumnAt(x, column) == Column(Moved(sbox, s, 0, column), Moved(sbox, s, 1, column), Moved(sbox, s, 2, column), Moved(sbox, s, 3, column));
  }

  lemma OneCell(s: Block, row: nat, column: nat)
    requires row < 4 && column < 4
    ensures var c := ColumnAt(s, column); s[row + 4 * column] == [c.a, c.b, c.c, c.d][row]
  {}

  lemma RoundIs(sbox: seq<bv8>, key: Block, s: Block)
    requires |sbox| == 256
    ensures Round(sbox, key, s) == XorBlock(MixColumns(ShiftRows(Substitute(sbox, s))), key)
  {
    hide MixedCell, MixColumns, ShiftRows, Substitute, Plus;
    var mixed := MixColumns(ShiftRows(Substitute(sbox, s)));
    forall i | 0 <= i < 16
      ensures Round(sbox, key, s)[i] == Plus(mixed[i], key[i])
    {
      var row, column := i % 4, i / 4;
      assert row + 4 * column == i;
      MixedIs(sbox, s, column);
      OneCell(mixed, row, column);
    }
  }

  lemma {:induction false} RoundsAre(sbox: seq<bv8>, keys: seq<Block>, s: Block, n: nat)
    requires |sbox| == 256 && n + 1 < |keys|
    ensures EncryptRounds(ShiftRows(Substitute(sbox, XorBlock(s, keys[0]))), keys[1..|keys| - 1], n, sbox)
      == ShiftRows(Substitute(sbox, After(sbox, keys, s, n)))
    decreases n
  {
    hide ShiftRows, Substitute, XorBlock, MixColumns, Round;
    if n == 0 {
      assert After(sbox, keys, s, 0) == XorBlock(s, keys[0]) by { StartIs(sbox, keys, s); }
    } else {
      RoundsAre(sbox, keys, s, n - 1);
      RoundIs(sbox, keys[n], After(sbox, keys, s, n - 1));
      assert keys[1..|keys| - 1][n - 1] == keys[n];
    }
  }

  lemma StartIs(sbox: seq<bv8>, keys: seq<Block>, s: Block)
    requires |sbox| == 256 && |keys| > 0
    ensures After(sbox, keys, s, 0) == XorBlock(s, keys[0])
  {
    hide Plus;
  }

  lemma LastRoundXor(sbox: seq<bv8>, key: Block, s: Block)
    requires |sbox| == 256
    ensures LastRound(sbox, key, s) == XorBlock(ShiftRows(Substitute(sbox, s)), key)
  {
    hide ShiftRows, Substitute, Plus, Moved;
    forall i | 0 <= i < 16
      ensures LastRound(sbox, key, s)[i] == XorBlock(ShiftRows(Substitute(sbox, s)), key)[i]
    {
      MovedIs(sbox, s, i % 4, i / 4);
      assert i % 4 + 4 * (i / 4) == i;
    }
  }

  /** The round keys in the order in which the cipher of section 5.1 takes them. */
  function Schedule(t: Tables, mode: nat): (keys: seq<Block>)
    requires t.Valid() && mode < MODE_COUNT
    ensures |keys| == 11
  {
    [t.roundKey0] + t.middleKeys[mode] + [t.roundKey10]
  }

  /** Block encryption is the cipher of section 5.1 under those keys, for every table, mode and block. */
  lemma EncryptIsCipher(t: Tables, mode: nat, s: Block, sbox: seq<bv8>)
    requires t.Valid() && mode < MODE_COUNT && |sbox| == 256
    ensures EncryptBlock(t, mode, s, sbox) == Cipher(sbox, [t.roundKey0] + t.middleKeys[mode] + [t.roundKey10], s)
  {
    hide ShiftRows, Substitute, XorBlock, EncryptRounds, After, Plus, Moved;
    var keys := Schedule(t, mode);
    assert keys[1..10] == t.middleKeys[mode] && keys[0] == t.roundKey0 && keys[10] == t.roundKey10;
    RoundsAre(sbox, keys, s, |keys| - 2);
    LastRoundXor(sbox, keys[10], After(sbox, keys, s, |keys| - 2));
  }

  /** The cipher of a message mode. */
  ghost function ModeCipher(t: Tables, mode: nat, s: Block): Block
    requires t.Valid() && mode < MODE_COUNT
  {
    Cipher(ForwardTable(t.invSbox), Schedule(t, mode), s)
  }

  /** And block decryption is its inverse, under the inverse of the substitution. */
  lemma DecryptIsInverse(t: Tables, mode: nat, s: Block)
    requires t.Valid() && mode < MODE_COUNT
    ensures DecryptBlock(t, mode, ModeCipher(t, mode, s)) == s
    ensures ModeCipher(t, mode, DecryptBlock(t, mode, s)) == s
  {
    hide EncryptBlock, DecryptBlock, Cipher;
    var sbox := ForwardTable(t.invSbox);
    BlockInverse(t, mode, s, sbox);
    EncryptIsCipher(t, mode, s, sbox);
    EncryptIsCipher(t, mode, DecryptBlock(t, mode, s), sbox);
  }

  /** A message is encrypted block by block with that cipher, each plaintext block first added to the
      ciphertext block before it, or to the mode's constant. */
  lemma MessageIsChained(t: Tables, mode: nat, plain: seq<bv8>, i: nat)
    requires t.Valid() && mode < MODE_COUNT && |plain| == BODY_SIZE && i < BLOCKS
    ensures var body := EncryptBody(t, mode, plain);
      BlockAt(body, i) == ModeCipher(t, mode, XorBlock(BlockAt(plain, i), if i == 0 then t.iv[mode] else BlockAt(body, i - 1)))
  {
    hide EncryptBlock, Cipher, EncryptBody, XorBlock;
    CipherBlock(t, mode, plain, i);
    var body := EncryptBody(t, mode, plain);
    EncryptIsCipher(t, mode, XorBlock(BlockAt(plain, i), if i == 0 then t.iv[mode] else BlockAt(body, i - 1)), ForwardTable(t.invSbox));
  }

  // ---------- differences in the outer keys ----------

  /** Flipping bits of the last key flips just those bits of the ciphertext. */
  lemma LastKeyDifference(t: Tables, mode: nat, s: Block, sbox: seq<bv8>, d: Block)
    requires t.Valid() && mode < MODE_COUNT && |sbox| == 256
    ensures EncryptBlock(t.(roundKey10 := XorBlock(t.roundKey10, d)), mode, s, sbox) == XorBlock(EncryptBlock(t, mode, s, sbox), d)
  {
    hide EncryptRounds, ShiftRows, Substitute, XorBlock;
    var first := ShiftRows(Substitute(sbox, XorBlock(s, t.roundKey0)));
    XorTwoKeys(EncryptRounds(first, t.middleKeys[mode], |t.middleKeys[mode]|, sbox), t.roundKey10, d);
  }

  lemma XorTwoKeys(s: Block, k: Block, d: Block)
    ensures XorBlock(s, XorBlock(k, d)) == XorBlock(XorBlock(s, k), d)
    ensures XorBlock(XorBlock(s, d), XorBlock(k, d)) == XorBlock(s, k)
  {
    hide Plus;
    forall i | 0 <= i < 16
      ensures Plus(s[i], Plus(k[i], d[i])) == Plus(Plus(s[i], k[i]), d[i])
      ensures Plus(Plus(s[i], d[i]), Plus(k[i], d[i])) == Plus(s[i], k[i])
    {
      PlusAssociates(s[i], k[i], d[i]);
      SameAdded(s[i], k[i], d[i]);
    }
  }

  lemma SameAdded(a: bv8, b: bv8, d: bv8)
    ensures Plus(Plus(a, d), Plus(b, d)) == Plus(a, b)
  {}

  /** Flipping the same bits of the first key and the plaintext changes nothing. */
  lemma FirstKeyDifference(t: Tables, mode: nat, s: Block, sbox: seq<bv8>, d: Block)
    requires t.Valid() && mode < MODE_COUNT && |sbox| == 256
    ensures EncryptBlock(t.(roundKey0 := XorBlock(t.roundKey0, d)), mode, XorBlock(s, d), sbox) == EncryptBlock(t, mode, s, sbox)
  {
    hide EncryptRounds, ShiftRows, Substitute, XorBlock;
    XorTwoKeys(s, t.roundKey0, d);
  }
}
