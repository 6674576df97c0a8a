/** The FairPlay message cipher: an AES-shaped block transform with its own round keys, in a CBC
    chain of eight blocks.  The state arrays are changed in place, as in the original; each method is
    tied to a function on sequences, and the two directions are proved inverse on those functions. */
module FairPlayMessage {
  import opened Bytes
  import opened Gf256

  type Block = s: seq<bv8> | |s| == 16 witness seq(16, _ => 0)

  const MODE_COUNT := 4
  const BLOCKS := 8
  const BODY_SIZE := 128

  /** The cipher's constant tables.  Nothing is assumed of the keys; of the inverse S-box only that
      it has no repeated entry, which FairPlayTables shows of the shipped one. */
  datatype Tables = Tables(
    invSbox: seq<bv8>,
    iv: seq<Block>,
    roundKey0: Block,
    roundKey10: Block,
    middleKeys: seq<seq<Block>>)
  {
    ghost predicate Valid() {
      && |invSbox| == 256
      && (forall i, j | 0 <= i < j < 256 :: invSbox[i] != invSbox[j])
      && |iv| == MODE_COUNT
      && |middleKeys| == MODE_COUNT
      && forall m | 0 <= m < MODE_COUNT :: |middleKeys[m]| == 9
    }
  }

  // ---------- S-boxes ----------

  function Lookup(table: seq<bv8>, b: bv8): bv8
    requires |table| == 256
  {
    table[b as int]
  }

  function Substitute(table: seq<bv8>, s: Block): (r: Block)
    requires |table| == 256
    ensures forall i | 0 <= i < 16 :: r[i] == Lookup(table, s[i])
  {
    seq(16, i requires 0 <= i < 16 => Lookup(table, s[i]))
  }

  ghost predicate Undoes(f: seq<bv8>, g: seq<bv8>)
    requires |f| == 256 && |g| == 256
  {
    forall b: bv8 :: Lookup(f, Lookup(g, b)) == b
  }

  /** The table that maps each entry of a permutation table back to its index. */
  ghost function ForwardTable(inv: seq<bv8>): (r: seq<bv8>)
    requires |inv| == 256
    requires forall i, j | 0 <= i < j < 256 :: inv[i] != inv[j]
    ensures |r| == 256
    ensures Undoes(r, inv) && Undoes(inv, r)
  {
    var r := seq(256, k requires 0 <= k < 256 => PreimageOf(inv, k) as bv8);
    assert forall i | 0 <= i < 256 :: r[inv[i] as int] == i as bv8 by {
      forall i | 0 <= i < 256
        ensures r[inv[i] as int] == i as bv8
      {
        IndexRoundTrip(inv[i]);
        IndexIsInjective(inv[PreimageOf(inv, inv[i] as int)], inv[i]);
      }
    }
    InverseTables(inv, r);
    r
  }

  ghost function PreimageOf(inv: seq<bv8>, k: int): (i: int)
    requires |inv| == 256 && 0 <= k < 256
    requires forall i, j | 0 <= i < j < 256 :: inv[i] != inv[j]
    ensures 0 <= i < 256 && inv[i] as int == k
  {
    HasPreimage(inv, k as bv8);
    ByteRoundTrip(k);
    var i :| 0 <= i < 256 && inv[i] == k as bv8;
    i
  }

  /** Inverts the permutation table, entry by entry. */
  method ForwardSbox(invSbox: seq<bv8>) returns (table: array<bv8>)
    requires |invSbox| == 256
    requires forall i, j | 0 <= i < j < 256 :: invSbox[i] != invSbox[j]
    ensures fresh(table) && table.Length == 256
    ensures table[..] == ForwardTable(invSbox)
  {
    table := new bv8[256](_ => 0);
    for encrypted := 0 to 256
      invariant forall i | 0 <= i < encrypted :: table[invSbox[i] as int] == i as bv8
    {
      forall i | 0 <= i < encrypted
        ensures invSbox[i] as int != invSbox[encrypted] as int
      {
        IndexIsInjective(invSbox[i], invSbox[encrypted]);
      }
      table[invSbox[encrypted] as int] := encrypted as bv8;
    }
    InverseTables(invSbox, table[..]);
    OnlyOneInverse(invSbox, table[..], ForwardTable(invSbox));
  }

  lemma OnlyOneInverse(inv: seq<bv8>, f: seq<bv8>, g: seq<bv8>)
    requires |inv| == 256 && |f| == 256 && |g| == 256
    requires Undoes(inv, f) && Undoes(g, inv)
    ensures f == g
  {
    forall k | 0 <= k < 256
      ensures f[k] == g[k]
    {
      ByteRoundTrip(k);
      var b := k as bv8;
      assert Lookup(g, Lookup(inv, Lookup(f, b))) == Lookup(f, b);
      assert Lookup(inv, Lookup(f, b)) == b;
    }
  }

  lemma IndexIsInjective(a: bv8, b: bv8)
    ensures a as int == b as int ==> a == b
  {}

  lemma IndexRoundTrip(b: bv8)
    ensures 0 <= b as int < 256 && (b as int) as bv8 == b
  {}

  lemma Successor(b: bv8)
    requires b != 0xff
    ensures (b + 1) as int == b as int + 1
  {}

  lemma NotTop(b: bv8)
    requires b as int < 255
    ensures b != 0xff
  {}

  /** Counting up reaches every byte value. */
  lemma {:induction false} ByteFor(i: nat) returns (b: bv8)
    requires i < 256
    ensures b as int == i
  {
    if i == 0 {
      b := 0;
    } else {
      var before := ByteFor(i - 1);
      NotTop(before);
      Successor(before);
      b := before + 1;
    }
  }

  lemma ByteRoundTrip(i: int)
    requires 0 <= i < 256
    ensures (i as bv8) as int == i
  {
    var b := ByteFor(i);
    IndexRoundTrip(b);
  }

  lemma InverseTables(inv: seq<bv8>, fwd: seq<bv8>)
    requires |inv| == 256 && |fwd| == 256
    requires forall i, j | 0 <= i < j < 256 :: inv[i] != inv[j]
    requires forall i | 0 <= i < 256 :: fwd[inv[i] as int] == i as bv8
    ensures Undoes(fwd, inv) && Undoes(inv, fwd)
  {
    forall b: bv8
      ensures Lookup(fwd, Lookup(inv, b)) == b
    {
      IndexRoundTrip(b);
    }
    forall b: bv8
      ensures Lookup(inv, Lookup(fwd, b)) == b
    {
      HasPreimage(inv, b);
      var i :| 0 <= i < 256 && inv[i] == b;
      ByteRoundTrip(i);
    }
  }

  function Indices(table: seq<bv8>): (r: seq<int>)
    ensures |r| == |table| && forall k | 0 <= k < |table| :: r[k] == table[k] as int
  {
    seq(|table|, k requires 0 <= k < |table| => table[k] as int)
  }

  lemma DistinctIndices(inv: seq<bv8>)
    requires forall i, j | 0 <= i < j < |inv| :: inv[i] != inv[j]
    ensures forall j, k | 0 <= j < k < |inv| :: Indices(inv)[j] != Indices(inv)[k]
  {
    forall j, k | 0 <= j < k < |inv|
      ensures Indices(inv)[j] != Indices(inv)[k]
    {
      IndexIsInjective(inv[j], inv[k]);
    }
  }

  lemma IndicesInRange(inv: seq<bv8>)
    requires |inv| == 256
    ensures Values(Indices(inv)) <= Range(|inv|)
  {
    forall x | x in Values(Indices(inv))
      ensures x in Range(|inv|)
    {
      var k :| 0 <= k < |inv| && Indices(inv)[k] == x;
      IndexRoundTrip(inv[k]);
    }
  }

  /** A table of 256 distinct bytes takes every value. */
  lemma HasPreimage(inv: seq<bv8>, b: bv8)
    requires |inv| == 256
    requires forall i, j | 0 <= i < j < 256 :: inv[i] != inv[j]
    ensures exists i :: 0 <= i < 256 && inv[i] == b
  {
    DistinctIndices(inv);
    DistinctCount(Indices(inv));
    IndicesInRange(inv);
    SubsetOfEqualSize(Values(Indices(inv)), Range(|inv|));
    IndexRoundTrip(b);
    assert b as int in Values(Indices(inv));
    var i :| 0 <= i < 256 && Indices(inv)[i] == b as int;
    IndexIsInjective(inv[i], b);
  }

  function Values(s: seq<int>): (r: set<int>)
    ensures forall x :: x in r <==> x in s
  {
    if s == [] then {}
    else
      assert s == s[..|s| - 1] + [s[|s| - 1]];
      Values(s[..|s| - 1]) + {s[|s| - 1]}
  }

  function Range(n: nat): (r: set<int>)
    ensures |r| == n
    ensures forall x :: x in r <==> 0 <= x < n
  {
    if n == 0 then {} else Range(n - 1) + {n - 1}
  }

  lemma {:induction false} DistinctCount(s: seq<int>)
    requires forall j, k | 0 <= j < k < |s| :: s[j] != s[k]
    ensures |Values(s)| == |s|
  {
    if s != [] {
      DistinctCount(s[..|s| - 1]);
      assert s[|s| - 1] !in s[..|s| - 1];
    }
  }

  lemma SubsetOfEqualSize(a: set<int>, b: set<int>)
    requires a <= b && |a| == |b|
    ensures a == b
  {
    assert b == a + (b - a);
    assert |b - a| == |b| - |a|;
  }

  // ---------- the steps of a round ----------

  function XorBlock(s: Block, k: Block): (r: Block)
    ensures forall i | 0 <= i < 16 :: r[i] == Plus(s[i], k[i])
  {
    seq(16, i requires 0 <= i < 16 => Plus(s[i], k[i]))
  }

  lemma XorBlockTwice(s: Block, k: Block)
    ensures XorBlock(XorBlock(s, k), k) == s
  {
    forall i | 0 <= i < 16
      ensures XorBlock(XorBlock(s, k), k)[i] == s[i]
    {
      PlusTwice(s[i], k[i]);
    }
  }

  lemma PlusTwice(a: bv8, b: bv8)
    ensures Plus(Plus(a, b), b) == a
  {}

  method XorRoundKey(state: array<bv8>, key: Block)
    requires state.Length == 16
    modifies state
    ensures state[..] == XorBlock(old(state[..]), key)
  {
    for i := 0 to 16
      invariant forall k | 0 <= k < i :: state[k] == Plus(old(state[k]), key[k])
      invariant forall k | i <= k < 16 :: state[k] == old(state[k])
    {
      state[i] := state[i] ^ key[i];
    }
  }

  method SubBytes(state: array<bv8>, table: seq<bv8>)
    requires state.Length == 16 && |table| == 256
    modifies state
    ensures state[..] == Substitute(table, old(state[..]))
  {
    for i := 0 to 16
      invariant forall k | 0 <= k < i :: state[k] == Lookup(table, old(state[k]))
      invariant forall k | i <= k < 16 :: state[k] == old(state[k])
    {
      state[i] := table[state[i] as int];
    }
  }

  lemma SubstituteUndoes(f: seq<bv8>, g: seq<bv8>, s: Block)
    requires |f| == 256 && |g| == 256 && Undoes(f, g)
    ensures Substitute(f, Substitute(g, s)) == s
  {
    forall i | 0 <= i < 16
      ensures Substitute(f, Substitute(g, s))[i] == s[i]
    {
      assert Lookup(f, Lookup(g, s[i])) == s[i];
    }
  }

  /** The state is stored by columns. */
  function Index(row: nat, column: nat): nat {
    4 * column + row
  }

  /** Where each cell comes from when row r moves left, or right, by r columns. */
  const LEFT_SOURCE: seq<nat> := [0, 5, 10, 15, 4, 9, 14, 3, 8, 13, 2, 7, 12, 1, 6, 11]
  const RIGHT_SOURCE: seq<nat> := [0, 13, 10, 7, 4, 1, 14, 11, 8, 5, 2, 15, 12, 9, 6, 3]

  function Permute(s: Block, source: seq<nat>): (r: Block)
    requires |source| == 16 && forall i | 0 <= i < 16 :: source[i] < 16
    ensures forall i | 0 <= i < 16 :: r[i] == s[source[i]]
  {
    seq(16, i requires 0 <= i < 16 => s[source[i]])
  }

  function ShiftRows(s: Block): Block {
    Permute(s, LEFT_SOURCE)
  }

  function InvShiftRows(s: Block): Block {
    Permute(s, RIGHT_SOURCE)
  }

  /** The tables are the row shifts of FIPS 197 sections 5.1.2 and 5.3.1. */
  lemma SourcesAreShifts(row: nat, column: nat)
    requires row < 4 && column < 4
    ensures LEFT_SOURCE[Index(row, column)] == Index(row, (column + row) % 4)
    ensures RIGHT_SOURCE[Index(row, column)] == Index(row, (column + 4 - row) % 4)
  {
    if column == 0 {
    } else if column == 1 {
    } else if column == 2 {
    } else {
    }
  }

  lemma ShiftRowsInverse(s: Block)
    ensures InvShiftRows(ShiftRows(s)) == s && ShiftRows(InvShiftRows(s)) == s
  {
    forall i | 0 <= i < 16
      ensures InvShiftRows(ShiftRows(s))[i] == s[i] && ShiftRows(InvShiftRows(s))[i] == s[i]
    {
      LeftAfterRight(i);
      RightAfterLeft(i);
    }
  }

  lemma LeftAfterRight(i: nat)
    requires i < 16
    ensures LEFT_SOURCE[RIGHT_SOURCE[i]] == i
  {}

  lemma RightAfterLeft(i: nat)
    requires i < 16
    ensures RIGHT_SOURCE[LEFT_SOURCE[i]] == i
  {}

  ghost predicate RowsDone(s: seq<bv8>, t: Block, rows: nat) {
    |s| == 16 && forall r: nat, c: nat {:trigger Index(r, c)} | r < rows && r < 4 && c < 4 :: s[Index(r, c)] == t[Index(r, c)]
  }

  lemma AllRowsDone(s: seq<bv8>, t: Block)
    requires RowsDone(s, t, 4)
    ensures s == t
  {
    forall i | 0 <= i < 16
      ensures s[i] == t[i]
    {
      var column := if i < 4 then 0 else if i < 8 then 1 else if i < 12 then 2 else 3;
      assert i == Index(i - 4 * column, column);
    }
  }

  method ShiftRowsInPlace(state: array<bv8>)
    requires state.Length == 16
    modifies state
    ensures state[..] == ShiftRows(old(state[..]))
  {
    var previous := state[..];
    for row := 0 to 4
      invariant RowsDone(state[..], ShiftRows(previous), row)
    {
      ShiftRowsRow(state, previous, row);
    }
    AllRowsDone(state[..], ShiftRows(previous));
  }

  /** The inner loop: one row, read from a copy of the whole state. */
  method ShiftRowsRow(state: array<bv8>, previous: Block, row: nat)
    requires state.Length == 16 && row < 4
    requires RowsDone(state[..], ShiftRows(previous), row)
    modifies state
    ensures RowsDone(state[..], ShiftRows(previous), row + 1)
  {
    ghost var target := ShiftRows(previous);
    for column := 0 to 4
      invariant RowsDone(state[..], target, row)
      invariant forall c: nat {:trigger Index(row, c)} | c < column :: state[Index(row, c)] == target[Index(row, c)]
    {
      SourcesAreShifts(row, column);
      state[4 * column + row] := previous[4 * ((column + row) % 4) + row];
    }
  }

  method InvShiftRowsInPlace(state: array<bv8>)
    requires state.Length == 16
    modifies state
    ensures state[..] == InvShiftRows(old(state[..]))
  {
    var previous := state[..];
    for row := 0 to 4
      invariant RowsDone(state[..], InvShiftRows(previous), row)
    {
      InvShiftRowsRow(state, previous, row);
    }
    AllRowsDone(state[..], InvShiftRows(previous));
  }

  /** The inner loop: one row, read from a copy of the whole state. */
  method InvShiftRowsRow(state: array<bv8>, previous: Block, row: nat)
    requires state.Length == 16 && row < 4
    requires RowsDone(state[..], InvShiftRows(previous), row)
    modifies state
    ensures RowsDone(state[..], InvShiftRows(previous), row + 1)
  {
    ghost var target := InvShiftRows(previous);
    for column := 0 to 4
      invariant RowsDone(state[..], target, row)
      invariant forall c: nat {:trigger Index(row, c)} | c < column :: state[Index(row, c)] == target[Index(row, c)]
    {
      SourcesAreShifts(row, column);
      state[4 * column + row] := previous[4 * ((column + 4 - row) % 4) + row];
    }
  }

  // ---------- column mixing ----------

  function ColumnAt(s: seq<bv8>, j: nat): Column
    requires |s| == 16 && j < 4
  {
    Column(s[4 * j], s[4 * j + 1], s[4 * j + 2], s[4 * j + 3])
  }

  function ColumnBytes(c: Column): seq<bv8> {
    [c.a, c.b, c.c, c.d]
  }

  function FromColumns(c: seq<Column>): (s: Block)
    requires |c| == 4
    ensures forall j: nat | j < 4 :: ColumnAt(s, j) == c[j]
  {
    ColumnBytes(c[0]) + ColumnBytes(c[1]) + ColumnBytes(c[2]) + ColumnBytes(c[3])
  }

  function EachColumn(s: Block, f: Column -> Column): (r: Block)
    ensures forall j: nat | j < 4 :: ColumnAt(r, j) == f(ColumnAt(s, j))
  {
    FromColumns(seq(4, j requires 0 <= j < 4 => f(ColumnAt(s, j))))
  }

  function MixColumns(s: Block): (r: Block)
    ensures forall j: nat | j < 4 :: ColumnAt(r, j) == MixColumn(ColumnAt(s, j))
  {
    EachColumn(s, MixColumn)
  }

  function InvMixColumns(s: Block): (r: Block)
    ensures forall j: nat | j < 4 :: ColumnAt(r, j) == InvMixColumn(ColumnAt(s, j))
  {
    EachColumn(s, InvMixColumn)
  }

  lemma SameColumns(s: Block, t: Block)
    requires forall j: nat | j < 4 :: ColumnAt(s, j) == ColumnAt(t, j)
    ensures s == t
  {
    assert ColumnAt(s, 0) == ColumnAt(t, 0) && ColumnAt(s, 1) == ColumnAt(t, 1);
    assert ColumnAt(s, 2) == ColumnAt(t, 2) && ColumnAt(s, 3) == ColumnAt(t, 3);
    forall i | 0 <= i < 16
      ensures s[i] == t[i]
    {}
  }

  lemma MixColumnsInverse(s: Block)
    ensures InvMixColumns(MixColumns(s)) == s && MixColumns(InvMixColumns(s)) == s
  {
    hide MixColumn, InvMixColumn;
    forall j: nat | j < 4
      ensures ColumnAt(InvMixColumns(MixColumns(s)), j) == ColumnAt(s, j)
      ensures ColumnAt(MixColumns(InvMixColumns(s)), j) == ColumnAt(s, j)
    {
      MixColumnInverse(ColumnAt(s, j));
    }
    SameColumns(InvMixColumns(MixColumns(s)), s);
    SameColumns(MixColumns(InvMixColumns(s)), s);
  }

  lemma XorFour(p: bv8, q: bv8, r: bv8, s: bv8)
    ensures p ^ q ^ r ^ s == Plus(Plus(p, q), Plus(r, s))
  {}

  method MixOneColumn(x: Column) returns (y: Column)
    ensures y == MixColumn(x)
  {
    hide GfProduct, Plus;
    ProductByOne(x.a); ProductByOne(x.b); ProductByOne(x.c); ProductByOne(x.d);
    var p := GfMul(x.a, 2);
    var q := GfMul(x.b, 3);
    XorFour(p, q, x.c, x.d);
    var y0 := p ^ q ^ x.c ^ x.d;
    p := GfMul(x.b, 2);
    q := GfMul(x.c, 3);
    XorFour(x.a, p, q, x.d);
    var y1 := x.a ^ p ^ q ^ x.d;
    p := GfMul(x.c, 2);
    q := GfMul(x.d, 3);
    XorFour(x.a, x.b, p, q);
    var y2 := x.a ^ x.b ^ p ^ q;
    p := GfMul(x.a, 3);
    q := GfMul(x.d, 2);
    XorFour(p, x.b, x.c, q);
    var y3 := p ^ x.b ^ x.c ^ q;
    y := Column(y0, y1, y2, y3);
  }

  method CombineColumn(k: Column, x: Column) returns (y: bv8)
    ensures y == RowTimes(k, x)
  {
    hide GfProduct, Plus;
    var p := GfMul(x.a, k.a);
    var q := GfMul(x.b, k.b);
    var r := GfMul(x.c, k.c);
    var s := GfMul(x.d, k.d);
    XorFour(p, q, r, s);
    y := p ^ q ^ r ^ s;
  }

  method MixColumnsInPlace(state: array<bv8>)
    requires state.Length == 16
    modifies state
    ensures state[..] == MixColumns(old(state[..]))
  {
    hide MixColumn;
    ghost var before: Block := state[..];
    for column := 0 to 4
      invariant forall j: nat | j < column :: ColumnAt(state[..], j) == MixColumn(ColumnAt(before, j))
      invariant forall j: nat | column <= j < 4 :: ColumnAt(state[..], j) == ColumnAt(before, j)
    {
      var offset := column * 4;
      var x := Column(state[offset], state[offset + 1], state[offset + 2], state[offset + 3]);
      assert x == ColumnAt(before, column);
      var y := MixOneColumn(x);
      WriteColumn(state, column, y);
    }
    SameColumns(state[..], MixColumns(before));
  }

  method InvMixColumnsInPlace(state: array<bv8>)
    requires state.Length == 16
    modifies state
    ensures state[..] == InvMixColumns(old(state[..]))
  {
    hide RowTimes;
    ghost var before: Block := state[..];
    for column := 0 to 4
      invariant forall j: nat | j < column :: ColumnAt(state[..], j) == InvMixColumn(ColumnAt(before, j))
      invariant forall j: nat | column <= j < 4 :: ColumnAt(state[..], j) == ColumnAt(before, j)
    {
      var offset := column * 4;
      var x := Column(state[offset], state[offset + 1], state[offset + 2], state[offset + 3]);
      assert x == ColumnAt(before, column);
      var y0 := CombineColumn(Column(14, 11, 13, 9), x);
      var y1 := CombineColumn(Column(9, 14, 11, 13), x);
      var y2 := CombineColumn(Column(13, 9, 14, 11), x);
      var y3 := CombineColumn(Column(11, 13, 9, 14), x);
      WriteColumn(state, column, Column(y0, y1, y2, y3));
    }
    SameColumns(state[..], InvMixColumns(before));
  }

  method WriteColumn(state: array<bv8>, column: nat, y: Column)
    requires state.Length == 16 && column < 4
    modifies state
    ensures ColumnAt(state[..], column) == y
    ensures forall j: nat | j < 4 && j != column :: ColumnAt(state[..], j) == old(ColumnAt(state[..], j))
  {
    var offset := column * 4;
    state[offset] := y.a;
    state[offset + 1] := y.b;
    state[offset + 2] := y.c;
    state[offset + 3] := y.d;
  }

  // ---------- one block ----------

  function EncryptRound(s: Block, key: Block, sbox: seq<bv8>): Block
    requires |sbox| == 256
  {
    ShiftRows(Substitute(sbox, XorBlock(MixColumns(s), key)))
  }

  function DecryptRound(s: Block, key: Block, invSbox: seq<bv8>): Block
    requires |invSbox| == 256
  {
    InvMixColumns(XorBlock(Substitute(invSbox, InvShiftRows(s)), key))
  }

  /** The first n middle rounds, and their reversal. */
  function EncryptRounds(s: Block, keys: seq<Block>, n: nat, sbox: seq<bv8>): Block
    requires n <= |keys| && |sbox| == 256
  {
    if n == 0 then s else EncryptRound(EncryptRounds(s, keys, n - 1, sbox), keys[n - 1], sbox)
  }

  function DecryptRounds(s: Block, keys: seq<Block>, n: nat, invSbox: seq<bv8>): Block
    requires n <= |keys| && |invSbox| == 256
    decreases n
  {
    if n == 0 then s else DecryptRounds(DecryptRound(s, keys[n - 1], invSbox), keys, n - 1, invSbox)
  }

  function EncryptBlock(t: Tables, mode: nat, s: Block, sbox: seq<bv8>): Block
    requires t.Valid() && mode < MODE_COUNT && |sbox| == 256
  {
    var first := ShiftRows(Substitute(sbox, XorBlock(s, t.roundKey0)));
    XorBlock(EncryptRounds(first, t.middleKeys[mode], |t.middleKeys[mode]|, sbox), t.roundKey10)
  }

  function DecryptBlock(t: Tables, mode: nat, s: Block): Block
    requires t.Valid() && mode < MODE_COUNT
  {
    var keys := t.middleKeys[mode];
    var middle := DecryptRounds(XorBlock(s, t.roundKey10), keys, |keys|, t.invSbox);
    XorBlock(Substitute(t.invSbox, InvShiftRows(middle)), t.roundKey0)
  }

  lemma RoundInverse(s: Block, key: Block, sbox: seq<bv8>, invSbox: seq<bv8>)
    requires |sbox| == 256 && |invSbox| == 256
    requires Undoes(sbox, invSbox) && Undoes(invSbox, sbox)
    ensures DecryptRound(EncryptRound(s, key, sbox), key, invSbox) == s
    ensures EncryptRound(DecryptRound(s, key, invSbox), key, sbox) == s
  {
    hide ShiftRows, InvShiftRows, Substitute, XorBlock, MixColumns, InvMixColumns;
    var mixed := XorBlock(MixColumns(s), key);
    ShiftRowsInverse(Substitute(sbox, mixed));
    SubstituteUndoes(invSbox, sbox, mixed);
    XorBlockTwice(MixColumns(s), key);
    MixColumnsInverse(s);
    var unshifted := Substitute(invSbox, InvShiftRows(s));
    MixColumnsInverse(XorBlock(unshifted, key));
    XorBlockTwice(unshifted, key);
    SubstituteUndoes(sbox, invSbox, InvShiftRows(s));
    ShiftRowsInverse(s);
  }

  lemma {:induction false} RoundsInverse(s: Block, keys: seq<Block>, n: nat, sbox: seq<bv8>, invSbox: seq<bv8>)
    requires n <= |keys| && |sbox| == 256 && |invSbox| == 256
    requires Undoes(sbox, invSbox) && Undoes(invSbox, sbox)
    ensures DecryptRounds(EncryptRounds(s, keys, n, sbox), keys, n, invSbox) == s
    ensures EncryptRounds(DecryptRounds(s, keys, n, invSbox), keys, n, sbox) == s
    decreases n
  {
    hide EncryptRound, DecryptRound;
    if n > 0 {
      RoundInverse(EncryptRounds(s, keys, n - 1, sbox), keys[n - 1], sbox, invSbox);
      RoundsInverse(s, keys, n - 1, sbox, invSbox);
      RoundsInverse(DecryptRound(s, keys[n - 1], invSbox), keys, n - 1, sbox, invSbox);
      RoundInverse(s, keys[n - 1], sbox, invSbox);
    }
  }

  lemma BlockInverse(t: Tables, mode: nat, s: Block, sbox: seq<bv8>)
    requires t.Valid() && mode < MODE_COUNT && |sbox| == 256
    requires Undoes(sbox, t.invSbox) && Undoes(t.invSbox, sbox)
    ensures DecryptBlock(t, mode, EncryptBlock(t, mode, s, sbox)) == s
    ensures EncryptBlock(t, mode, DecryptBlock(t, mode, s), sbox) == s
  {
    hide ShiftRows, InvShiftRows, Substitute, XorBlock, EncryptRounds, DecryptRounds;
    var keys := t.middleKeys[mode];
    var start := XorBlock(s, t.roundKey0);
    var first := ShiftRows(Substitute(sbox, start));
    XorBlockTwice(EncryptRounds(first, keys, |keys|, sbox), t.roundKey10);
    RoundsInverse(first, keys, |keys|, sbox, t.invSbox);
    ShiftRowsInverse(Substitute(sbox, start));
    SubstituteUndoes(t.invSbox, sbox, start);
    XorBlockTwice(s, t.roundKey0);
    var last := XorBlock(s, t.roundKey10);
    var middle := DecryptRounds(last, keys, |keys|, t.invSbox);
    XorBlockTwice(Substitute(t.invSbox, InvShiftRows(middle)), t.roundKey0);
    SubstituteUndoes(sbox, t.invSbox, InvShiftRows(middle));
    ShiftRowsInverse(middle);
    RoundsInverse(last, keys, |keys|, sbox, t.invSbox);
    XorBlockTwice(s, t.roundKey10);
  }

  method EncryptBlockInPlace(t: Tables, state: array<bv8>, mode: nat, sbox: seq<bv8>)
    requires t.Valid() && state.Length == 16 && mode < MODE_COUNT && |sbox| == 256
    modifies state
    ensures state[..] == EncryptBlock(t, mode, old(state[..]), sbox)
  {
    hide ShiftRows, Substitute, XorBlock, MixColumns;
    XorRoundKey(state, t.roundKey0);
    SubBytes(state, sbox);
    ShiftRowsInPlace(state);
    ghost var first: Block := state[..];
    for round := 0 to 9
      invariant state[..] == EncryptRounds(first, t.middleKeys[mode], round, sbox)
    {
      MixColumnsInPlace(state);
      XorRoundKey(state, t.middleKeys[mode][round]);
      SubBytes(state, sbox);
      ShiftRowsInPlace(state);
    }
    XorRoundKey(state, t.roundKey10);
  }

  method DecryptBlockInPlace(t: Tables, state: array<bv8>, mode: nat)
    requires t.Valid() && state.Length == 16 && mode < MODE_COUNT
    modifies state
    ensures state[..] == DecryptBlock(t, mode, old(state[..]))
  {
    hide InvShiftRows, Substitute, XorBlock, InvMixColumns;
    XorRoundKey(state, t.roundKey10);
    ghost var keys, all := t.middleKeys[mode], DecryptRounds(state[..], t.middleKeys[mode], |t.middleKeys[mode]|, t.invSbox);
    for round := 10 downto 1
      invariant DecryptRounds(state[..], keys, round - 1, t.invSbox) == all
    {
      InvShiftRowsInPlace(state);
      SubBytes(state, t.invSbox);
      XorRoundKey(state, t.middleKeys[mode][round - 1]);
      InvMixColumnsInPlace(state);
    }
    InvShiftRowsInPlace(state);
    SubBytes(state, t.invSbox);
    XorRoundKey(state, t.roundKey0);
  }

  // ---------- messages ----------

  function BlockAt(s: seq<bv8>, i: nat): Block
    requires 16 * i + 16 <= |s|
  {
    s[16 * i..16 * i + 16]
  }

  function Join(blocks: seq<Block>): (s: seq<bv8>)
    ensures |s| == 16 * |blocks|
    ensures forall i: nat | i < |blocks| :: BlockAt(s, i) == blocks[i]
  {
    if blocks == [] then []
    else
      var n := |blocks| - 1;
      var front := Join(blocks[..n]);
      var s := front + blocks[n];
      assert forall i: nat | i < n :: BlockAt(s, i) == BlockAt(front, i);
      s
  }

  lemma SameBlocks(s: seq<bv8>, t: seq<bv8>)
    requires |s| == |t| == BODY_SIZE
    requires forall i: nat | i < BLOCKS :: BlockAt(s, i) == BlockAt(t, i)
    ensures s == t
  {
    forall k | 0 <= k < BODY_SIZE
      ensures s[k] == t[k]
    {
      var i := k / 16;
      assert BlockAt(s, i)[k - 16 * i] == BlockAt(t, i)[k - 16 * i];
    }
  }

  /** What block i of a ciphertext is chained with. */
  function Chain(t: Tables, mode: nat, body: seq<bv8>, i: nat): Block
    requires t.Valid() && mode < MODE_COUNT && |body| == BODY_SIZE && i < BLOCKS
  {
    if i > 0 then BlockAt(body, i - 1) else t.iv[mode]
  }

  function DecryptBody(t: Tables, mode: nat, body: seq<bv8>): (plain: seq<bv8>)
    requires t.Valid() && mode < MODE_COUNT && |body| == BODY_SIZE
    ensures |plain| == BODY_SIZE
  {
    Join(PlainBlocks(t, mode, body, |body| / 16))
  }

  function PlainBlocks(t: Tables, mode: nat, body: seq<bv8>, n: nat): (blocks: seq<Block>)
    requires t.Valid() && mode < MODE_COUNT && |body| == BODY_SIZE && n <= BLOCKS
    ensures |blocks| == n
  {
    seq(n, i requires 0 <= i < n => PlainBlock(t, mode, body, i))
  }

  lemma DecryptBodyAt(t: Tables, mode: nat, body: seq<bv8>)
    requires t.Valid() && mode < MODE_COUNT && |body| == BODY_SIZE
    ensures forall i: nat | i < BLOCKS :: BlockAt(DecryptBody(t, mode, body), i) == PlainBlock(t, mode, body, i)
  {
    hide PlainBlock;
  }

  function PlainBlock(t: Tables, mode: nat, body: seq<bv8>, i: nat): Block
    requires t.Valid() && mode < MODE_COUNT && |body| == BODY_SIZE && i < BLOCKS
  {
    XorBlock(DecryptBlock(t, mode, BlockAt(body, i)), Chain(t, mode, body, i))
  }

  /** The first n ciphertext blocks. */
  function EncryptBlocks(t: Tables, mode: nat, plain: seq<bv8>, n: nat, sbox: seq<bv8>): (blocks: seq<Block>)
    requires t.Valid() && mode < MODE_COUNT && |plain| == BODY_SIZE && n <= BLOCKS && |sbox| == 256
    ensures |blocks| == n
  {
    if n == 0 then []
    else
      var front := EncryptBlocks(t, mode, plain, n - 1, sbox);
      var chain := if n == 1 then t.iv[mode] else front[n - 2];
      front + [EncryptBlock(t, mode, XorBlock(BlockAt(plain, n - 1), chain), sbox)]
  }

  ghost function EncryptBody(t: Tables, mode: nat, plain: seq<bv8>): (body: seq<bv8>)
    requires t.Valid() && mode < MODE_COUNT && |plain| == BODY_SIZE
    ensures |body| == BODY_SIZE
  {
    Join(EncryptBlocks(t, mode, plain, |plain| / 16, ForwardTable(t.invSbox)))
  }

  lemma {:induction false} EncryptBlocksPrefix(t: Tables, mode: nat, plain: seq<bv8>, m: nat, n: nat, sbox: seq<bv8>)
    requires t.Valid() && mode < MODE_COUNT && |plain| == BODY_SIZE && m <= n <= BLOCKS && |sbox| == 256
    ensures EncryptBlocks(t, mode, plain, n, sbox)[..m] == EncryptBlocks(t, mode, plain, m, sbox)
    decreases n
  {
    hide EncryptBlock, XorBlock;
    if m < n {
      EncryptBlocksPrefix(t, mode, plain, m, n - 1, sbox);
    }
  }

  lemma EncryptBlocksAt(t: Tables, mode: nat, plain: seq<bv8>, i: nat, sbox: seq<bv8>)
    requires t.Valid() && mode < MODE_COUNT && |plain| == BODY_SIZE && i < BLOCKS && |sbox| == 256
    ensures var all := EncryptBlocks(t, mode, plain, |plain| / 16, sbox);
      all[i] == EncryptBlock(t, mode, XorBlock(BlockAt(plain, i), if i > 0 then all[i - 1] else t.iv[mode]), sbox)
  {
    hide EncryptBlock, XorBlock;
    var all := EncryptBlocks(t, mode, plain, |plain| / 16, sbox);
    EncryptBlocksPrefix(t, mode, plain, i + 1, |plain| / 16, sbox);
    EncryptBlocksPrefix(t, mode, plain, i, |plain| / 16, sbox);
    assert all[i] == all[..i + 1][i];
    if i > 0 {
      assert all[i - 1] == all[..i][i - 1];
    }
  }

  /** Each ciphertext block encrypts its plaintext block xored with the ciphertext block before it. */
  lemma CipherBlock(t: Tables, mode: nat, plain: seq<bv8>, i: nat)
    requires t.Valid() && mode < MODE_COUNT && |plain| == BODY_SIZE && i < BLOCKS
    ensures var body := EncryptBody(t, mode, plain);
      BlockAt(body, i) == EncryptBlock(t, mode, XorBlock(BlockAt(plain, i), Chain(t, mode, body, i)), ForwardTable(t.invSbox))
  {
    hide EncryptBlock, XorBlock, ForwardTable;
    EncryptBlocksAt(t, mode, plain, i, ForwardTable(t.invSbox));
  }

  /** Decryption undoes encryption, for every mode and every 128-byte value. */
  lemma DecryptAfterEncrypt(t: Tables, mode: nat, plain: seq<bv8>)
    requires t.Valid() && mode < MODE_COUNT && |plain| == BODY_SIZE
    ensures DecryptBody(t, mode, EncryptBody(t, mode, plain)) == plain
  {
    hide EncryptBlock, DecryptBlock, XorBlock, ForwardTable, EncryptBody;
    var body, sbox := EncryptBody(t, mode, plain), ForwardTable(t.invSbox);
    forall i: nat | i < BLOCKS
      ensures PlainBlock(t, mode, body, i) == BlockAt(plain, i)
    {
      CipherBlock(t, mode, plain, i);
      var chain := Chain(t, mode, body, i);
      BlockInverse(t, mode, XorBlock(BlockAt(plain, i), chain), sbox);
      XorBlockTwice(BlockAt(plain, i), chain);
    }
    DecryptBodyAt(t, mode, body);
    SameBlocks(DecryptBody(t, mode, body), plain);
  }

  /** Encryption undoes decryption, for every mode and every 128-byte ciphertext. */
  lemma EncryptAfterDecrypt(t: Tables, mode: nat, body: seq<bv8>)
    requires t.Valid() && mode < MODE_COUNT && |body| == BODY_SIZE
    ensures EncryptBody(t, mode, DecryptBody(t, mode, body)) == body
  {
    hide EncryptBlock, DecryptBlock, XorBlock, ForwardTable, EncryptBody;
    var plain := DecryptBody(t, mode, body);
    var again := EncryptBody(t, mode, plain);
    DecryptBodyAt(t, mode, body);
    for i := 0 to BLOCKS
      invariant forall j: nat | j < i :: BlockAt(again, j) == BlockAt(body, j)
    {
      CipherBlock(t, mode, plain, i);
      assert Chain(t, mode, again, i) == Chain(t, mode, body, i);
      assert BlockAt(plain, i) == PlainBlock(t, mode, body, i);
      XorBlockTwice(DecryptBlock(t, mode, BlockAt(body, i)), Chain(t, mode, body, i));
      BlockInverse(t, mode, BlockAt(body, i), ForwardTable(t.invSbox));
    }
    SameBlocks(again, body);
  }

  /** The blocks that the first `steps` iterations of the decryption loop have produced. */
  predicate Visited(mode: nat, block: int, steps: int) {
    if mode == 3 then block >= BLOCKS - steps else block < steps
  }

  /** Decrypts bytes 16..144 of a record.  Mode 3 walks the chain backwards. */
  method DecryptMessage(t: Tables, message: seq<bv8>, plaintext: array<bv8>)
    requires t.Valid() && |message| >= 144 && plaintext.Length == BODY_SIZE
    requires message[12] as nat < MODE_COUNT
    modifies plaintext
    ensures plaintext[..] == DecryptBody(t, message[12] as nat, message[16..144])
  {
    hide XorBlock, DecryptBlock;
    var mode := message[12] as nat;
    ghost var body := message[16..144];
    for step := 0 to BLOCKS
      invariant forall b: nat | b < BLOCKS && Visited(mode, b, step) ::
        BlockAt(plaintext[..], b) == PlainBlock(t, mode, body, b)
    {
      var block := if mode == 3 then 7 - step else step;
      DecryptOneBlock(t, message, body, mode, block, plaintext);
    }
    DecryptBodyAt(t, mode, body);
    SameBlocks(plaintext[..], DecryptBody(t, mode, body));
  }

  /** The body of the decryption loop. */
  method DecryptOneBlock(t: Tables, message: seq<bv8>, ghost body: seq<bv8>, mode: nat, block: nat, plaintext: array<bv8>)
    requires t.Valid() && |message| >= 144 && plaintext.Length == BODY_SIZE && mode < MODE_COUNT && block < BLOCKS
    requires body == message[16..144]
    modifies plaintext
    ensures BlockAt(plaintext[..], block) == PlainBlock(t, mode, body, block)
    ensures OnlyBlockChanged(old(plaintext[..]), plaintext[..], block)
  {
    hide DecryptBlock;
    BodyBlocks(message, block);
    var start := 16 + block * 16;
    var state := new bv8[16](i requires 0 <= i < 16 => message[start + i]);
    assert state[..] == BlockAt(body, block);
    DecryptBlockInPlace(t, state, mode);
    var chain := if block > 0 then message[start - 16..start] else t.iv[mode];
    var decrypted := state[..];
    ghost var before, plain := plaintext[..], XorBlock(decrypted, chain);
    for i := 0 to 16
      invariant forall k | 0 <= k < i :: plaintext[16 * block + k] == plain[k]
      invariant forall k | 0 <= k < BODY_SIZE && !(16 * block <= k < 16 * block + i) :: plaintext[k] == before[k]
    {
      plaintext[block * 16 + i] := decrypted[i] ^ chain[i];
    }
    BlockWritten(before, plaintext[..], block, plain);
  }

  lemma BodyBlocks(message: seq<bv8>, block: nat)
    requires |message| >= 144 && block < BLOCKS
    ensures BlockAt(message[16..144], block) == message[16 + 16 * block..32 + 16 * block]
    ensures block > 0 ==> BlockAt(message[16..144], block - 1) == message[16 * block..16 + 16 * block]
  {
    SliceOfSlice(message, 16, 144, 16 * block, 16 * block + 16);
    if block > 0 {
      SliceOfSlice(message, 16, 144, 16 * (block - 1), 16 * (block - 1) + 16);
    }
  }

  lemma SliceOfSlice(s: seq<bv8>, a: nat, b: nat, c: nat, d: nat)
    requires a <= b <= |s| && c <= d <= b - a
    ensures s[a..b][c..d] == s[a + c..a + d]
  {
    assert |s[a..b]| == b - a;
    assert forall k | c <= k < d :: s[a..b][k] == s[a + k];
  }

  ghost predicate OnlyBlockChanged(before: seq<bv8>, after: seq<bv8>, block: nat) {
    && |before| == |after| == BODY_SIZE
    && forall b: nat | b < BLOCKS && b != block :: BlockAt(after, b) == BlockAt(before, b)
  }

  lemma BlockWritten(before: seq<bv8>, after: seq<bv8>, block: nat, written: Block)
    requires |before| == |after| == BODY_SIZE && block < BLOCKS
    requires forall k | 0 <= k < 16 :: after[16 * block + k] == written[k]
    requires forall k | 0 <= k < BODY_SIZE && !(16 * block <= k < 16 * block + 16) :: after[k] == before[k]
    ensures BlockAt(after, block) == written
    ensures OnlyBlockChanged(before, after, block)
  {
    forall b: nat | b < BLOCKS && b != block
      ensures BlockAt(after, b) == BlockAt(before, b)
    {
      forall k | 0 <= k < 16
        ensures BlockAt(after, b)[k] == BlockAt(before, b)[k]
      {
        assert after[16 * b + k] == before[16 * b + k];
      }
    }
  }

  lemma BodyIs(t: Tables, mode: nat, plain: seq<bv8>, sbox: seq<bv8>, body: seq<bv8>)
    requires t.Valid() && mode < MODE_COUNT && |plain| == BODY_SIZE && sbox == ForwardTable(t.invSbox) && |body| == BODY_SIZE
    requires forall b: nat | b < BLOCKS :: BlockAt(body, b) == EncryptBlocks(t, mode, plain, |plain| / 16, sbox)[b]
    ensures body == EncryptBody(t, mode, plain)
  {
    hide EncryptBlocks, ForwardTable, BlockAt;
    SameBlocks(body, EncryptBody(t, mode, plain));
  }

  /** Rejects an unknown mode; otherwise fills `encrypted` with the chained ciphertext. */
  method EncryptMessage(t: Tables, mode: bv8, plaintext: seq<bv8>, encrypted: array<bv8>) returns (r: Result<()>)
    requires t.Valid() && |plaintext| == BODY_SIZE && encrypted.Length == BODY_SIZE
    modifies encrypted
    ensures r.Ok? <==> mode as nat < MODE_COUNT
    ensures encrypted[..] == if r.Ok? then EncryptBody(t, mode as nat, plaintext) else old(encrypted[..])
  {
    hide EncryptBlock, XorBlock, ForwardTable, BlockAt, EncryptBody, EncryptBlocks;
    var m := mode as nat;
    if m >= MODE_COUNT {
      return Err;
    }
    var table := ForwardSbox(t.invSbox);
    var sbox := table[..];
    var chain: Block := t.iv[m];
    ghost var all := EncryptBlocks(t, m, plaintext, |plaintext| / 16, sbox);
    for block := 0 to BLOCKS
      invariant chain == if block > 0 then all[block - 1] else t.iv[m]
      invariant forall b: nat | b < block :: BlockAt(encrypted[..], b) == all[b]
    {
      EncryptBlocksAt(t, m, plaintext, block, sbox);
      chain := EncryptOneBlock(t, plaintext, m, block, sbox, chain, encrypted);
    }
    BodyIs(t, m, plaintext, sbox, encrypted[..]);
    r := Ok(());
  }

  /** The body of the encryption loop; returns the next chain value. */
  method EncryptOneBlock(t: Tables, plaintext: seq<bv8>, mode: nat, block: nat, sbox: seq<bv8>, chain: Block, encrypted: array<bv8>)
    returns (next: Block)
    requires t.Valid() && |plaintext| == BODY_SIZE && encrypted.Length == BODY_SIZE
    requires mode < MODE_COUNT && block < BLOCKS && |sbox| == 256
    modifies encrypted
    ensures next == EncryptBlock(t, mode, XorBlock(BlockAt(plaintext, block), chain), sbox)
    ensures BlockAt(encrypted[..], block) == next
    ensures OnlyBlockChanged(old(encrypted[..]), encrypted[..], block)
  {
    hide EncryptBlock;
    ghost var before := encrypted[..];
    var start := block * 16;
    var state := new bv8[16](_ => 0);
    for i := 0 to 16
      invariant forall k | 0 <= k < i :: state[k] == Plus(plaintext[start + k], chain[k])
      invariant encrypted[..] == before
    {
      state[i] := plaintext[start + i] ^ chain[i];
    }
    assert state[..] == XorBlock(BlockAt(plaintext, block), chain);
    EncryptBlockInPlace(t, state, mode, sbox);
    next := state[..];
    for i := 0 to 16
      invariant forall k | 0 <= k < i :: encrypted[16 * block + k] == next[k]
      invariant forall k | 0 <= k < BODY_SIZE && !(16 * block <= k < 16 * block + i) :: encrypted[k] == before[k]
    {
      encrypted[start + i] := next[i];
    }
    BlockWritten(before, encrypted[..], block, next);
  }
}
