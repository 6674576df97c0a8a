/** The video stream cipher: AES in counter mode, whose last partial block of keystream is carried from
    one frame to the next. */
module MirrorCipher {
  import opened Bytes

  const BLOCK := 16

  function Mask(a: bv8, b: bv8): bv8 {
    a ^ b
  }

  lemma MaskTwice(a: bv8, b: bv8)
    ensures Mask(Mask(a, b), b) == a
  {}

  lemma MaskZero(b: bv8)
    ensures Mask(0, b) == b
  {}

  // ---------- what a run does ----------

  /** The frame under the keystream bytes from position q on. */
  function Masked(keystream: nat -> bv8, q: nat, frame: seq<bv8>): (out: seq<bv8>)
    ensures |out| == |frame|
    ensures forall i | 0 <= i < |frame| :: out[i] == Mask(frame[i], keystream(q + i))
  {
    seq(|frame|, i requires 0 <= i < |frame| => Mask(frame[i], keystream(q + i)))
  }

  /** How much of the current keystream block is left. */
  function Carry(q: nat): (c: nat)
    ensures c < BLOCK && (q + c) % BLOCK == 0
  {
    (BLOCK - q % BLOCK) % BLOCK
  }

  function WholeBlocks(length: nat): (n: nat)
    ensures n <= length < n + BLOCK && n % BLOCK == 0
  {
    length / BLOCK * BLOCK
  }

  /** A frame shorter than what is left of the block loses the rest of that block. */
  function NextPosition(q: nat, length: nat): nat {
    if length < Carry(q) then q + Carry(q) else q + length
  }

  function Run(keystream: nat -> bv8, q: nat, frames: seq<seq<bv8>>): (out: seq<seq<bv8>>)
    ensures |out| == |frames|
    decreases |frames|
  {
    if frames == [] then []
    else [Masked(keystream, q, frames[0])] + Run(keystream, NextPosition(q, |frames[0]|), frames[1..])
  }

  /** Where frame k of a run starts. */
  function Start(q: nat, frames: seq<seq<bv8>>, k: nat): nat
    requires k <= |frames|
    decreases k
  {
    if k == 0 then q else NextPosition(Start(q, frames, k - 1), |frames[k - 1]|)
  }

  function Total(frames: seq<seq<bv8>>): nat {
    |Concat(frames)|
  }

  lemma {:induction false} StartOfTail(q: nat, frames: seq<seq<bv8>>, k: nat)
    requires k < |frames|
    ensures Start(q, frames, k + 1) == Start(NextPosition(q, |frames[0]|), frames[1..], k)
    decreases k
  {
    if k > 0 {
      StartOfTail(q, frames, k - 1);
    }
  }

  /** Byte i of frame k is xored with keystream byte Start(k) + i, whatever the lengths. */
  lemma {:induction false} RunAt(keystream: nat -> bv8, q: nat, frames: seq<seq<bv8>>, k: nat)
    requires k < |frames|
    ensures Run(keystream, q, frames)[k] == Masked(keystream, Start(q, frames, k), frames[k])
    decreases |frames|
  {
    if k > 0 {
      RunAt(keystream, NextPosition(q, |frames[0]|), frames[1..], k - 1);
      StartOfTail(q, frames, k - 1);
    }
  }

  /** No keystream byte is used twice: frame j ends before frame k starts. */
  lemma {:induction false} NoKeystreamReuse(q: nat, frames: seq<seq<bv8>>, j: nat, k: nat)
    requires j < k <= |frames|
    ensures Start(q, frames, j) + |frames[j]| <= Start(q, frames, k)
    decreases k
  {
    if j < k - 1 {
      NoKeystreamReuse(q, frames, j, k - 1);
    }
  }

  predicate Short(q: nat, frames: seq<seq<bv8>>, j: nat)
    requires j < |frames|
  {
    |frames[j]| < Carry(Start(q, frames, j))
  }

  lemma {:induction false} TotalGrows(frames: seq<seq<bv8>>, k: nat)
    requires k < |frames|
    ensures Total(frames[..k + 1]) == Total(frames[..k]) + |frames[k]|
  {
    assert frames[..k + 1] == frames[..k] + [frames[k]];
    ConcatAppend(frames[..k], [frames[k]]);
    assert Concat([frames[k]]) == frames[k];
  }

  /** Frame k starts where plain counter mode over the concatenation would be, or later; it is the same
      place exactly when no earlier frame was short. */
  lemma {:induction false} PlainCounterMode(q: nat, frames: seq<seq<bv8>>, k: nat)
    requires k <= |frames|
    ensures Start(q, frames, k) >= q + Total(frames[..k])
    ensures Start(q, frames, k) == q + Total(frames[..k]) <==> forall j: nat | j < k :: !Short(q, frames, j)
    decreases k
  {
    if k > 0 {
      PlainCounterMode(q, frames, k - 1);
      TotalGrows(frames, k - 1);
      assert (forall j: nat | j < k :: !Short(q, frames, j)) <==>
        (forall j: nat | j < k - 1 :: !Short(q, frames, j)) && !Short(q, frames, k - 1);
    }
  }

  /** Without short frames the output is counter mode over the whole stream. */
  lemma {:induction false} ConcatenationMasked(keystream: nat -> bv8, q: nat, frames: seq<seq<bv8>>)
    requires forall j: nat | j < |frames| :: !Short(q, frames, j)
    ensures Concat(Run(keystream, q, frames)) == Masked(keystream, q, Concat(frames))
    decreases |frames|
  {
    if frames != [] {
      var rest, q' := frames[1..], NextPosition(q, |frames[0]|);
      assert !Short(q, frames, 0);
      forall j: nat | j < |rest|
        ensures !Short(q', rest, j)
      {
        StartOfTail(q, frames, j);
        assert !Short(q, frames, j + 1);
      }
      ConcatenationMasked(keystream, q', rest);
      var out := Run(keystream, q, frames);
      assert out[1..] == Run(keystream, q', rest);
      MaskedAppend(keystream, q, frames[0], Concat(rest));
    }
  }

  lemma MaskedAppend(keystream: nat -> bv8, q: nat, a: seq<bv8>, b: seq<bv8>)
    ensures Masked(keystream, q, a + b) == Masked(keystream, q, a) + Masked(keystream, q + |a|, b)
  {
    hide Mask;
  }

  lemma MaskedSplit(keystream: nat -> bv8, q: nat, s: seq<bv8>, n: nat)
    requires n <= |s|
    ensures Masked(keystream, q, s) == Masked(keystream, q, s[..n]) + Masked(keystream, q + n, s[n..])
  {
    hide Mask, Masked;
    MaskedAppend(keystream, q, s[..n], s[n..]);
    assert s == s[..n] + s[n..];
  }

  /** A second run with the same key, over the ciphertext, gives every frame back. */
  lemma {:induction false} RunTwice(keystream: nat -> bv8, q: nat, frames: seq<seq<bv8>>)
    ensures Run(keystream, q, Run(keystream, q, frames)) == frames
    decreases |frames|
  {
    if frames != [] {
      var first, out := Masked(keystream, q, frames[0]), Run(keystream, q, frames);
      MaskedTwice(keystream, q, frames[0]);
      RunTwice(keystream, NextPosition(q, |frames[0]|), frames[1..]);
      assert out[0] == first && out[1..] == Run(keystream, NextPosition(q, |frames[0]|), frames[1..]);
    }
  }

  lemma MaskedTwice(keystream: nat -> bv8, q: nat, frame: seq<bv8>)
    ensures Masked(keystream, q, Masked(keystream, q, frame)) == frame
  {
    hide Mask;
    forall i | 0 <= i < |frame|
      ensures Masked(keystream, q, Masked(keystream, q, frame))[i] == frame[i]
    {
      MaskTwice(frame[i], keystream(q + i));
    }
  }

  // ---------- the cipher ----------

  class MirrorCipher {
    /** The key's counter-mode keystream, by byte position. */
    const keystream: nat -> bv8
    var used: nat
    var blockOffset: nat
    var og: seq<bv8>
    var nextCryptCount: nat

    /** The cache's unread end is the keystream just before the generator's position; what was read of
        it may be anything.  The block offset never leaves 0. */
    ghost predicate Valid()
      reads this
    {
      && blockOffset == 0 && used % BLOCK == 0
      && |og| == BLOCK && nextCryptCount < BLOCK && nextCryptCount <= used
      && forall i | BLOCK - nextCryptCount <= i < BLOCK :: og[i] == keystream(used - BLOCK + i)
    }

    /** The next keystream byte to use. */
    ghost function Position(): nat
      reads this
      requires Valid()
    {
      used - nextCryptCount
    }

    constructor (keystream: nat -> bv8)
      ensures Valid() && this.keystream == keystream && Position() == 0
    {
      this.keystream := keystream;
      used := 0;
      blockOffset := 0;
      og := seq(16, _ => 0);
      nextCryptCount := 0;
    }

    /** The counter-mode generator: xors the next keystream bytes into data. */
    method ApplyKeystream(data: array<bv8>)
      modifies this`used, data
      ensures data[..] == Masked(keystream, old(used), old(data[..]))
      ensures used == old(used) + data.Length
    {
      hide Mask;
      for i := 0 to data.Length
        invariant used == old(used)
        invariant forall k | 0 <= k < i :: data[k] == Mask(old(data[k]), keystream(old(used) + k))
        invariant forall k | i <= k < data.Length :: data[k] == old(data[k])
      {
        data[i] := Mask(data[i], keystream(used + i));
      }
      used := used + data.Length;
    }

    method EncryptFrame(payload: seq<bv8>) returns (r: seq<bv8>)
      requires Valid()
      modifies this
      ensures Valid()
      ensures r == Masked(keystream, old(Position()), payload)
      ensures Position() == NextPosition(old(Position()), |payload|)
    {
      hide Mask;
      ghost var q, from := Position(), used;
      var prefix := UseCarry(payload);
      var pos := |prefix|;
      var rest := EncryptRest(payload[pos..]);
      r := prefix + rest;
      assert |prefix| < |payload| ==> from == q + |prefix|;
      Assemble(q, from, payload, prefix, rest);
      PositionAfter(q, |payload|, |prefix|);
    }

    /** What follows the cached keystream: whole blocks, then a partial one. */
    method EncryptRest(payload: seq<bv8>) returns (r: seq<bv8>)
      requires Valid()
      modifies this
      ensures Valid()
      ensures r == Masked(keystream, old(used), payload)
      ensures Position() == old(used) + |payload|
    {
      hide Mask, Masked, WholeBlocks;
      AdvanceToBlock();
      var fullBlocks := WholeBlocks(|payload|);
      assert (used + fullBlocks) % BLOCK == 0;
      var middle := EncryptBlocks(payload[..fullBlocks]);
      nextCryptCount := 0;
      var tail := EncryptTail(payload[fullBlocks..]);
      r := middle + tail;
      MaskedSplit(keystream, old(used), payload, fullBlocks);
    }

    /** Throws away the generator's output up to its next block. */
    method AdvanceToBlock()
      requires blockOffset < BLOCK
      modifies this
      ensures blockOffset == 0 && used == if old(blockOffset) > 0 then old(used) + BLOCK - old(blockOffset) else old(used)
      ensures og == old(og) && nextCryptCount == old(nextCryptCount)
    {
      if blockOffset > 0 {
        var waste := new bv8[16 - blockOffset](_ => 0);
        ApplyKeystream(waste);
        blockOffset := 0;
      }
    }

    method EncryptBlocks(blocks: seq<bv8>) returns (out: seq<bv8>)
      modifies this`used
      ensures out == Masked(keystream, old(used), blocks)
      ensures used == old(used) + |blocks|
    {
      out := [];
      if |blocks| > 0 {
        var data := new bv8[|blocks|](i requires 0 <= i < |blocks| => blocks[i]);
        assert data[..] == blocks;
        ApplyKeystream(data);
        out := data[..];
      }
    }

    /** The bytes that the cached keystream covers. */
    method UseCarry(payload: seq<bv8>) returns (prefix: seq<bv8>)
      requires Valid()
      ensures var n := if nextCryptCount < |payload| then nextCryptCount else |payload|;
        prefix == Masked(keystream, Position(), payload[..n])
    {
      hide Mask;
      prefix := [];
      if nextCryptCount > 0 {
        var n := if nextCryptCount < |payload| then nextCryptCount else |payload|;
        var start := 16 - nextCryptCount;
        for i := 0 to n
          invariant prefix == Masked(keystream, Position(), payload[..i])
        {
          prefix := prefix + [Mask(payload[i], og[start + i])];
        }
      }
    }

    /** The last, partial block: it is padded with zeros, so its unused end is bare keystream. */
    method EncryptTail(rest: seq<bv8>) returns (tail: seq<bv8>)
      requires Valid() && nextCryptCount == 0 && |rest| < BLOCK
      modifies this
      ensures Valid()
      ensures tail == Masked(keystream, old(used), rest)
      ensures Position() == old(used) + |rest|
    {
      hide Mask;
      tail := [];
      if |rest| > 0 {
        var padded := new bv8[16](i requires 0 <= i < 16 => if i < |rest| then rest[i] else 0);
        ApplyKeystream(padded);
        tail := padded[..|rest|];
        og := padded[..];
        forall i | |rest| <= i < 16
          ensures og[i] == keystream(used - BLOCK + i)
        {
          MaskZero(keystream(old(used) + i));
        }
        nextCryptCount := 16 - |rest|;
        blockOffset := 0;
      }
    }

    /** The two parts are one run of keystream. */
    lemma Assemble(q: nat, from: nat, payload: seq<bv8>, prefix: seq<bv8>, rest: seq<bv8>)
      requires |prefix| + |rest| == |payload|
      requires prefix == Masked(keystream, q, payload[..|prefix|])
      requires rest == Masked(keystream, from, payload[|prefix|..])
      requires |prefix| < |payload| ==> from == q + |prefix|
      ensures prefix + rest == Masked(keystream, q, payload)
    {
      hide Mask;
    }
  }

  lemma PositionAfter(q: nat, length: nat, prefix: nat)
    requires prefix == if Carry(q) < length then Carry(q) else length
    ensures NextPosition(q, length) == q + Carry(q) + (length - prefix)
  {}

  /** Encrypts a sequence of frames with one cipher and decrypts with another of the same key. */
  method RoundTrip(keystream: nat -> bv8, frames: seq<seq<bv8>>) returns (recovered: seq<seq<bv8>>)
    ensures recovered == frames
  {
    var sender := new MirrorCipher(keystream);
    var receiver := new MirrorCipher(keystream);
    recovered := [];
    for k := 0 to |frames|
      invariant fresh(sender) && fresh(receiver) && sender != receiver
      invariant sender.Valid() && receiver.Valid()
      invariant sender.keystream == receiver.keystream && sender.Position() == receiver.Position()
      invariant recovered == frames[..k]
    {
      ghost var q := sender.Position();
      var encrypted := sender.EncryptFrame(frames[k]);
      var decrypted := receiver.EncryptFrame(encrypted);
      MaskedTwice(sender.keystream, q, frames[k]);
      recovered := recovered + [decrypted];
    }
  }
}
