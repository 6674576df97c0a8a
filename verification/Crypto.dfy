/** The cryptographic library calls, as uninterpreted functions with only their functional laws. */
module Crypto {
  import opened Bytes

  datatype Suite = Suite(
    hash: seq<byte> -> seq<byte>,
    hkdf: (seq<byte>, string, string) -> seq<byte>,
    // key, nonce, associated data, plaintext or sealed text
    seal: (seq<byte>, seq<byte>, seq<byte>, seq<byte>) -> seq<byte>,
    unseal: (seq<byte>, seq<byte>, seq<byte>, seq<byte>) -> Option<seq<byte>>,
    signPublic: seq<byte> -> seq<byte>,
    sign: (seq<byte>, seq<byte>) -> seq<byte>,
    // public key, message, signature
    checkSignature: (seq<byte>, seq<byte>, seq<byte>) -> bool,
    dhPublic: seq<byte> -> seq<byte>,
    dhShared: (seq<byte>, seq<byte>) -> seq<byte>,
    // bytes of the text that a lossy UTF-8 conversion yields
    lossyText: seq<byte> -> seq<byte>)
  {
    ghost predicate LawfulSizes() {
      && (forall m :: |hash(m)| == 64)
      && (forall k, s, i :: |hkdf(k, s, i)| == 32)
      && (forall s :: |signPublic(s)| == 32)
      && (forall s, m :: |sign(s, m)| == 64)
      && (forall s :: |dhPublic(s)| == 32)
      && (forall k, n, a, p :: |seal(k, n, a, p)| == |p| + TAG_SIZE)
    }

    ghost predicate LawfulInverses() {
      && (forall k, n, a, p :: unseal(k, n, a, seal(k, n, a, p)) == Some(p))
      && (forall s, m :: checkSignature(signPublic(s), m, sign(s, m)))
      && (forall x, y :: dhShared(x, dhPublic(y)) == dhShared(y, dhPublic(x)))
    }

    ghost predicate Lawful() {
      LawfulSizes() && LawfulInverses()
    }
  }

  const TAG_SIZE := 16

  /** A suite without any secrecy, whose hash is the same number for every message. */
  function PlainSuite(): Suite {
    Suite(
      m => Fill(63) + [1],
      (k, s, i) => Fill(32),
      (k, n, a, p) => p + Fill(TAG_SIZE),
      (k, n, a, p) => if |p| < TAG_SIZE then None else Some(p[..|p| - TAG_SIZE]),
      s => Fill(32),
      (s, m) => Fill(64),
      (k, m, s) => true,
      s => Fill(32),
      (x, y) => Fill(32),
      t => t)
  }

  /** The laws can be met together. */
  lemma LawsAreConsistent()
    ensures PlainSuite().Lawful()
  {
    var c := PlainSuite();
    assert c.LawfulSizes();
    forall k, n, a, p
      ensures c.unseal(k, n, a, c.seal(k, n, a, p)) == Some(p)
    {
      assert (p + Fill(TAG_SIZE))[..|p|] == p;
    }
  }

  function Fill(n: nat): (r: seq<byte>)
    ensures |r| == n
  {
    seq(n, _ => 0)
  }

  function Ascii(s: string): (b: seq<byte>)
    ensures |b| == |s|
  {
    seq(|s|, i requires 0 <= i < |s| => (s[i] as int) % 256)
  }

  /** Four zero bytes and an eight-byte label. */
  function LabelNonce(text: string): seq<byte> {
    Fill(4) + Ascii(text)
  }
}
