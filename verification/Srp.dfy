/** SRP-6a: the client of pairing.rs and the server of receiver/pairing.rs, over any modulus and
    generator.  The two sides compute their secret by different routes. */
module Srp {
  import opened BigNat
  import opened Bytes
  import opened Crypto

  const KEY_SIZE := 384
  const PROOF_SIZE := 64
  const USERNAME := "Pair-Setup"

  datatype Group = Group(n: nat, g: nat) {
    ghost predicate Valid() {
      1 < n < Pow(256, KEY_SIZE)
    }
  }

  // ---------- shared by both sides ----------

  function X(c: Suite, username: seq<byte>, password: seq<byte>, salt: seq<byte>): nat {
    FromBytes(c.hash(salt + c.hash(username + Ascii(":") + password)))
  }

  function Multiplier(c: Suite, grp: Group): nat {
    FromBytes(c.hash(PadTo(ToBytes(grp.n), KEY_SIZE) + PadTo(ToBytes(grp.g), KEY_SIZE)))
  }

  function U(c: Suite, clientPublic: seq<byte>, serverPublic: seq<byte>): nat {
    FromBytes(c.hash(PadTo(clientPublic, KEY_SIZE) + PadTo(serverPublic, KEY_SIZE)))
  }

  /** K: the hash of the natural representation of S. */
  function SessionKey(c: Suite, s: nat): seq<byte> {
    c.hash(ToBytes(s))
  }

  function XorBytes(a: seq<byte>, b: seq<byte>): seq<byte>
    requires |a| == |b|
  {
    seq(|a|, i requires 0 <= i < |a| => ((a[i] as bv8) ^ (b[i] as bv8)) as int)
  }

  /** M1, over the natural representations of A and B. */
  function ClientProof(c: Suite, grp: Group, salt: seq<byte>, clientPublic: seq<byte>, serverPublic: seq<byte>, key: seq<byte>): seq<byte>
    requires |c.hash(ToBytes(grp.n))| == |c.hash(ToBytes(grp.g))|
  {
    c.hash(XorBytes(c.hash(ToBytes(grp.n)), c.hash(ToBytes(grp.g)))
           + c.hash(Ascii(USERNAME)) + salt + clientPublic + serverPublic + key)
  }

  function ServerProof(c: Suite, clientPublic: seq<byte>, proof: seq<byte>, key: seq<byte>): seq<byte> {
    c.hash(clientPublic + proof + key)
  }

  // ---------- client ----------

  function ClientPublic(grp: Group, a: nat): nat
    requires grp.n > 0
  {
    ModPow(grp.g, a, grp.n)
  }

  /** (B - k * g^x) ^ (a + u * x) mod N, adding N first when the difference would be negative. */
  function ClientSecret(grp: Group, k: nat, b: nat, a: nat, x: nat, u: nat): nat
    requires grp.n > 0
  {
    var kgx := (k * ModPow(grp.g, x, grp.n)) % grp.n;
    var diff := if b >= kgx then b - kgx else b + grp.n - kgx;
    ModPow(diff, u * x + a, grp.n)
  }

  // ---------- server ----------

  function Verifier(grp: Group, x: nat): nat
    requires grp.n > 0
  {
    ModPow(grp.g, x, grp.n)
  }

  function ServerPublic(grp: Group, k: nat, v: nat, b: nat): (r: nat)
    requires grp.n > 0
    ensures r < grp.n
  {
    ((k * v) % grp.n + ModPow(grp.g, b, grp.n)) % grp.n
  }

  /** (A * v^u) ^ b mod N. */
  function ServerSecret(grp: Group, clientPublic: nat, v: nat, u: nat, b: nat): nat
    requires grp.n > 0
  {
    ModPow((clientPublic * ModPow(v, u, grp.n)) % grp.n, b, grp.n)
  }

  // ---------- agreement ----------

  /** What the client subtracts leaves a number congruent to g^b. */
  lemma DifferenceIsServerPower(grp: Group, k: nat, x: nat, b: nat)
    requires grp.n > 0
    ensures var n, v := grp.n, Verifier(grp, x);
      var kgx, pub := (k * v) % n, ServerPublic(grp, k, v, b);
      (if pub >= kgx then pub - kgx else pub + n - kgx) % n == Pow(grp.g, b) % n
  {
    var n, v := grp.n, Verifier(grp, x);
    var kgx, pub, gb := (k * v) % n, ServerPublic(grp, k, v, b), ModPow(grp.g, b, n);
    // kgx + gb is below 2n, so the sum wraps at most once
    if kgx + gb < n {
      QuotientUnique(kgx + gb, n, 0, kgx + gb);
    } else {
      QuotientUnique(kgx + gb, n, 1, kgx + gb - n);
    }
    assert gb == if pub >= kgx then pub - kgx else pub + n - kgx;
    ModTwice(Pow(grp.g, b), n);
  }

  /** Both sides derive the same secret, whatever the salt, password and private values. */
  lemma SecretsAgree(grp: Group, k: nat, x: nat, a: nat, b: nat, u: nat)
    requires grp.n > 0
    ensures var v := Verifier(grp, x);
      ClientSecret(grp, k, ServerPublic(grp, k, v, b), a, x, u)
      == ServerSecret(grp, ClientPublic(grp, a), v, u, b)
  {
    var n, g, v := grp.n, grp.g, Verifier(grp, x);
    var pub := ServerPublic(grp, k, v, b);
    var kgx := (k * v) % n;
    var diff := if pub >= kgx then pub - kgx else pub + n - kgx;
    var e := u * x + a;
    ClientSide(g, n, diff, b, e, k, x);
    ServerSide(g, n, a, x, u, b);
    assert b * e == e * b;
    DifferenceIsServerPower(grp, k, x, b);
  }

  lemma ClientSide(g: nat, n: nat, diff: nat, b: nat, e: nat, k: nat, x: nat)
    requires n > 0
    ensures diff % n == Pow(g, b) % n ==> ModPow(diff, e, n) == Pow(g, b * e) % n
  {
    if diff % n == Pow(g, b) % n {
      ModPowCongruent(diff, Pow(g, b), e, n);
      PowPow(g, b, e);
    }
  }

  lemma ServerSide(g: nat, n: nat, a: nat, x: nat, u: nat, b: nat)
    requires n > 0
    ensures ModPow((ModPow(g, a, n) * ModPow(ModPow(g, x, n), u, n)) % n, b, n) == Pow(g, (u * x + a) * b) % n
  {
    var ga, vu := Pow(g, a), Pow(g, x * u);
    // v^u is g^(x*u)
    ModPowReduce(Pow(g, x), u, n);
    PowPow(g, x, u);
    // A * v^u is g^(a + x*u)
    ModMul(ga, vu % n, n);
    ModMul(vu, ga, n);
    assert ga * (vu % n) == (vu % n) * ga && vu * ga == ga * vu;
    PowAdd(g, a, x * u);
    assert a + x * u == u * x + a;
    // and the b-th power
    ModPowReduce(Pow(g, u * x + a), b, n);
    PowPow(g, u * x + a, b);
  }
}
