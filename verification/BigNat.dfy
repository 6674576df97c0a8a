/** Unsigned big integers as the SRP code uses them: big-endian bytes and modular powers. */
module BigNat {
  import opened Bytes

  // ---------- bytes ----------

  function FromBytes(b: seq<byte>): nat {
    if b == [] then 0 else FromBytes(b[..|b| - 1]) * 256 + b[|b| - 1]
  }

  /** The natural representation: no leading zero byte, except that zero is one zero byte. */
  function ToBytes(n: nat): (b: seq<byte>)
    ensures |b| > 0
  {
    if n < 256 then [n] else ToBytes(n / 256) + [n % 256]
  }

  function Zeros(n: nat): (z: seq<byte>)
    ensures |z| == n && forall i | 0 <= i < n :: z[i] == 0
  {
    seq(n, _ => 0)
  }

  function PadTo(data: seq<byte>, size: nat): (r: seq<byte>)
    ensures |r| == if |data| >= size then |data| else size
  {
    if |data| >= size then data else Zeros(size - |data|) + data
  }

  lemma {:induction false} FromToBytes(n: nat)
    ensures FromBytes(ToBytes(n)) == n
  {
    if n >= 256 {
      FromToBytes(n / 256);
      assert ToBytes(n)[..|ToBytes(n)| - 1] == ToBytes(n / 256);
    }
  }

  lemma {:induction false} LeadingZeros(k: nat, b: seq<byte>)
    ensures FromBytes(Zeros(k) + b) == FromBytes(b)
    decreases k + |b|
  {
    var all := Zeros(k) + b;
    if b != [] {
      assert all[..|all| - 1] == Zeros(k) + b[..|b| - 1];
      LeadingZeros(k, b[..|b| - 1]);
    } else if k > 0 {
      assert all[..|all| - 1] == Zeros(k - 1) + [];
      LeadingZeros(k - 1, []);
    }
  }

  /** Padding does not change the number. */
  lemma FromPadded(n: nat, size: nat)
    ensures FromBytes(PadTo(ToBytes(n), size)) == n
  {
    FromToBytes(n);
    if |ToBytes(n)| < size {
      LeadingZeros(size - |ToBytes(n)|, ToBytes(n));
    }
  }

  /** The natural representation of n needs at most k bytes exactly when n < 256^k. */
  lemma {:induction false} NaturalLength(n: nat, k: nat)
    requires k > 0
    ensures |ToBytes(n)| <= k <==> n < Pow(256, k)
    decreases k
  {
    if k == 1 {
      assert Pow(256, 1) == 256 * Pow(256, 0);
    } else if n < 256 {
      NaturalLength(n, k - 1);
    } else {
      NaturalLength(n / 256, k - 1);
    }
  }

  // ---------- powers ----------

  function Pow(b: nat, e: nat): nat {
    if e == 0 then 1 else b * Pow(b, e - 1)
  }

  function ModPow(b: nat, e: nat, n: nat): (r: nat)
    requires n > 0
    ensures r < n
  {
    Pow(b, e) % n
  }

  lemma {:induction false} PowAdd(b: nat, x: nat, y: nat)
    ensures Pow(b, x + y) == Pow(b, x) * Pow(b, y)
    decreases x
  {
    if x > 0 {
      PowAdd(b, x - 1, y);
      assert Pow(b, x + y) == b * Pow(b, x - 1 + y);
      MulAssociates(b, Pow(b, x - 1), Pow(b, y));
    }
  }

  lemma {:induction false} PowPow(b: nat, x: nat, y: nat)
    ensures Pow(Pow(b, x), y) == Pow(b, x * y)
    decreases y
  {
    if y == 0 {
      assert x * 0 == 0;
    } else {
      PowPow(b, x, y - 1);
      assert x * y == x + x * (y - 1);
      PowAdd(b, x, x * (y - 1));
    }
  }

  lemma MulAssociates(a: nat, b: nat, c: nat)
    ensures (a * b) * c == a * (b * c)
  {}

  // ---------- congruence ----------

  lemma AddMultiple(x: nat, k: nat, n: nat)
    requires n > 0
    ensures (x + k * n) % n == x % n
    decreases k
  {
    if k > 0 {
      AddMultiple(x, k - 1, n);
      var y := x + (k - 1) * n;
      assert x + k * n == y + n;
      AddOnce(y, n);
    }
  }

  lemma AddOnce(y: nat, n: nat)
    requires n > 0
    ensures (y + n) % n == y % n
  {
    var q, r := y / n, y % n;
    assert y + n == (q + 1) * n + r;
    QuotientUnique(y + n, n, q + 1, r);
  }

  lemma QuotientUnique(x: nat, n: nat, q: nat, r: nat)
    requires n > 0 && x == q * n + r && r < n
    ensures x % n == r
  {
    var q', r' := x / n, x % n;
    Distribute(q', q, n);
    if q' > q {
      AtLeastOnce(q' - q, n);
    } else if q' < q {
      AtLeastOnce(q - q', n);
      Distribute(q, q', n);
    }
  }

  lemma Distribute(a: int, b: int, n: int)
    ensures (a - b) * n == a * n - b * n
  {}

  lemma AtLeastOnce(d: nat, n: nat)
    requires d > 0
    ensures d * n >= n
  {}

  lemma ModMul(a: nat, b: nat, n: nat)
    requires n > 0
    ensures ((a % n) * b) % n == (a * b) % n
  {
    var q, r := a / n, a % n;
    calc {
      a * b;
      (q * n + r) * b;
      { MulAssociates(q, n, b); MulAssociates(q, b, n); assert n * b == b * n; }
      r * b + (q * b) * n;
    }
    AddMultiple(r * b, q * b, n);
  }

  lemma ModTwice(a: nat, n: nat)
    requires n > 0
    ensures (a % n) % n == a % n
  {
    QuotientUnique(a % n, n, 0, a % n);
  }

  /** Powers of congruent bases are congruent. */
  lemma {:induction false} ModPowReduce(b: nat, e: nat, n: nat)
    requires n > 0
    ensures ModPow(b % n, e, n) == ModPow(b, e, n)
    decreases e
  {
    if e > 0 {
      var p, p' := Pow(b, e - 1), Pow(b % n, e - 1);
      ModPowReduce(b, e - 1, n);
      calc {
        ((b % n) * p') % n;
        { ModMul(b, p', n); }
        (b * p') % n;
        { ModMul(p', b, n); assert b * p' == p' * b; }
        ((p' % n) * b) % n;
        ((p % n) * b) % n;
        { ModMul(p, b, n); }
        (p * b) % n;
      }
      assert p * b == b * p;
    }
  }

  lemma ModPowCongruent(a: nat, b: nat, e: nat, n: nat)
    requires n > 0 && a % n == b % n
    ensures ModPow(a, e, n) == ModPow(b, e, n)
  {
    ModPowReduce(a, e, n);
    ModPowReduce(b, e, n);
  }
}
