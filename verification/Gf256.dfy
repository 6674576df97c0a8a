/** The field GF(2^8) of FIPS 197 section 4, over machine bytes.

    `XTime` is multiplication by the polynomial x (section 4.2.1), and `GfProduct` adds up the
    multiples x^i * a for the set bits of the other factor.  `ProductIsPolynomialRemainder` connects
    that to the definition in section 4.2: multiply as polynomials over GF(2), then take the
    remainder modulo m(x) = x^8 + x^4 + x^3 + x + 1.

    Exclusive-or on bit-vectors is decided bit by bit, so the proofs below keep the sums short and
    hide the definitions they do not need. */
module Gf256 {

  function XTime(a: bv8): bv8 {
    if a & 0x80 != 0 then (a << 1) ^ 0x1b else a << 1
  }

  function When(b: bv8, bit: bv8, a: bv8): bv8 {
    if b & bit != 0 then a else 0
  }

  /** The product of two field elements: the sum of x^i * a over the set bits i of b. */
  function GfProduct(a: bv8, b: bv8): bv8
    decreases b
  {
    if b == 0 then 0 else When(b, 1, a) ^ GfProduct(XTime(a), b >> 1)
  }

  // ---------- multiplication loop ----------

  /** What the loop below still owes: the sum so far plus the product of what is left. */
  ghost function Pending(sum: bv8, a: bv8, b: bv8): bv8 {
    sum ^ GfProduct(a, b)
  }

  /** Russian-peasant multiplication, as the cipher does it. */
  method GfMul(x: bv8, y: bv8) returns (product: bv8)
    ensures product == GfProduct(x, y)
  {
    hide GfProduct, Pending, XTime;
    var a, b := x, y;
    product := 0;
    PendingStart(a, b);
    while b != 0
      invariant Pending(product, a, b) == GfProduct(x, y)
      decreases b
    {
      PendingStep(product, a, b);
      if b & 1 != 0 {
        product := product ^ a;
      }
      a := Double(a);
      b := b >> 1;
    }
    PendingDone(product, a);
  }

  /** The doubling step of the loop: shift, and fold the carry back in. */
  method Double(x: bv8) returns (a: bv8)
    ensures a == XTime(x)
  {
    a := x;
    var high := a & 0x80;
    a := a << 1;
    if high != 0 {
      a := a ^ 0x1b;
    }
  }

  lemma PendingStart(a: bv8, b: bv8)
    ensures Pending(0, a, b) == GfProduct(a, b)
  {}

  lemma PendingDone(sum: bv8, a: bv8)
    ensures Pending(sum, a, 0) == sum
  {}

  lemma PendingStep(sum: bv8, a: bv8, b: bv8)
    requires b != 0
    ensures b >> 1 < b
    ensures b & 1 != 0 ==> Pending(sum, a, b) == Pending(sum ^ a, XTime(a), b >> 1)
    ensures b & 1 == 0 ==> Pending(sum, a, b) == Pending(sum, XTime(a), b >> 1)
  {
    hide XTime, Pending, GfProduct;
    ShiftDecreases(b);
    if b & 1 != 0 {
      PendingOdd(sum, a, b);
    } else {
      PendingEven(sum, a, b);
    }
  }

  lemma ShiftDecreases(b: bv8)
    ensures b != 0 ==> b >> 1 < b
  {}

  lemma PendingOdd(sum: bv8, a: bv8, b: bv8)
    requires b & 1 != 0
    ensures Pending(sum, a, b) == Pending(sum ^ a, XTime(a), b >> 1)
  {
    hide XTime;
    XorAssociates(sum, a, GfProduct(XTime(a), b >> 1));
  }

  lemma PendingEven(sum: bv8, a: bv8, b: bv8)
    requires b & 1 == 0
    ensures Pending(sum, a, b) == Pending(sum, XTime(a), b >> 1)
  {
    hide XTime;
    if b == 0 {
      assert b >> 1 == 0;
    }
  }

  lemma XorAssociates(a: bv8, b: bv8, c: bv8)
    ensures (a ^ b) ^ c == a ^ (b ^ c)
  {}

  // ---------- XTime is linear ----------

  lemma XTimeXor(x: bv8, y: bv8)
    ensures XTime(x ^ y) == XTime(x) ^ XTime(y)
  {
    XTimeFolds(x); XTimeFolds(y); XTimeFolds(x ^ y);
    FoldXor(x, y);
  }

  /** The branch-free form: the bit shifted out of x^7 comes back as x^4 + x^3 + x + 1. */
  function Fold(a: bv8): bv8 {
    (a << 1) ^ (a >> 7) ^ ((a >> 7) << 1) ^ ((a >> 7) << 3) ^ ((a >> 7) << 4)
  }

  lemma XTimeFolds(a: bv8)
    ensures XTime(a) == Fold(a)
  {}

  lemma FoldXor(x: bv8, y: bv8)
    ensures Fold(x ^ y) == Fold(x) ^ Fold(y)
  {}

  // ---------- agreement with polynomial multiplication ----------

  /** Polynomials over GF(2) of degree below 16, by their coefficients; a byte has degree below 8. */
  type Poly = bv16

  function Widen(a: bv8): Poly {
    a as bv16
  }

  function Add(p: Poly, q: Poly): Poly {
    p ^ q
  }

  /** x^k * p, for the k that occur in m(x). */
  function TimesPower(p: Poly, k: nat): Poly
    requires k <= 8
  {
    p << k
  }

  /** q * m(x), for m(x) = x^8 + x^4 + x^3 + x + 1. */
  function TimesModulus(q: Poly): Poly {
    Add(Add(TimesPower(q, 8), TimesPower(q, 4)), Add(TimesPower(q, 3), Add(TimesPower(q, 1), q)))
  }

  /** The product of the polynomials w and b, before reduction. */
  function PolyProduct(w: Poly, b: bv8): Poly
    decreases b
  {
    if b == 0 then 0
    else if b & 1 != 0 then Add(w, PolyProduct(TimesPower(w, 1), b >> 1))
    else PolyProduct(TimesPower(w, 1), b >> 1)
  }

  /** w = q * m(x) + a, as polynomials. */
  ghost predicate Congruent(w: Poly, a: bv8, q: bv8) {
    w == Add(Widen(a), TimesModulus(Widen(q)))
  }

  lemma AddSwaps(p: Poly, q: Poly, r: Poly, s: Poly)
    ensures Add(Add(p, q), Add(r, s)) == Add(Add(p, r), Add(q, s))
  {
    hide Add;
    AddAssociates(Add(p, q), r, s); AddAssociates(p, q, r);
    AddCommutes(q, r);
    AddAssociates(p, r, q); AddAssociates(Add(p, r), q, s);
  }

  lemma AddCommutes(p: Poly, q: Poly)
    ensures Add(p, q) == Add(q, p)
  {}

  lemma AddAssociates(p: Poly, q: Poly, r: Poly)
    ensures Add(Add(p, q), r) == Add(p, Add(q, r))
  {}

  lemma WidenXor(p: bv8, q: bv8)
    ensures Widen(p ^ q) == Add(Widen(p), Widen(q))
  {}

  lemma TimesPowerAdd(p: Poly, q: Poly, k: nat)
    requires k in {1, 3, 4, 8}
    ensures TimesPower(Add(p, q), k) == Add(TimesPower(p, k), TimesPower(q, k))
  {
    if k == 1 {
      assert (p ^ q) << 1 == (p << 1) ^ (q << 1);
    } else if k == 3 {
      assert (p ^ q) << 3 == (p << 3) ^ (q << 3);
    } else if k == 4 {
      assert (p ^ q) << 4 == (p << 4) ^ (q << 4);
    } else {
      assert (p ^ q) << 8 == (p << 8) ^ (q << 8);
    }
  }

  lemma TimesModulusAdd(p: Poly, q: Poly)
    ensures TimesModulus(Add(p, q)) == Add(TimesModulus(p), TimesModulus(q))
  {
    hide TimesPower, Add;
    var p1, p3, p4, p8 := TimesPower(p, 1), TimesPower(p, 3), TimesPower(p, 4), TimesPower(p, 8);
    var q1, q3, q4, q8 := TimesPower(q, 1), TimesPower(q, 3), TimesPower(q, 4), TimesPower(q, 8);
    TimesPowerAdd(p, q, 1); TimesPowerAdd(p, q, 3); TimesPowerAdd(p, q, 4); TimesPowerAdd(p, q, 8);
    AddSwaps(p1, p, q1, q);
    AddSwaps(p3, Add(p1, p), q3, Add(q1, q));
    AddSwaps(p8, p4, q8, q4);
    AddSwaps(Add(p8, p4), Add(p3, Add(p1, p)), Add(q8, q4), Add(q3, Add(q1, q)));
  }

  lemma CongruentSum(w: Poly, a: bv8, q: bv8, w': Poly, a': bv8, q': bv8)
    requires Congruent(w, a, q) && Congruent(w', a', q')
    ensures Congruent(Add(w, w'), a ^ a', q ^ q')
  {
    hide TimesModulus, Add, Widen;
    WidenXor(a, a'); WidenXor(q, q');
    TimesModulusAdd(Widen(q), Widen(q'));
    AddSwaps(Widen(a), TimesModulus(Widen(q)), Widen(a'), TimesModulus(Widen(q')));
  }

  lemma ByteTimesX(a: bv8)
    ensures TimesPower(Widen(a), 1) == Add(Widen(XTime(a)), TimesModulus(Widen(a >> 7)))
  {}

  lemma TimesModulusTimesX(q: bv8)
    requires q < 0x80
    ensures TimesPower(TimesModulus(Widen(q)), 1) == TimesModulus(Widen(q << 1))
  {
    hide TimesPower, Add, Widen;
    var p := Widen(q);
    var p1, p3, p4, p8 := TimesPower(p, 1), TimesPower(p, 3), TimesPower(p, 4), TimesPower(p, 8);
    WidenTimesX(q);
    TimesPowersCommute(p);
    TimesPowerAdd(Add(p8, p4), Add(p3, Add(p1, p)), 1);
    TimesPowerAdd(p8, p4, 1); TimesPowerAdd(p3, Add(p1, p), 1); TimesPowerAdd(p1, p, 1);
  }

  lemma WidenTimesX(q: bv8)
    requires q < 0x80
    ensures Widen(q << 1) == TimesPower(Widen(q), 1)
  {}

  lemma TimesPowersCommute(p: Poly)
    ensures TimesPower(TimesPower(p, 3), 1) == TimesPower(TimesPower(p, 1), 3)
    ensures TimesPower(TimesPower(p, 4), 1) == TimesPower(TimesPower(p, 1), 4)
    ensures TimesPower(TimesPower(p, 8), 1) == TimesPower(TimesPower(p, 1), 8)
  {}

  /** Multiplying by x keeps the congruence; the quotient takes in the bit that overflowed. */
  lemma CongruentTimesX(w: Poly, a: bv8, q: bv8)
    requires Congruent(w, a, q) && q < 0x80
    ensures Congruent(TimesPower(w, 1), XTime(a), (a >> 7) ^ (q << 1))
  {
    hide TimesModulus, Add, Widen, TimesPower, XTime;
    var modulusPart := TimesModulus(Widen(q << 1));
    TimesPowerAdd(Widen(a), TimesModulus(Widen(q)), 1);
    TimesModulusTimesX(q);
    ByteTimesX(a);
    AddAssociates(Widen(XTime(a)), TimesModulus(Widen(a >> 7)), modulusPart);
    TimesModulusAdd(Widen(a >> 7), Widen(q << 1));
    WidenXor(a >> 7, q << 1);
  }

  /** The bound on quotients after i doublings, and on what is left of b. */
  function QuotientBound(i: nat): bv8
    requires i < 8
  {
    [0x01, 0x02, 0x04, 0x08, 0x10, 0x20, 0x40, 0x80][i]
  }

  function RestBound(i: nat): bv8
    requires 0 < i <= 8
  {
    [0x80, 0x40, 0x20, 0x10, 0x08, 0x04, 0x02, 0x01][i - 1]
  }

  ghost predicate InBounds(q: bv8, b: bv8, i: nat) {
    && i <= 8
    && (i < 8 ==> q < QuotientBound(i))
    && (0 < i ==> b < RestBound(i))
  }

  lemma BoundsStep(a: bv8, q: bv8, b: bv8, i: nat)
    requires InBounds(q, b, i) && b != 0
    ensures i < 8 && InBounds((a >> 7) ^ (q << 1), b >> 1, i + 1)
    ensures i < 7 ==> q < 0x80
  {
    if i < 8 {
      assert b >> 1 < RestBound(i + 1);
      if i < 7 {
        assert (a >> 7) ^ (q << 1) < QuotientBound(i + 1);
      }
    }
  }

  lemma OddStep(w: Poly, a: bv8, q: bv8, b: bv8, r: bv8)
    requires b & 1 != 0 && Congruent(w, a, q)
    requires Congruent(PolyProduct(TimesPower(w, 1), b >> 1), GfProduct(XTime(a), b >> 1), r)
    ensures Congruent(PolyProduct(w, b), GfProduct(a, b), q ^ r)
  {
    hide XTime, TimesPower, Add, Congruent;
    CongruentSum(w, a, q, PolyProduct(TimesPower(w, 1), b >> 1), GfProduct(XTime(a), b >> 1), r);
  }

  lemma EvenStep(w: Poly, a: bv8, b: bv8, r: bv8)
    requires b != 0 && b & 1 == 0
    requires Congruent(PolyProduct(TimesPower(w, 1), b >> 1), GfProduct(XTime(a), b >> 1), r)
    ensures Congruent(PolyProduct(w, b), GfProduct(a, b), r)
  {
    hide XTime, TimesPower, Add, Congruent;
  }

  /** Both products follow the bits of b; q is the quotient of w after i doublings of a byte. */
  lemma {:induction false} ProductQuotient(w: Poly, a: bv8, q: bv8, b: bv8, i: nat) returns (r: bv8)
    requires InBounds(q, b, i)
    requires i < 8 ==> Congruent(w, a, q)
    ensures Congruent(PolyProduct(w, b), GfProduct(a, b), r)
    decreases 8 - i, 1
  {
    if b == 0 {
      r := 0;
      assert Congruent(0, 0, 0);
    } else {
      r := ProductQuotientStep(w, a, q, b, i);
    }
  }

  lemma {:induction false} ProductQuotientStep(w: Poly, a: bv8, q: bv8, b: bv8, i: nat) returns (r: bv8)
    requires InBounds(q, b, i) && b != 0
    requires i < 8 ==> Congruent(w, a, q)
    ensures Congruent(PolyProduct(w, b), GfProduct(a, b), r)
    decreases 8 - i, 0
  {
    hide XTime, TimesPower, Add, Congruent, PolyProduct, GfProduct, InBounds;
    BoundsStep(a, q, b, i);
    if i < 7 {
      CongruentTimesX(w, a, q);
    }
    r := ProductQuotient(TimesPower(w, 1), XTime(a), (a >> 7) ^ (q << 1), b >> 1, i + 1);
    if b & 1 != 0 {
      OddStep(w, a, q, b, r);
      r := q ^ r;
    } else {
      EvenStep(w, a, b, r);
    }
  }

  /** Section 4.2 of FIPS 197: a * b is the remainder of the polynomial product modulo m(x).
      (The remainder has degree below 8 because it is a byte.) */
  lemma ProductIsPolynomialRemainder(a: bv8, b: bv8)
    ensures exists q: bv8 ::
      PolyProduct(Widen(a), b) == Add(Widen(GfProduct(a, b)), TimesModulus(Widen(q)))
  {
    assert Congruent(Widen(a), a, 0) && InBounds(0, b, 0);
    var q := ProductQuotient(Widen(a), a, 0, b, 0);
    assert Congruent(PolyProduct(Widen(a), b), GfProduct(a, b), q);
  }

  // ---------- the product is linear in its first factor ----------

  /** Addition in the field (FIPS 197 section 4.1). */
  function Plus(a: bv8, b: bv8): bv8 {
    a ^ b
  }

  lemma PlusCommutes(a: bv8, b: bv8)
    ensures Plus(a, b) == Plus(b, a)
  {}

  lemma PlusAssociates(a: bv8, b: bv8, c: bv8)
    ensures Plus(Plus(a, b), c) == Plus(a, Plus(b, c))
  {}

  lemma PlusSwaps(a: bv8, b: bv8, c: bv8, d: bv8)
    ensures Plus(Plus(a, b), Plus(c, d)) == Plus(Plus(a, c), Plus(b, d))
  {
    hide Plus;
    PlusAssociates(Plus(a, b), c, d); PlusAssociates(a, b, c);
    PlusCommutes(b, c);
    PlusAssociates(a, c, b); PlusAssociates(Plus(a, c), b, d);
  }

  lemma {:induction false} ProductDistributes(x: bv8, y: bv8, b: bv8)
    ensures GfProduct(Plus(x, y), b) == Plus(GfProduct(x, b), GfProduct(y, b))
    decreases b
  {
    if b == 0 {
      assert Plus(0, 0) == 0;
    } else {
      ProductDistributesStep(x, y, b);
    }
  }

  lemma {:induction false} ProductDistributesStep(x: bv8, y: bv8, b: bv8)
    requires b != 0
    ensures GfProduct(Plus(x, y), b) == Plus(GfProduct(x, b), GfProduct(y, b))
    decreases b, 0
  {
    hide GfProduct, XTime, Plus;
    ShiftDecreases(b);
    ProductDistributes(XTime(x), XTime(y), b >> 1);
    XTimePlus(x, y);
    ProductUnfolds(x, b); ProductUnfolds(y, b); ProductUnfolds(Plus(x, y), b);
    PlusSwaps(x, GfProduct(XTime(x), b >> 1), y, GfProduct(XTime(y), b >> 1));
  }

  lemma XTimePlus(x: bv8, y: bv8)
    ensures XTime(Plus(x, y)) == Plus(XTime(x), XTime(y))
  {
    hide XTime;
    XTimeXor(x, y);
  }

  lemma ProductUnfolds(a: bv8, b: bv8)
    requires b != 0
    ensures GfProduct(a, b) == if Odd(b) then Plus(a, GfProduct(XTime(a), b >> 1)) else GfProduct(XTime(a), b >> 1)
  {
    hide XTime;
  }

  predicate Odd(b: bv8) {
    b & 1 != 0
  }

  lemma ProductByOne(a: bv8)
    ensures GfProduct(a, 0) == 0 && GfProduct(a, 1) == a
  {
    hide XTime;
  }

  lemma {:induction false} ProductDistributesRight(a: bv8, b: bv8, c: bv8)
    ensures GfProduct(a, b ^ c) == Plus(GfProduct(a, b), GfProduct(a, c))
    decreases b | c
  {
    if b == 0 {
      assert 0 ^ c == c && Plus(0, GfProduct(a, c)) == GfProduct(a, c);
    } else if c == 0 {
      assert b ^ 0 == b && Plus(GfProduct(a, b), 0) == GfProduct(a, b);
    } else {
      ProductDistributesRightStep(a, b, c);
    }
  }

  lemma {:induction false} ProductDistributesRightStep(a: bv8, b: bv8, c: bv8)
    requires b != 0 && c != 0
    ensures GfProduct(a, b ^ c) == Plus(GfProduct(a, b), GfProduct(a, c))
    decreases b | c, 0
  {
    hide GfProduct, XTime, Plus, Odd;
    BitsOfXor(b, c);
    ProductDistributesRight(XTime(a), b >> 1, c >> 1);
    ProductUnfolds(a, b); ProductUnfolds(a, c);
    SumOfUnfolded(a, GfProduct(XTime(a), b >> 1), GfProduct(XTime(a), c >> 1));
    ProductUnfoldsAny(a, b ^ c);
  }

  lemma ProductUnfoldsAny(a: bv8, b: bv8)
    ensures GfProduct(a, b) == if Odd(b) then Plus(a, GfProduct(XTime(a), b >> 1)) else GfProduct(XTime(a), b >> 1)
  {
    hide XTime;
    if b == 0 {
      assert b >> 1 == 0 && !Odd(b);
    } else {
      ProductUnfolds(a, b);
    }
  }

  lemma BitsOfXor(b: bv8, c: bv8)
    ensures (b ^ c) >> 1 == (b >> 1) ^ (c >> 1)
    ensures Odd(b ^ c) == (Odd(b) != Odd(c))
    ensures b != 0 ==> (b >> 1) | (c >> 1) < b | c
  {
    assert (b ^ c) & 1 == (b & 1) ^ (c & 1);
  }

  /** What the combinations of lowest bits come to. */
  lemma SumOfUnfolded(a: bv8, p: bv8, q: bv8)
    ensures Plus(Plus(a, p), Plus(a, q)) == Plus(p, q)
    ensures Plus(Plus(a, p), q) == Plus(a, Plus(p, q))
    ensures Plus(p, Plus(a, q)) == Plus(a, Plus(p, q))
  {
    hide Plus;
    PlusSwaps(a, p, a, q);
    PlusSelf(a); PlusZero(Plus(p, q));
    PlusAssociates(a, p, q);
    PlusAssociates(p, a, q); PlusCommutes(p, a);
  }

  lemma PlusSelf(a: bv8)
    ensures Plus(a, a) == 0
  {}

  lemma PlusZero(a: bv8)
    ensures Plus(0, a) == a && Plus(a, 0) == a
  {}

  /** Multiplying by x commutes with multiplying by anything. */
  lemma {:induction false} XTimeOfProduct(a: bv8, b: bv8)
    ensures GfProduct(XTime(a), b) == XTime(GfProduct(a, b))
    decreases b
  {
    hide XTime, Plus;
    if b == 0 {
      XTimeOfZero();
    } else {
      hide GfProduct;
      ShiftDecreases(b);
      XTimeOfProduct(XTime(a), b >> 1);
      ProductUnfolds(a, b); ProductUnfolds(XTime(a), b);
      XTimePlus(a, GfProduct(XTime(a), b >> 1));
    }
  }

  lemma XTimeOfZero()
    ensures XTime(0) == 0
  {}

  lemma {:induction false} ProductCommutes(a: bv8, b: bv8)
    ensures GfProduct(a, b) == GfProduct(b, a)
    decreases b
  {
    if b == 0 {
      ProductOfZero(a);
    } else {
      ProductCommutesStep(a, b);
    }
  }

  lemma {:induction false} ProductCommutesStep(a: bv8, b: bv8)
    requires b != 0
    ensures GfProduct(a, b) == GfProduct(b, a)
    decreases b, 0
  {
    hide GfProduct, XTime, Plus, Odd;
    ShiftDecreases(b);
    ProductUnfoldsAny(a, b);
    XTimeOfProduct(a, b >> 1);
    ProductCommutes(a, b >> 1);
    XTimeOfProduct(b >> 1, a);
    SplitLowBit(b);
    ProductDistributes(1, XTime(b >> 1), a);
    OneTimes(a);
  }

  /** b is its lowest bit plus x times the rest; the rest has no x^7 term, so nothing overflows. */
  lemma SplitLowBit(b: bv8)
    ensures Odd(b) ==> b == Plus(1, XTime(b >> 1))
    ensures !Odd(b) ==> b == XTime(b >> 1)
  {}

  lemma {:induction false} ProductOfZero(b: bv8)
    ensures GfProduct(0, b) == 0
    decreases b
  {
    if b != 0 {
      ShiftDecreases(b);
      ProductOfZero(b >> 1);
      ProductUnfoldsAny(0, b);
      XTimeOfZero();
    }
  }

  lemma {:induction false} OneTimes(b: bv8)
    ensures GfProduct(1, b) == b
    decreases b
  {
    hide GfProduct, XTime, Plus, Odd;
    if b == 0 {
      ProductByOne(1);
    } else {
      ShiftDecreases(b);
      OneTimes(b >> 1);
      ProductUnfoldsAny(1, b);
      XTimeOfProduct(1, b >> 1);
      SplitLowBit(b);
    }
  }

  lemma {:induction false} ProductAssociates(a: bv8, b: bv8, c: bv8)
    ensures GfProduct(GfProduct(a, b), c) == GfProduct(a, GfProduct(b, c))
    decreases c
  {
    hide GfProduct, XTime, Plus, Odd;
    ProductByOne(GfProduct(a, b)); ProductByOne(a); ProductByOne(b);
    if c != 0 {
      ShiftDecreases(c);
      var rest := GfProduct(b, c >> 1);
      ProductUnfoldsAny(GfProduct(a, b), c);
      XTimeOfProduct(GfProduct(a, b), c >> 1);
      ProductAssociates(a, b, c >> 1);
      ProductUnfoldsAny(b, c);
      XTimeOfProduct(b, c >> 1);
      ProductCommutes(a, rest);
      XTimeOfProduct(rest, a);
      ProductCommutes(a, XTime(rest));
      PlusIsXor(b, XTime(rest));
      ProductDistributesRight(a, b, XTime(rest));
    }
  }

  lemma PlusIsXor(a: bv8, b: bv8)
    ensures Plus(a, b) == a ^ b
  {}

  // ---------- columns ----------

  datatype Column = Column(a: bv8, b: bv8, c: bv8, d: bv8)

  function ColumnPlus(x: Column, y: Column): Column {
    Column(Plus(x.a, y.a), Plus(x.b, y.b), Plus(x.c, y.c), Plus(x.d, y.d))
  }

  /** One row of a matrix-vector product over the field. */
  function RowTimes(k: Column, x: Column): bv8 {
    Plus(Plus(GfProduct(x.a, k.a), GfProduct(x.b, k.b)), Plus(GfProduct(x.c, k.c), GfProduct(x.d, k.d)))
  }

  /** The circulant matrix with first row k, applied to x. */
  function Circulant(k: Column, x: Column): Column {
    Column(RowTimes(k, x),
           RowTimes(Column(k.d, k.a, k.b, k.c), x),
           RowTimes(Column(k.c, k.d, k.a, k.b), x),
           RowTimes(Column(k.b, k.c, k.d, k.a), x))
  }

  /** Sections 5.1.3 and 5.3.3 of FIPS 197. */
  function MixColumn(x: Column): Column {
    Circulant(Column(2, 3, 1, 1), x)
  }

  function InvMixColumn(x: Column): Column {
    Circulant(Column(14, 11, 13, 9), x)
  }

  lemma RowTimesPlus(k: Column, x: Column, y: Column)
    ensures RowTimes(k, ColumnPlus(x, y)) == Plus(RowTimes(k, x), RowTimes(k, y))
  {
    hide GfProduct, Plus;
    ProductDistributes(x.a, y.a, k.a); ProductDistributes(x.b, y.b, k.b);
    ProductDistributes(x.c, y.c, k.c); ProductDistributes(x.d, y.d, k.d);
    var xa, xb, xc, xd := GfProduct(x.a, k.a), GfProduct(x.b, k.b), GfProduct(x.c, k.c), GfProduct(x.d, k.d);
    var ya, yb, yc, yd := GfProduct(y.a, k.a), GfProduct(y.b, k.b), GfProduct(y.c, k.c), GfProduct(y.d, k.d);
    PlusSwaps(xa, ya, xb, yb);
    PlusSwaps(xc, yc, xd, yd);
    PlusSwaps(Plus(xa, xb), Plus(ya, yb), Plus(xc, xd), Plus(yc, yd));
  }

  lemma CirculantPlus(k: Column, x: Column, y: Column)
    ensures Circulant(k, ColumnPlus(x, y)) == ColumnPlus(Circulant(k, x), Circulant(k, y))
  {
    hide RowTimes, Plus;
    RowTimesPlus(k, x, y);
    RowTimesPlus(Column(k.d, k.a, k.b, k.c), x, y);
    RowTimesPlus(Column(k.c, k.d, k.a, k.b), x, y);
    RowTimesPlus(Column(k.b, k.c, k.d, k.a), x, y);
  }

  function ColumnScale(a: bv8, x: Column): Column {
    Column(GfProduct(a, x.a), GfProduct(a, x.b), GfProduct(a, x.c), GfProduct(a, x.d))
  }

  lemma RowTimesScale(k: Column, a: bv8, x: Column)
    ensures RowTimes(k, ColumnScale(a, x)) == GfProduct(a, RowTimes(k, x))
  {
    hide GfProduct, Plus;
    ProductAssociates(a, x.a, k.a); ProductAssociates(a, x.b, k.b);
    ProductAssociates(a, x.c, k.c); ProductAssociates(a, x.d, k.d);
    var pa, pb, pc, pd := GfProduct(x.a, k.a), GfProduct(x.b, k.b), GfProduct(x.c, k.c), GfProduct(x.d, k.d);
    ProductOfSum(a, pa, pb);
    ProductOfSum(a, pc, pd);
    ProductOfSum(a, Plus(pa, pb), Plus(pc, pd));
  }

  lemma ProductOfSum(a: bv8, b: bv8, c: bv8)
    ensures GfProduct(a, Plus(b, c)) == Plus(GfProduct(a, b), GfProduct(a, c))
  {
    hide GfProduct;
    ProductDistributesRight(a, b, c);
  }

  lemma CirculantScale(k: Column, a: bv8, x: Column)
    ensures Circulant(k, ColumnScale(a, x)) == ColumnScale(a, Circulant(k, x))
  {
    hide RowTimes, GfProduct;
    RowTimesScale(k, a, x);
    RowTimesScale(Column(k.d, k.a, k.b, k.c), a, x);
    RowTimesScale(Column(k.c, k.d, k.a, k.b), a, x);
    RowTimesScale(Column(k.b, k.c, k.d, k.a), a, x);
  }

  const UNITS := [Column(1, 0, 0, 0), Column(0, 1, 0, 0), Column(0, 0, 1, 0), Column(0, 0, 0, 1)]

  /** Multiples by 0, 1, 2 and 3 of polynomials of degree below 7: nothing to reduce. */
  function SmallMultiple(m: bv8, n: bv8): bv8 {
    if n == 0 then 0 else if n == 1 then m else if n == 2 then m << 1 else (m << 1) ^ m
  }

  lemma SmallProduct(m: bv8, n: bv8)
    requires m < 0x80 && n < 4
    ensures GfProduct(m, n) == SmallMultiple(m, n) && GfProduct(n, m) == SmallMultiple(m, n)
  {
    hide GfProduct;
    ProductCommutes(m, n);
    ProductByOne(m); ProductByOne(XTime(m));
    if n >= 2 {
      ProductUnfolds(m, n);
    }
  }

  predicate Small(x: Column, bound: bv8) {
    x.a < bound && x.b < bound && x.c < bound && x.d < bound
  }

  function SmallRow(k: Column, x: Column): bv8 {
    Plus(Plus(SmallMultiple(k.a, x.a), SmallMultiple(k.b, x.b)), Plus(SmallMultiple(k.c, x.c), SmallMultiple(k.d, x.d)))
  }

  lemma RowTimesSmall(k: Column, x: Column)
    requires Small(k, 0x80) && Small(x, 4)
    ensures RowTimes(k, x) == SmallRow(k, x) && RowTimes(x, k) == SmallRow(k, x)
  {
    hide GfProduct, SmallMultiple, Plus;
    SmallProduct(k.a, x.a); SmallProduct(k.b, x.b); SmallProduct(k.c, x.c); SmallProduct(k.d, x.d);
  }

  /** The column of a circulant that a unit selects. */
  function ColumnOf(k: Column, u: Column): Column {
    if u.a == 1 then Column(k.a, k.d, k.c, k.b)
    else if u.b == 1 then Column(k.b, k.a, k.d, k.c)
    else if u.c == 1 then Column(k.c, k.b, k.a, k.d)
    else Column(k.d, k.c, k.b, k.a)
  }

  lemma RowTimesUnit(k: Column, u: Column)
    requires Small(k, 0x80) && u in UNITS
    ensures RowTimes(k, u) == ColumnOf(k, u).a
  {
    hide RowTimes, Plus;
    RowTimesSmall(k, u);
    PlusZero(0); PlusZero(k.a); PlusZero(k.b); PlusZero(k.c); PlusZero(k.d);
  }

  lemma CirculantOfUnit(k: Column, u: Column)
    requires Small(k, 0x80) && u in UNITS
    ensures Circulant(k, u) == ColumnOf(k, u)
  {
    hide RowTimes;
    RowTimesUnit(k, u);
    RowTimesUnit(Column(k.d, k.a, k.b, k.c), u);
    RowTimesUnit(Column(k.c, k.d, k.a, k.b), u);
    RowTimesUnit(Column(k.b, k.c, k.d, k.a), u);
  }

  /** The 16 inner products of rows and columns of the two matrices. */
  lemma InverseRows(u: Column)
    requires u in UNITS
    ensures var x := ColumnOf(Column(2, 3, 1, 1), u);
      && SmallRow(Column(14, 11, 13, 9), x) == u.a && SmallRow(Column(9, 14, 11, 13), x) == u.b
      && SmallRow(Column(13, 9, 14, 11), x) == u.c && SmallRow(Column(11, 13, 9, 14), x) == u.d
  {}

  lemma InverseRowsTransposed(u: Column)
    requires u in UNITS
    ensures var y := ColumnOf(Column(14, 11, 13, 9), u);
      && SmallRow(y, Column(2, 3, 1, 1)) == u.a && SmallRow(y, Column(1, 2, 3, 1)) == u.b
      && SmallRow(y, Column(1, 1, 2, 3)) == u.c && SmallRow(y, Column(3, 1, 1, 2)) == u.d
  {}

  lemma UnmixUnit(u: Column)
    requires u in UNITS
    ensures InvMixColumn(MixColumn(u)) == u
  {
    hide RowTimes, SmallRow;
    CirculantOfUnit(Column(2, 3, 1, 1), u);
    var x := MixColumn(u);
    InverseRows(u);
    RowTimesSmall(Column(14, 11, 13, 9), x); RowTimesSmall(Column(9, 14, 11, 13), x);
    RowTimesSmall(Column(13, 9, 14, 11), x); RowTimesSmall(Column(11, 13, 9, 14), x);
  }

  lemma RemixUnit(u: Column)
    requires u in UNITS
    ensures MixColumn(InvMixColumn(u)) == u
  {
    hide RowTimes, SmallRow;
    CirculantOfUnit(Column(14, 11, 13, 9), u);
    var y := InvMixColumn(u);
    InverseRowsTransposed(u);
    RowTimesSmall(y, Column(2, 3, 1, 1)); RowTimesSmall(y, Column(1, 2, 3, 1));
    RowTimesSmall(y, Column(1, 1, 2, 3)); RowTimesSmall(y, Column(3, 1, 1, 2));
  }

  lemma ColumnIsSum(x: Column)
    ensures x == ColumnPlus(ColumnPlus(ColumnScale(x.a, UNITS[0]), ColumnScale(x.b, UNITS[1])),
                            ColumnPlus(ColumnScale(x.c, UNITS[2]), ColumnScale(x.d, UNITS[3])))
  {
    hide GfProduct, Plus;
    ProductByOne(x.a); ProductByOne(x.b); ProductByOne(x.c); ProductByOne(x.d);
    PlusZero(0); PlusZero(x.a); PlusZero(x.b); PlusZero(x.c); PlusZero(x.d);
  }

  lemma CirculantOfSum(k: Column, a: bv8, b: bv8, c: bv8, d: bv8, p: Column, q: Column, r: Column, s: Column)
    ensures Circulant(k, ColumnPlus(ColumnPlus(ColumnScale(a, p), ColumnScale(b, q)),
                                    ColumnPlus(ColumnScale(c, r), ColumnScale(d, s))))
         == ColumnPlus(ColumnPlus(ColumnScale(a, Circulant(k, p)), ColumnScale(b, Circulant(k, q))),
                       ColumnPlus(ColumnScale(c, Circulant(k, r)), ColumnScale(d, Circulant(k, s))))
  {
    hide Circulant, ColumnPlus, ColumnScale;
    CirculantPlus(k, ColumnPlus(ColumnScale(a, p), ColumnScale(b, q)), ColumnPlus(ColumnScale(c, r), ColumnScale(d, s)));
    CirculantPlus(k, ColumnScale(a, p), ColumnScale(b, q));
    CirculantPlus(k, ColumnScale(c, r), ColumnScale(d, s));
    CirculantScale(k, a, p); CirculantScale(k, b, q); CirculantScale(k, c, r); CirculantScale(k, d, s);
  }

  /** The two column transforms undo each other. */
  lemma MixColumnInverse(x: Column)
    ensures InvMixColumn(MixColumn(x)) == x && MixColumn(InvMixColumn(x)) == x
  {
    hide Circulant, ColumnPlus, ColumnScale;
    var mix, inv := Column(2, 3, 1, 1), Column(14, 11, 13, 9);
    var u0, u1, u2, u3 := UNITS[0], UNITS[1], UNITS[2], UNITS[3];
    UnmixUnit(u0); UnmixUnit(u1); UnmixUnit(u2); UnmixUnit(u3);
    RemixUnit(u0); RemixUnit(u1); RemixUnit(u2); RemixUnit(u3);
    ColumnIsSum(x);
    CirculantOfSum(mix, x.a, x.b, x.c, x.d, u0, u1, u2, u3);
    CirculantOfSum(inv, x.a, x.b, x.c, x.d, MixColumn(u0), MixColumn(u1), MixColumn(u2), MixColumn(u3));
    CirculantOfSum(inv, x.a, x.b, x.c, x.d, u0, u1, u2, u3);
    CirculantOfSum(mix, x.a, x.b, x.c, x.d, InvMixColumn(u0), InvMixColumn(u1), InvMixColumn(u2), InvMixColumn(u3));
  }
}
