/** The test whether 32 bytes decode to a point of the twisted Edwards curve
    -x^2 + y^2 = 1 + d x^2 y^2, and that it decides exactly what section 5.1.3 of
    RFC 8032 asks for.
 */
module Curve {
  import opened Orders
  import opened Primes
  import opened Numerals

  const ED25519_P: nat := 0x7fffffffffffffffffffffffffffffffffffffffffffffffffffffffffffffed

  /** `-121665 * pow(121666, p - 2, p) % p`. */
  function EdwardsD(p: nat): nat
    requires p > 2
  {
    (-121665 * PowMod(121666, p - 2, p)) % p
  }

  // ----- the encoding -----

  /** The sign bit of the last byte. */
  predicate SignBit(point: seq<byte>)
    requires |point| == 32
  {
    point[31] >= 128
  }

  /** The 255-bit number left when the sign bit is cleared. */
  function YCoordinate(point: seq<byte>): nat
    requires |point| == 32
  {
    LittleEndian(point[31 := point[31] % 128], 256)
  }

  /** How section 5.1.2 of RFC 8032 writes a point: y little-endian, the sign in bit 255. */
  function PointBytes(y: nat, sign: bool): (r: seq<byte>)
    ensures |r| == 32
  {
    PowPositive(2, 255);
    LittleFixed(y + if sign then Pow(2, 255) else 0, 32)
  }

  lemma TopBit()
    ensures Pow(2, 255) == 128 * Pow(256, 31) && Pow(256, 32) == 2 * Pow(2, 255) && Pow(256, 31) > 0
  {
    PowerOfTwo8();
    hide Pow;
    PowMul(2, 8, 31);
    PowAdd(2, 248, 7);
    PowAdd(256, 31, 1);
    PowPositive(256, 31);
    PowOnes();
  }

  lemma PowerOfTwo8()
    ensures Pow(2, 7) == 128 && Pow(2, 8) == 256
  {
    assert Pow(2, 1) == 2 && Pow(2, 2) == 4 && Pow(2, 3) == 8 && Pow(2, 4) == 16 && Pow(2, 5) == 32;
  }

  lemma PowOnes()
    ensures Pow(256, 1) == 256
  {
    assert Pow(256, 0) == 1;
  }

  /** The bytes of a point as a number: its y, and 2^255 if the sign is set. */
  lemma PointNumber(point: seq<byte>)
    requires |point| == 32
    ensures YCoordinate(point) < Pow(2, 255)
    ensures LittleEndian(point, 256) == YCoordinate(point) + if SignBit(point) then Pow(2, 255) else 0
  {
    var low, top := point[..31], point[31];
    var q := Pow(256, 31);
    TopBit();
    assert point == low + [top];
    assert point[31 := top % 128] == low + [top % 128];
    LittleEndianAppend(low, top, 256);
    LittleEndianAppend(low, top % 128, 256);
    LittleBound(low, 256);
    hide Pow, LittleEndian;
    TopByte(q, LittleEndian(low, 256), top);
  }

  lemma TopByte(q: nat, low: nat, top: nat)
    requires low < q && top < 256
    ensures low + q * (top % 128) < 128 * q
    ensures low + q * top == low + q * (top % 128) + if top >= 128 then 128 * q else 0
  {
    var t := top % 128;
    AtMostTimes(q, t, 127);
    if top >= 128 {
      SumTimes(q, t, 128);
    }
  }

  lemma AtMostTimes(q: nat, t: nat, n: nat)
    requires t <= n
    ensures q * t <= q * n
  {
  }

  lemma SumTimes(q: nat, t: nat, n: nat)
    ensures q * (t + n) == q * t + q * n
  {
  }

  /** Reading a written point gives back its y and its sign. */
  lemma PointRoundTrip(y: nat, sign: bool)
    requires y < Pow(2, 255)
    ensures YCoordinate(PointBytes(y, sign)) == y && SignBit(PointBytes(y, sign)) == sign
  {
    var point, top := PointBytes(y, sign), Pow(2, 255);
    TopBit();
    LittleFixedValue(y + if sign then top else 0, 32);
    PointNumber(point);
  }

  // ----- the test -----

  /** x^2 as the test computes it from y: (y^2 - 1) / (d y^2 + 1). */
  function XSquared(y: nat, p: nat, d: nat): (x2: nat)
    requires p > 2
    ensures x2 < p
  {
    var y2 := y * y % p;
    (y2 - 1) * PowMod(d * y2 + 1, p - 2, p) % p
  }

  /** The candidate root x2^((p + 3) / 8), multiplied by 2^((p - 1) / 4) when its
      square is not x2. */
  function CandidateRoot(x2: nat, p: nat): (x: nat)
    requires p > 2
    ensures x < p
  {
    var x := PowMod(x2, (p + 3) / 8, p);
    if PowMod(x, 2, p) != x2 % p then x * PowMod(2, (p - 1) / 4, p) % p else x
  }

  predicate IsOnCurve(point: seq<byte>, p: nat, d: nat)
    requires p > 2
  {
    if |point| != 32 then false
    else
      var y := YCoordinate(point);
      if y >= p then false
      else
        var x2 := XSquared(y, p, d);
        if x2 == 0 then !SignBit(point)
        else PowMod(CandidateRoot(x2, p), 2, p) == x2 % p
  }

  // ----- what it should decide -----

  ghost predicate NonResidue(d: nat, p: nat)
    requires p > 0
  {
    forall z: nat :: !Cong(z * z, d, p)
  }

  ghost predicate CurveEquation(x: nat, y: nat, p: nat, d: nat)
    requires p > 0
  {
    Cong(y * y - x * x, 1 + d * (x * x) * (y * y), p)
  }

  /** Some x of the parity the sign bit names completes y to a curve point. */
  ghost predicate Decodes(y: nat, sign: bool, p: nat, d: nat)
    requires p > 0
  {
    exists x: nat :: x < p && (x % 2 == 1 <==> sign) && CurveEquation(x, y, p, d)
  }

  // ----- square roots modulo p -----

  ghost predicate Square(a: int, p: nat)
    requires p > 0
  {
    exists z: nat :: z < p && Cong(z * z, a, p)
  }

  lemma PowTwo(x: int)
    ensures Pow(x, 2) == x * x
  {
    assert Pow(x, 2) == x * Pow(x, 1) && Pow(x, 1) == x * Pow(x, 0);
  }

  lemma SquareTest(x: nat, a: int, p: nat)
    requires p > 0
    ensures PowMod(x, 2, p) == a % p <==> Cong(x * x, a, p)
  {
    PowTwo(x);
    CongResidues(x * x, a, p);
  }

  /** i = 2^((p - 1) / 4) is a square root of -1. */
  lemma RootOfMinusOne(p: nat)
    requires Prime(p) && p % 8 == 5
    ensures var i := PowMod(2, (p - 1) / 4, p); Cong(i * i, -1, p)
  {
    var i, e := PowMod(2, (p - 1) / 4, p), Pow(2, (p - 1) / 4);
    assert (p - 1) / 4 + (p - 1) / 4 == (p - 1) / 2;
    PowAdd(2, (p - 1) / 4, (p - 1) / 4);
    TwoIsNonResidue(p);
    CongMod(e, p);
    CongMul(i, e, i, e, p);
    CongTrans(i * i, e * e, -1, p);
  }

  /** If a = z^2 then the square of a^((p + 3) / 8) is a or -a. */
  lemma CandidateSquare(a: nat, z: nat, p: nat)
    requires Prime(p) && p % 8 == 5 && Cong(z * z, a, p) && !Cong(a, 0, p)
    ensures var r := Pow(a, (p + 3) / 8); Cong(r * r, a, p) || Cong(r * r, 0 - a, p)
  {
    var h, k := (p - 1) / 2, (p + 3) / 8;
    assert k + k + (k + k) == h + 2;
    var r := Pow(a, k);
    HalfPower(a, z, p);
    PowAdd(a, k, k);
    PowAdd(a, k + k, k + k);
    PowAdd(a, h, 2);
    PowTwo(a);
    hide Prime, Pow;
    var r2 := r * r;
    CongBy(a * a, a * a, p, 0);
    CongMul(Pow(a, h), 1, a * a, a * a, p);
    assert Cong(r2 * r2, a * a, p);
    SameSquares(r2, a, p);
  }

  /** Modulo a prime equal squares have roots that are equal or opposite. */
  lemma SameSquares(x: int, a: int, p: nat)
    requires Prime(p) && Cong(x * x, a * a, p)
    ensures Cong(x, a, p) || Cong(x, 0 - a, p)
  {
    DifferenceOfSquares(x, a);
    assert Cong((x - a) * (x - (0 - a)), 0, p);
    Euclid(p, x - a, x - (0 - a));
  }

  lemma DifferenceOfSquares(x: int, a: int)
    ensures x * x - a * a == (x - a) * (x - (0 - a))
  {
  }

  /** a^((p - 1) / 2) = 1 for a non-zero square a. */
  lemma HalfPower(a: nat, z: nat, p: nat)
    requires Prime(p) && p % 2 == 1 && Cong(z * z, a, p) && !Cong(a, 0, p)
    ensures Cong(Pow(a, (p - 1) / 2), 1, p)
  {
    var h := (p - 1) / 2;
    if Cong(z, 0, p) {
      CongMul(z, 0, z, 0, p);
      CongSym(z * z, a, p);
      CongTrans(a, z * z, 0, p);
    }
    FermatUnit(p, z);
    PowMul(z, 2, h);
    PowTwo(z);
    assert 2 * h == p - 1;
    CongPow(z * z, a, h, p);
    CongSym(Pow(z * z, h), Pow(a, h), p);
    CongTrans(Pow(a, h), Pow(z * z, h), 1, p);
  }

  /** The candidate root squares to x2 exactly when x2 is a square. */
  lemma CandidateDecides(x2: nat, p: nat)
    requires Prime(p) && p % 8 == 5 && 0 < x2 < p
    ensures PowMod(CandidateRoot(x2, p), 2, p) == x2 % p <==> Square(x2, p)
  {
    SquareTest(CandidateRoot(x2, p), x2, p);
    hide CandidateRoot, PowMod, Prime;
    if Square(x2, p) {
      SquareHasCandidate(x2, p);
    }
  }

  lemma SmallIsNotZero(a: nat, p: nat)
    requires 0 < a < p
    ensures !Cong(a, 0, p)
  {
    assert a - 0 == a && a % p == a;
  }

  lemma SquareHasCandidate(x2: nat, p: nat)
    requires Prime(p) && p % 8 == 5 && 0 < x2 < p && Square(x2, p)
    ensures var x := CandidateRoot(x2, p); Cong(x * x, x2, p)
  {
    SmallIsNotZero(x2, p);
    hide CandidateRoot, PowMod, Prime, Cong, Pow;
    var z: nat :| z < p && Cong(z * z, x2, p);
    CandidateSquare(x2, z, p);
    CandidateWorks(x2, p);
  }

  lemma CandidateWorks(x2: nat, p: nat)
    requires Prime(p) && p % 8 == 5
    requires var r := Pow(x2, (p + 3) / 8); Cong(r * r, x2, p) || Cong(r * r, 0 - x2, p)
    ensures var x := CandidateRoot(x2, p); Cong(x * x, x2, p)
  {
    var r := Pow(x2, (p + 3) / 8);
    var x := PowMod(x2, (p + 3) / 8, p);
    CongMod(r, p);
    CongMul(x, r, x, r, p);
    SquareTest(x, x2, p);
    if !Cong(x * x, x2, p) {
      if Cong(r * r, x2, p) {
        CongTrans(x * x, r * r, x2, p);
      }
      CongTrans(x * x, r * r, 0 - x2, p);
      CorrectedRoot(x, x2, p);
    }
  }

  /** Multiplying by the root of -1 turns a root of -a into a root of a. */
  lemma CorrectedRoot(x: nat, a: nat, p: nat)
    requires Prime(p) && p % 8 == 5 && Cong(x * x, 0 - a, p)
    ensures var y := x * PowMod(2, (p - 1) / 4, p) % p; Cong(y * y, a, p)
  {
    var i := PowMod(2, (p - 1) / 4, p);
    RootOfMinusOne(p);
    hide PowMod, Prime;
    CongMul(x * x, 0 - a, i * i, -1, p);
    var t := x * i;
    assert (x * x) * (i * i) == t * t;
    assert (0 - a) * (-1) == a;
    var y := t % p;
    CongMod(t, p);
    CongMul(y, t, y, t, p);
    CongTrans(y * y, t * t, a, p);
  }

  // ----- the denominator -----

  /** d y^2 + 1 is never zero: otherwise d would be a square. */
  lemma DenominatorNonZero(y: nat, p: nat, d: nat)
    requires Prime(p) && p % 8 == 5 && NonResidue(d, p)
    ensures !Cong(d * (y * y) + 1, 0, p)
  {
    if Cong(d * (y * y) + 1, 0, p) {
      var i := PowMod(2, (p - 1) / 4, p);
      RootOfMinusOne(p);
      if Cong(y, 0, p) {
        ZeroDenominator(y, p, d);
      } else {
        SquareDenominator(y, i, p, d);
      }
    }
  }

  lemma ZeroDenominator(y: nat, p: nat, d: nat)
    requires p > 1 && Cong(y, 0, p)
    ensures !Cong(d * (y * y) + 1, 0, p)
  {
    CongMul(y, 0, y, 0, p);
    CongBy(d, d, p, 0);
    CongMul(d, d, y * y, 0, p);
    CongBy(1, 1, p, 0);
    CongAdd(d * (y * y), 0, 1, 1, p);
    CongResidues(d * (y * y) + 1, 1, p);
    CongResidues(d * (y * y) + 1, 0, p);
    assert 1 % p == 1 && 0 % p == 0;
  }

  /** From d y^2 = -1 and i^2 = -1: d = (i / y)^2. */
  lemma SquareDenominator(y: nat, i: nat, p: nat, d: nat)
    requires Prime(p) && !Cong(y, 0, p) && Cong(i * i, -1, p) && Cong(d * (y * y) + 1, 0, p)
    ensures exists z: nat :: Cong(z * z, d, p)
  {
    assert p > 1;
    hide Cong, Prime, PowMod;
    var inverse := PowMod(y, p - 2, p);
    Inverse(y, p);
    var z := i * inverse;
    var u := y * inverse;
    CongMul(u, 1, u, 1, p);
    SquareOfQuotient(i, inverse, y);
    MinusOne(d * (y * y), p);
    SameProducts(i * i, u * u, y * y, z * z, d, p);
    if Cong(y * y, 0, p) {
      Euclid(p, y, y);
    }
    Cancel(p, y * y, z * z, d);
  }

  lemma SameProducts(a: int, b: int, y2: int, z2: int, d: int, p: nat)
    requires p > 0 && Cong(a, -1, p) && Cong(b, 1, p) && a * b == y2 * z2 && Cong(d * y2, -1, p)
    ensures Cong(y2 * z2, y2 * d, p)
  {
    hide Cong;
    CongMul(a, -1, b, 1, p);
    CongSym(d * y2, -1, p);
    CongTrans(a * b, -1, d * y2, p);
  }

  lemma SquareOfQuotient(i: int, inverse: int, y: int)
    ensures (i * i) * ((y * inverse) * (y * inverse)) == (y * y) * ((i * inverse) * (i * inverse))
  {
    calc {
      (i * i) * ((y * inverse) * (y * inverse));
      (i * i) * ((y * y) * (inverse * inverse));
      (y * y) * ((i * i) * (inverse * inverse));
      (y * y) * ((i * inverse) * (i * inverse));
    }
  }

  lemma MinusOne(a: int, p: nat)
    requires p > 0 && Cong(a + 1, 0, p)
    ensures Cong(a, -1, p)
  {
    assert a + 1 - 0 == a - (-1);
  }

  /** `pow(w, p - 2, p)` is the inverse of w. */
  lemma Inverse(w: nat, p: nat)
    requires Prime(p) && !Cong(w, 0, p)
    ensures Cong(w * PowMod(w, p - 2, p), 1, p)
  {
    var e := Pow(w, p - 2);
    FermatUnit(p, w);
    assert Pow(w, p - 1) == w * e;
    CongMod(e, p);
    CongBy(w, w, p, 0);
    CongMul(w, w, PowMod(w, p - 2, p), e, p);
    CongTrans(w * PowMod(w, p - 2, p), w * e, 1, p);
  }

  // ----- the curve equation as a square -----

  /** The equation says x^2 = (y^2 - 1) / (d y^2 + 1). */
  lemma EquationIsSquare(x: nat, y: nat, p: nat, d: nat)
    requires Prime(p) && p % 8 == 5 && NonResidue(d, p)
    ensures CurveEquation(x, y, p, d) <==> Cong(x * x, XSquared(y, p, d), p)
  {
    var w, v := d * (y * y % p) + 1, (y * y % p) - 1;
    var inverse := PowMod(w, p - 2, p);
    Denominator(y, p, d);
    Inverse(w, p);
    CongMod(v * inverse, p);
    Rearranged(x, y, p, d);
    DividedBy(x * x, v, w, inverse, p);
    if Cong(x * x, v * inverse, p) {
      CongTrans(x * x, v * inverse, v * inverse % p, p);
    }
    if Cong(x * x, v * inverse % p, p) {
      CongTrans(x * x, v * inverse % p, v * inverse, p);
    }
  }

  lemma Denominator(y: nat, p: nat, d: nat)
    requires Prime(p) && p % 8 == 5 && NonResidue(d, p)
    ensures !Cong(d * (y * y % p) + 1, 0, p)
    ensures Cong(d * (y * y % p) + 1, d * (y * y) + 1, p) && Cong((y * y % p) - 1, y * y - 1, p)
  {
    CongMod(y * y, p);
    CongBy(d, d, p, 0);
    CongBy(1, 1, p, 0);
    CongBy(-1, -1, p, 0);
    CongMul(d, d, y * y % p, y * y, p);
    CongAdd(d * (y * y % p), d * (y * y), 1, 1, p);
    CongAdd(y * y % p, y * y, -1, -1, p);
    DenominatorNonZero(y, p, d);
    if Cong(d * (y * y % p) + 1, 0, p) {
      CongSym(d * (y * y % p) + 1, d * (y * y) + 1, p);
      CongTrans(d * (y * y) + 1, d * (y * y % p) + 1, 0, p);
    }
  }

  lemma Rearranged(x: nat, y: nat, p: nat, d: nat)
    requires p > 0
    requires Cong(d * (y * y % p) + 1, d * (y * y) + 1, p) && Cong((y * y % p) - 1, y * y - 1, p)
    ensures CurveEquation(x, y, p, d) <==> Cong((d * (y * y % p) + 1) * (x * x), (y * y % p) - 1, p)
  {
    var x2, y2 := x * x, y * y;
    var w, w', v, v' := d * (y2 % p) + 1, d * y2 + 1, (y2 % p) - 1, y2 - 1;
    CongBy(x2, x2, p, 0);
    CongMul(w, w', x2, x2, p);
    assert (y2 - x2) - (1 + d * x2 * y2) == v' - w' * x2;
    if CurveEquation(x, y, p, d) {
      CongSym(v', w' * x2, p);
      CongTrans(w * x2, w' * x2, v', p);
      CongSym(v, v', p);
      CongTrans(w * x2, v', v, p);
    }
    if Cong(w * x2, v, p) {
      CongTrans(w * x2, v, v', p);
      CongSym(w * x2, w' * x2, p);
      CongTrans(w' * x2, w * x2, v', p);
      CongSym(w' * x2, v', p);
    }
  }

  /** w a = v exactly when a = v / w. */
  lemma DividedBy(a: int, v: int, w: int, inverse: int, p: nat)
    requires p > 0 && Cong(w * inverse, 1, p)
    ensures Cong(w * a, v, p) <==> Cong(a, v * inverse, p)
  {
    CongBy(a, a, p, 0);
    CongBy(v, v, p, 0);
    CongBy(w, w, p, 0);
    CongBy(inverse, inverse, p, 0);
    if Cong(w * a, v, p) {
      CongMul(w * a, v, inverse, inverse, p);
      CongMul(w * inverse, 1, a, a, p);
      assert (w * a) * inverse == (w * inverse) * a && 1 * a == a;
      CongSym((w * inverse) * a, a, p);
      CongTrans(a, (w * inverse) * a, v * inverse, p);
    }
    if Cong(a, v * inverse, p) {
      CongMul(w, w, a, v * inverse, p);
      CongMul(w * inverse, 1, v, v, p);
      assert w * (v * inverse) == (w * inverse) * v && 1 * v == v;
      CongTrans(w * a, (w * inverse) * v, v, p);
    }
  }

  // ----- choosing the root of the right parity -----

  lemma ZeroRoot(x: nat, p: nat)
    requires Prime(p) && x < p
    ensures Cong(x * x, 0, p) <==> x == 0
  {
    if x == 0 {
      CongBy(0, 0, p, 0);
    } else if Cong(x * x, 0, p) {
      Euclid(p, x, x);
      CongResidues(x, 0, p);
    }
  }

  /** A non-zero root and its negative have opposite parity. */
  lemma OtherRoot(z: nat, a: int, p: nat)
    requires p % 2 == 1 && 0 < z < p && Cong(z * z, a, p)
    ensures Cong((p - z) * (p - z), a, p) && (p - z) % 2 != z % 2
  {
    assert (p - z) * (p - z) - z * z == (p - 2 * z) * p;
    CongBy((p - z) * (p - z), z * z, p, p - 2 * z);
    CongTrans((p - z) * (p - z), z * z, a, p);
  }

  /** The test accepts exactly the 32-byte strings whose y is reduced and which
      decode to a curve point of the parity the sign bit names. */
  lemma CurveTestDecides(point: seq<byte>, p: nat, d: nat)
    requires Prime(p) && p % 8 == 5 && NonResidue(d, p)
    ensures IsOnCurve(point, p, d) <==>
              |point| == 32 && YCoordinate(point) < p && Decodes(YCoordinate(point), SignBit(point), p, d)
  {
    if |point| == 32 && YCoordinate(point) < p {
      var y, sign := YCoordinate(point), SignBit(point);
      var x2 := XSquared(y, p, d);
      forall x: nat
        ensures CurveEquation(x, y, p, d) <==> Cong(x * x, x2, p)
      {
        EquationIsSquare(x, y, p, d);
      }
      if x2 == 0 {
        ZeroRoot(0, p);
        assert CurveEquation(0, y, p, d);
        forall x: nat | x < p && CurveEquation(x, y, p, d)
          ensures x == 0
        {
          ZeroRoot(x, p);
        }
      } else {
        CandidateDecides(x2, p);
        if Square(x2, p) {
          RootOfParity(x2, sign, p);
        }
      }
    }
  }

  lemma RootOfParity(x2: nat, sign: bool, p: nat)
    requires Prime(p) && p % 2 == 1 && 0 < x2 < p && Square(x2, p)
    ensures exists x: nat :: x < p && (x % 2 == 1 <==> sign) && Cong(x * x, x2, p)
  {
    SmallIsNotZero(x2, p);
    hide Cong, Prime;
    var z: nat :| z < p && Cong(z * z, x2, p);
    if z == 0 {
      CongSym(0, x2, p);
    } else {
      OtherRoot(z, x2, p);
      var x: nat := if z % 2 == 1 <==> sign then z else p - z;
      assert x < p && (x % 2 == 1 <==> sign) && Cong(x * x, x2, p);
    }
  }

  // ----- the curve of the program -----

  /** d is -121665 / 121666. */
  lemma EdwardsConstant(p: nat)
    requires Prime(p) && p > 121666
    ensures Cong(EdwardsD(p) * 121666, -121665, p)
  {
    var inverse: int := PowMod(121666, p - 2, p);
    SmallIsNotZero(121666, p);
    Inverse(121666, p);
    CongMod(-121665 * inverse, p);
    hide Cong, Prime, PowMod;
    CongBy(121666, 121666, p, 0);
    CongMul(EdwardsD(p), -121665 * inverse, 121666, 121666, p);
    CongBy(-121665, -121665, p, 0);
    CongMul(-121665, -121665, 121666 * inverse, 1, p);
    assert -121665 * inverse * 121666 == -121665 * (121666 * inverse);
    CongTrans(EdwardsD(p) * 121666, -121665 * inverse * 121666, -121665 * 1, p);
  }

  /** The curve without naming d: 121666 (y^2 - x^2) = 121666 - 121665 x^2 y^2. */
  ghost predicate ProgramCurve(x: nat, y: nat, p: nat)
    requires p > 0
  {
    Cong(121666 * (y * y - x * x), 121666 - 121665 * ((x * x) * (y * y)), p)
  }

  lemma ProgramEquation(x: nat, y: nat, p: nat)
    requires Prime(p) && p > 121666
    ensures CurveEquation(x, y, p, EdwardsD(p)) <==> ProgramCurve(x, y, p)
  {
    var d, s := EdwardsD(p), (x * x) * (y * y);
    var left, right := y * y - x * x, 1 + d * (x * x) * (y * y);
    EdwardsConstant(p);
    SmallIsNotZero(121666, p);
    hide Cong, EdwardsD;
    TimesDenominator(d, s, p);
    ReassociateProduct(d, x * x, y * y);
    assert right == 1 + d * s;
    if Cong(left, right, p) {
      CongBy(121666, 121666, p, 0);
      CongMul(121666, 121666, left, right, p);
      CongTrans(121666 * left, 121666 * right, 121666 - 121665 * s, p);
    }
    if Cong(121666 * left, 121666 - 121665 * s, p) {
      CongSym(121666 * right, 121666 - 121665 * s, p);
      CongTrans(121666 * left, 121666 - 121665 * s, 121666 * right, p);
      Cancel(p, 121666, left, right);
    }
  }

  lemma ReassociateProduct(a: int, b: int, c: int)
    ensures a * b * c == a * (b * c)
  {
  }

  lemma TimesDenominator(d: int, s: int, p: nat)
    requires p > 0 && Cong(d * 121666, -121665, p)
    ensures Cong(121666 * (1 + d * s), 121666 - 121665 * s, p)
  {
    hide Cong;
    CongBy(s, s, p, 0);
    CongMul(d * 121666, -121665, s, s, p);
    CongBy(121666, 121666, p, 0);
    CongAdd(121666, 121666, (d * 121666) * s, -121665 * s, p);
    ReassociateProduct(d, 121666, s);
    ReassociateProduct(121666, d, s);
    assert 121666 * (1 + d * s) == 121666 + (d * 121666) * s;
  }

  /** The parameters of the program: the residue condition on p holds. */
  lemma Ed25519Test(point: seq<byte>)
    requires Prime(ED25519_P) && NonResidue(EdwardsD(ED25519_P), ED25519_P)
    ensures ED25519_P == Pow(2, 255) - 19
    ensures IsOnCurve(point, ED25519_P, EdwardsD(ED25519_P)) <==>
              |point| == 32 && YCoordinate(point) < ED25519_P
              && exists x: nat :: x < ED25519_P && (x % 2 == 1 <==> SignBit(point))
                                  && ProgramCurve(x, YCoordinate(point), ED25519_P)
  {
    PowerOf255();
    var p := ED25519_P;
    assert p % 8 == 5 && p > 121666;
    CurveTestDecides(point, p, EdwardsD(p));
    hide IsOnCurve, Prime, NonResidue, EdwardsD, CurveEquation, ProgramCurve;
    if |point| == 32 {
      forall x: nat
        ensures CurveEquation(x, YCoordinate(point), p, EdwardsD(p)) <==> ProgramCurve(x, YCoordinate(point), p)
      {
        ProgramEquation(x, YCoordinate(point), p);
      }
    }
  }

  lemma PowerOf255()
    ensures ED25519_P == Pow(2, 255) - 19
  {
    assert Pow(2, 5) == 32 by {
      assert Pow(2, 1) == 2 && Pow(2, 2) == 4 && Pow(2, 3) == 8 && Pow(2, 4) == 16;
    }
    hide Pow;
    PowAdd(2, 5, 10);
    PowAdd(2, 5, 5);
    assert Pow(2, 15) == 32768;
    PowAdd(2, 15, 15);
    assert Pow(2, 30) == 0x4000_0000;
    PowAdd(2, 30, 30);
    assert Pow(2, 60) == 0x1000_0000_0000_0000;
    PowAdd(2, 60, 60);
    PowAdd(2, 120, 120);
    PowAdd(2, 240, 15);
  }

  // ----- program addresses -----

  /** Tries the bumps from 255 downwards and takes the first hash off the curve; `hash`
      stands for SHA-256 over seeds, bump and program. */
  method FindProgramAddress(hash: byte -> seq<byte>, p: nat, d: nat) returns (r: Option<(seq<byte>, byte)>)
    requires p > 2
    ensures r.None? <==> forall n: byte :: IsOnCurve(hash(n), p, d)
    ensures r.Some? ==> r.value.0 == hash(r.value.1) && !IsOnCurve(r.value.0, p, d)
    ensures r.Some? ==> forall n: byte | n > r.value.1 :: IsOnCurve(hash(n), p, d)
  {
    hide IsOnCurve;
    var n := 256;
    while n > 0
      invariant n <= 256
      invariant forall k: byte | k >= n :: IsOnCurve(hash(k), p, d)
    {
      n := n - 1;
      var nonce: byte := n;
      var h := hash(nonce);
      if !IsOnCurve(h, p, d) {
        return Some((h, nonce));
      }
    }
    r := None;
  }
}
