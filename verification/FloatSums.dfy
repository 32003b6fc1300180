/** How far `fadd_bits` and `fsub_bits` are from the exact sum. */
module FloatSums {
  import opened Isa
  import opened ObjFile
  import opened Float48
  import opened FloatLaws
  import opened FloatValues

  /** The smallest number a normal can stand for. */
  function MinNormal(): real { LEAD as real * Ulp(1) }

  function Abs(x: real): real { if x < 0.0 then -x else x }

  lemma NormalSum(a: Words, b: Words)
    requires IsNormal(a) && IsNormal(b)
    ensures FAdd(a, b) == if a.Exp() < b.Exp() then AddAligned(b, a) else AddAligned(a, b)
  {
    hide Words.Sig, Words.Exp, Words.Sign, AddAligned, SpecialAddSub;
    NoneMeansNormal(a, b);
  }

  lemma ShrOut(n: nat, j: nat)
    requires n < SIG_SPAN && j >= 36
    ensures Shr(n, j) == 0
  {
    ShrAdd(n, 36, j - 36);
    Shr35(n);
    ShrNothing(j - 36);
  }

  lemma {:induction false} ShrNothing(j: nat)
    ensures Shr(0, j) == 0
    decreases j
  {
    if j > 0 { ShrNothing(j - 1); }
  }

  /** Alignment drops less than one unit of the larger operand's last place. */
  lemma AlignedCuts(b: Words, diff: int)
    requires diff >= 0
    ensures Aligned(b.Sig(), diff) as real <= b.Sig() as real * Pow(-diff) < (Aligned(b.Sig(), diff) + 1) as real
    ensures diff > 0 ==> Aligned(b.Sig(), diff) < LEAD
  {
    hide Pow, Words.Sig, Shr;
    var n := b.Sig();
    if diff >= 36 { ShrOut(n, diff); }
    ShrCuts(n as real, n, diff, -diff);
    PowZero();
    assert -diff + diff == 0;
    if diff > 0 {
      ShrStep(n, diff);
      ShrSmaller(n / 2, diff - 1);
    }
  }

  lemma {:induction false} ShrSmaller(n: nat, j: nat)
    ensures Shr(n, j) <= n
    decreases j
  {
    if j > 0 { ShrSmaller(n / 2, j - 1); }
  }

  /** An operand's magnitude on the scale of a larger exponent. */
  lemma OnScale(b: Words, exp: nat)
    ensures Magnitude(b) == (b.Sig() as real * Pow(b.Exp() - exp)) * Ulp(exp)
  {
    hide Pow, Words.Sig, Words.Exp;
    PowSum(b.Exp() - exp, exp - 1059);
    assert b.Exp() - exp + (exp - 1059) == b.Exp() - 1059;
    Assoc(b.Sig() as real, Pow(b.Exp() - exp), Pow(exp - 1059));
  }

  lemma Assoc(x: real, y: real, z: real)
    ensures x * (y * z) == (x * y) * z
  {
  }

  // ---- same sign ------------------------------------------------------------------

  /** One where the sum of two significands has outgrown 36 bits. */
  function Carry(sum: nat): nat { if Bit36(sum) == 1 then 1 else 0 }

  lemma SameSignCut(a: Words, b: Words) returns (sig: int, exp: int)
    requires IsNormal(a) && IsNormal(b) && a.Sign() == b.Sign() && a.Exp() >= b.Exp()
    ensures Cut(Magnitude(a) + Magnitude(b), sig, exp)
    ensures AddAligned(a, b) == Finish(a.Sign(), exp, sig)
  {
    hide Pow, Words.Sig, Words.Exp, Words.Sign, Finish, Pack, Shr, Aligned, Magnitude, Carry, Cut, Ulp, AddAligned;
    var diff := a.Exp() - b.Exp();
    AlignedCuts(b, diff);
    AlignedBelow(b, diff);
    OnScale(b, a.Exp());
    OnScale(a, a.Exp());
    PowZero();
    assert b.Exp() - a.Exp() == -diff;
    var sum := a.Sig() + Aligned(b.Sig(), diff);
    var z := a.Sig() as real + b.Sig() as real * Pow(-diff);
    sig, exp := Shr(sum, Carry(sum)), a.Exp() + Carry(sum);
    Distribute(a.Sig() as real, b.Sig() as real * Pow(-diff), Ulp(a.Exp()));
    assert Magnitude(a) == a.Sig() as real * Ulp(a.Exp()) && Magnitude(b) == b.Sig() as real * Pow(-diff) * Ulp(a.Exp());
    CarryCuts(sum, z, a.Exp(), Magnitude(a) + Magnitude(b));
    AddedSame(a, b);
  }

  lemma CarryCuts(sum: nat, z: real, e: int, m: real)
    requires LEAD <= sum < 2 * SIG_SPAN && sum as real <= z < (sum + 1) as real && m == z * Ulp(e)
    ensures Cut(m, Shr(sum, Carry(sum)), e + Carry(sum))
  {
    hide Pow, Shr;
    var k := Carry(sum);
    ShrCuts(z, sum, k, e - 1059);
    assert e - 1059 + k == e + k - 1059;
    ShrStep(sum, k);
    ShrStep(sum / 2, 0);
  }

  lemma AddedSame(a: Words, b: Words)
    requires a.Sign() == b.Sign() && a.Exp() >= b.Exp()
    ensures var sum := a.Sig() + Aligned(b.Sig(), a.Exp() - b.Exp());
            AddAligned(a, b) == Finish(a.Sign(), a.Exp() + Carry(sum), Shr(sum, Carry(sum)))
  {
    hide Words.Sig, Words.Exp, Words.Sign, Finish, Pack, Shr, Aligned, Bit36;
    var sum := a.Sig() + Aligned(b.Sig(), a.Exp() - b.Exp());
    ShrStep(sum, Carry(sum));
    ShrStep(sum / 2, 0);
  }

  lemma AlignedBelow(b: Words, diff: nat)
    ensures Aligned(b.Sig(), diff) < SIG_SPAN
  {
    hide Words.Sig, Shr;
    ShrSmaller(b.Sig(), diff);
  }

  lemma Distribute(x: real, y: real, z: real)
    ensures (x + y) * z == x * z + y * z
  {
  }

  /** The sum of two normals of one sign is the exact sum cut toward zero to 36 significant bits. */
  lemma AddTruncates(a: Words, b: Words)
    requires IsNormal(a) && IsNormal(b) && a.Sign() == b.Sign()
    ensures RoundsTo(Value(a) + Value(b), FAdd(a, b))
  {
    hide Cut, Finish, Magnitude, Words.Sign, Words.Sig, Words.Exp, RoundsTo, AddAligned, FAdd;
    NormalSum(a, b);
    var x := Value(a) + Value(b);
    if a.Exp() < b.Exp() {
      var sig, exp := SameSignCut(b, a);
      assert TruncatesTo(x, a.Sign(), sig, exp);
      AllTruncations(x, a.Sign(), sig, exp, FAdd(a, b));
    } else {
      var sig, exp := SameSignCut(a, b);
      assert TruncatesTo(x, a.Sign(), sig, exp);
      AllTruncations(x, a.Sign(), sig, exp, FAdd(a, b));
    }
  }

  // ---- opposite signs -------------------------------------------------------------

  /** Normalising keeps the number and sets the leading bit, or the number is below every normal. */
  lemma {:induction false} NormaliseKeeps(sig: int, exp: int)
    requires 0 < sig < SIG_SPAN && exp > 0
    ensures match Normalise(sig, exp)
            case Some(n) =>
              LEAD <= n.0 < SIG_SPAN && 0 < n.1 <= exp && n.0 as real * Ulp(n.1) == sig as real * Ulp(exp)
            case None => sig as real * Ulp(exp) < MinNormal()
    decreases exp
  {
    hide Ulp, Normalise, Bit35;
    BitClear(sig);
    NormaliseStep(sig, exp);
    if Bit35(sig) == 0 {
      if exp > 1 {
        UlpDown(exp);
        Twice(sig, Ulp(exp - 1), Ulp(exp));
        NormaliseKeeps(2 * sig, exp - 1);
      } else {
        Strict(sig as real, LEAD as real, Ulp(1));
      }
    }
  }

  lemma NormaliseStep(sig: int, exp: int)
    ensures Normalise(sig, exp)
         == if Bit35(sig) == 1 then Some((sig, exp)) else if exp - 1 <= 0 then None else Normalise(2 * sig, exp - 1)
  {
  }

  lemma BitClear(sig: int)
    requires 0 < sig < SIG_SPAN
    ensures Bit35(sig) == 0 <==> sig < LEAD
  {
  }

  lemma UlpDown(exp: int)
    ensures Ulp(exp) == 2.0 * Ulp(exp - 1)
  {
    PowUp(exp - 1060);
  }

  lemma Twice(sig: int, u: real, v: real)
    requires v == 2.0 * u
    ensures (2 * sig) as real * u == sig as real * v
  {
  }

  /** What a difference of aligned significands stands for. */
  predicate Holds(r: Words, sign: Bit, m: real) {
    if m < MinNormal() then r == Pack(sign, 0, 0)
    else IsNormal(r) && r.Sign() == sign && Magnitude(r) == m
  }

  lemma GapHolds(sign: Bit, gap: int, exp: nat, r: Words, m: real)
    requires m == gap as real * Ulp(exp)
    requires 0 < gap < SIG_SPAN && 0 < exp < 2047
    requires r == match Normalise(gap, exp) case None => Pack(sign, 0, 0) case Some(n) => Finish(sign, n.1, n.0)
    ensures Holds(r, sign, m)
  {
    hide Pow, Ulp, Normalise, Pack, Words.Sig, Words.Exp, Words.Sign, Finish;
    NormaliseKeeps(gap, exp);
    match Normalise(gap, exp)
    case None =>
    case Some(n) =>
      FinishShape(sign, n.1, n.0);
      AtLeastMin(n.0, n.1);
  }

  lemma AtLeastMin(sig: int, exp: int)
    requires sig >= LEAD && exp >= 1
    ensures sig as real * Ulp(exp) >= MinNormal()
  {
    hide Ulp;
    UlpMonotone(1, exp);
    Grow(LEAD as real, sig as real, Ulp(1), Ulp(exp));
  }

  lemma UlpMonotone(exp: int, exp': int)
    requires exp <= exp'
    ensures Ulp(exp) <= Ulp(exp')
  {
    PowMonotone(exp - 1059, exp' - 1059);
  }

  lemma Grow(x: real, y: real, u: real, v: real)
    requires 0.0 < x <= y && 0.0 < u <= v
    ensures x * u <= y * v
  {
    Scale(x, y, u);
    Scale(u, v, y);
  }

  /** The exact sum of opposite signs. */
  lemma OppositeValues(a: Words, b: Words)
    requires a.Sign() != b.Sign()
    ensures Value(a) + Value(b) == Signed(a.Sign(), Magnitude(a) - Magnitude(b))
  {
    hide Magnitude, Words.Sign;
  }

  /** The gap of the aligned significands, against the exact difference. */
  lemma GapBounds(a: Words, b: Words)
    requires IsNormal(a) && IsNormal(b) && a.Exp() >= b.Exp()
    ensures var gap: int := a.Sig() - Aligned(b.Sig(), a.Exp() - b.Exp());
            var exact := Magnitude(a) - Magnitude(b);
            exact <= gap as real * Ulp(a.Exp()) < exact + Ulp(a.Exp())
            && (a.Exp() == b.Exp() ==> gap == a.Sig() - b.Sig() && exact == gap as real * Ulp(a.Exp()))
            && (a.Exp() > b.Exp() ==> 0 < gap < SIG_SPAN && exact > 0.0)
  {
    hide Pow, Ulp, Words.Sig, Words.Exp, Words.Sign, Shr, Aligned, Magnitude;
    var diff: int := a.Exp() - b.Exp();
    AlignedCuts(b, diff);
    OnScale(b, a.Exp());
    OnScale(a, a.Exp());
    PowZero();
    assert b.Exp() - a.Exp() == -diff;
    AlignedZero(b.Sig());
    GapArithmetic(a.Sig(), Aligned(b.Sig(), diff), b.Sig() as real * Pow(-diff), Ulp(a.Exp()), Magnitude(a), Magnitude(b));
  }

  lemma GapArithmetic(sig: nat, low: nat, y: real, u: real, m: real, n: real)
    requires u > 0.0 && m == sig as real * u && n == y * u && low as real <= y < (low + 1) as real
    requires LEAD <= sig < SIG_SPAN
    ensures var gap: int := sig - low;
            m - n <= gap as real * u < m - n + u
            && (y == low as real ==> m - n == gap as real * u)
            && (low < LEAD ==> 0 < gap < SIG_SPAN && m - n > 0.0)
  {
    var gap: int := sig - low;
    var g, x, l := gap as real, sig as real, low as real;
    assert g == x - l;
    Sandwich(x, l, y, u, g * u, m, n);
    Distribute(g, l, u);
    if low < LEAD {
      assert l + 1.0 <= LEAD as real <= x;
      Strict(y, x, u);
    }
  }

  lemma AlignedZero(sig: nat)
    ensures Aligned(sig, 0) == sig
  {
  }

  lemma Sandwich(x: real, low: real, y: real, u: real, g: real, m: real, n: real)
    requires u > 0.0 && low <= y < low + 1.0 && m == x * u && n == y * u && g == (x - low) * u
    ensures m - n <= g < m - n + u
  {
    var hi := low + 1.0;
    var lu, hu := low * u, hi * u;
    assert g == m - lu by { Distribute(x - low, low, u); }
    assert lu <= n by { Scale(low, y, u); }
    assert n < hu by { Strict(y, hi, u); }
    assert hu == lu + u by { Distribute(low, 1.0, u); }
  }

  lemma AlignedGap(a: Words, b: Words)
    requires a.Exp() >= b.Exp() && a.Sign() != b.Sign()
    ensures var gap: int := a.Sig() - Aligned(b.Sig(), a.Exp() - b.Exp());
            AddAligned(a, b) == if gap == 0 then Pack(0, 0, 0)
                                else match Normalise(gap, a.Exp())
                                     case None => Pack(a.Sign(), 0, 0)
                                     case Some(n) => Finish(a.Sign(), n.1, n.0)
  {
    hide Pack, Finish, Normalise, Words.Sig, Words.Exp, Words.Sign, Aligned;
  }

  /** Operands of opposite sign and different exponents: the sign is right and the magnitude is too
      large by less than one unit in the last place of the larger operand; a zero comes out, with the
      larger operand's sign, only when the exact sum is below every normal. */
  lemma OppositeWithinOneUlp(a: Words, b: Words)
    requires IsNormal(a) && IsNormal(b) && a.Sign() != b.Sign() && a.Exp() != b.Exp()
    ensures var r, x := FAdd(a, b), Abs(Value(a) + Value(b));
            var big := if a.Exp() > b.Exp() then a else b;
            x > 0.0 && (Value(a) + Value(b) > 0.0 <==> big.Sign() == 0)
            && exists m: real :: x <= m < x + Ulp(big.Exp()) && Holds(r, big.Sign(), m)
  {
    hide Words.Sig, Words.Exp, Words.Sign, Magnitude, Holds, FAdd, AddAligned, Ulp, IsNormal;
    NormalSum(a, b);
    OppositeValues(a, b);
    OppositeValues(b, a);
    if a.Exp() > b.Exp() { OppositeOrdered(a, b); } else { OppositeOrdered(b, a); }
  }

  lemma OppositeOrdered(a: Words, b: Words)
    requires IsNormal(a) && IsNormal(b) && a.Sign() != b.Sign() && a.Exp() > b.Exp()
    ensures var x := Magnitude(a) - Magnitude(b);
            x > 0.0 && exists m: real :: x <= m < x + Ulp(a.Exp()) && Holds(AddAligned(a, b), a.Sign(), m)
  {
    hide Words.Sig, Words.Sign, Magnitude, Holds, AddAligned, Ulp, Normalise, Aligned, Pack, Finish;
    GapBounds(a, b);
    AlignedGap(a, b);
    var gap: int := a.Sig() - Aligned(b.Sig(), a.Exp() - b.Exp());
    var m := gap as real * Ulp(a.Exp());
    GapHolds(a.Sign(), gap, a.Exp(), AddAligned(a, b), m);
  }

  /** Operands of opposite sign and one exponent, the first no smaller: the sum is exact, positive
      zero when they cancel. */
  lemma OppositeExact(a: Words, b: Words)
    requires IsNormal(a) && IsNormal(b) && a.Sign() != b.Sign() && a.Exp() == b.Exp() && a.Sig() >= b.Sig()
    ensures var r, x := FAdd(a, b), Value(a) + Value(b);
            if x == 0.0 then r == Pack(0, 0, 0) else Holds(r, a.Sign(), Abs(x))
  {
    hide *;
    NormalSum(a, b);
    OppositeValues(a, b);
    GapBounds(a, b);
    AlignedGap(a, b);
    NormalExp(a);
    var gap: int := a.Sig() - b.Sig();
    var m := gap as real * Ulp(a.Exp());
    SignedGap(a.Sign(), gap, Ulp(a.Exp()), m);
    if gap > 0 { GapHolds(a.Sign(), gap, a.Exp(), AddAligned(a, b), m); }
  }

  lemma NormalExp(a: Words)
    requires IsNormal(a)
    ensures 0 < a.Exp() < 2047
  {
    hide Words.Sig, Words.Exp;
  }

  lemma SignedGap(sign: Bit, gap: int, u: real, m: real)
    requires gap >= 0 && u > 0.0 && m == gap as real * u
    ensures gap == 0 ==> Signed(sign, m) == 0.0
    ensures gap > 0 ==> Signed(sign, m) != 0.0 && Abs(Signed(sign, m)) == m
  {
    if gap > 0 { Strict(0.0, gap as real, u); }
  }

  /** Operands of opposite sign and one exponent, the first smaller: the sum is always wrong, because
      it has the sign of the first operand and the exact sum that of the second. */
  lemma OppositeWrong(a: Words, b: Words)
    requires IsNormal(a) && IsNormal(b) && a.Sign() != b.Sign() && a.Exp() == b.Exp() && a.Sig() < b.Sig()
    ensures IsNormal(FAdd(a, b)) && FAdd(a, b).Sign() == a.Sign()
    ensures Value(FAdd(a, b)) != Value(a) + Value(b)
    ensures Magnitude(FAdd(a, b)) == (SIG_SPAN - (b.Sig() - a.Sig())) as real * Ulp(a.Exp())
  {
    hide Words.Sig, Words.Sign, Magnitude, AddAligned, Ulp, Normalise, Aligned, Pack, Finish, FAdd;
    NormalSum(a, b);
    OppositeValues(a, b);
    GapBounds(a, b);
    AlignedGap(a, b);
    var gap: int := a.Sig() - b.Sig();
    NormaliseStep(gap, a.Exp());
    BitNegative(gap);
    Wrapped(a.Sign(), a.Exp(), gap);
    Strict(gap as real, 0.0, Ulp(a.Exp()));
    Strict(0.0, (SIG_SPAN + gap) as real, Ulp(a.Exp()));
    IsMagnitude(FAdd(a, b));
  }

  lemma IsMagnitude(f: Words)
    ensures Magnitude(f) == f.Sig() as real * Ulp(f.Exp())
  {
  }

  lemma BitNegative(gap: int)
    requires -LEAD < gap < 0
    ensures Bit35(gap) == 1
  {
  }

  /** A negative significand is masked to its complement. */
  lemma Wrapped(sign: Bit, exp: nat, gap: int)
    requires -LEAD < gap < 0 && 0 < exp < 2047
    ensures var r := Finish(sign, exp, gap);
            IsNormal(r) && r.Sign() == sign && r.Exp() == exp && r.Sig() == SIG_SPAN + gap
  {
    hide Pack, Words.Sig, Words.Exp, Words.Sign;
    assert gap % SIG_SPAN == SIG_SPAN + gap;
    UnpackPack(sign, exp, SIG_SPAN + gap);
  }

  // ---- when the sum of opposite signs is right ------------------------------------

  /** A word that stands for a number exactly: a zero for 0, a normal otherwise. */
  ghost predicate Exactly(r: Words, x: real) { if x == 0.0 then r.Class() == Zero else IsNormal(r) && Value(r) == x }

  /** Far enough from zero for a normal, or zero itself. */
  ghost predicate NoUnderflow(x: real) { x == 0.0 || Abs(x) >= MinNormal() }

  /** A result that holds `m` is exactly `e` when `m` is, and it is not below every normal. */
  lemma HoldsExactly(r: Words, sign: Bit, m: real, e: real)
    requires Holds(r, sign, m) && m > 0.0 && e > 0.0
    ensures Exactly(r, Signed(sign, e)) <==> m == e && NoUnderflow(Signed(sign, e))
  {
    hide Words.Sign, Words.Class, Words.Sig, MinNormal, Pack, Magnitude;
    SpecialClasses();
    if m >= MinNormal() { assert Value(r) == Signed(sign, m); }
  }

  /** On one exponent and opposite signs addition is right exactly when the first significand is no
      smaller, underflow apart. */
  lemma OppositeRightIff(a: Words, b: Words)
    requires IsNormal(a) && IsNormal(b) && a.Sign() != b.Sign() && a.Exp() == b.Exp()
    ensures Exactly(FAdd(a, b), Value(a) + Value(b)) <==> a.Sig() >= b.Sig() && NoUnderflow(Value(a) + Value(b))
  {
    hide *;
    var x, e := Value(a) + Value(b), Magnitude(a) - Magnitude(b);
    OppositeValues(a, b);
    SumSign(a, b);
    if a.Sig() > b.Sig() {
      OppositeExact(a, b);
      SignedAbs(a.Sign(), e);
      HoldsExactly(FAdd(a, b), a.Sign(), e, e);
    } else if a.Sig() == b.Sig() {
      OppositeExact(a, b);
      SignedAbs(a.Sign(), e);
      ZeroExactly(FAdd(a, b), x);
    } else {
      OppositeWrong(a, b);
      SignedAbs(a.Sign(), e);
      NotExactly(FAdd(a, b), x);
    }
  }

  lemma SumSign(a: Words, b: Words)
    requires IsNormal(a) && IsNormal(b) && a.Exp() == b.Exp()
    ensures var e := Magnitude(a) - Magnitude(b); (e > 0.0 <==> a.Sig() > b.Sig()) && (e == 0.0 <==> a.Sig() == b.Sig())
  {
    hide Words.Sig, Words.Exp, Ulp;
    if a.Sig() > b.Sig() { Strict(b.Sig() as real, a.Sig() as real, Ulp(a.Exp())); }
    if a.Sig() < b.Sig() { Strict(a.Sig() as real, b.Sig() as real, Ulp(a.Exp())); }
  }

  lemma SignedAbs(sign: Bit, e: real)
    ensures e >= 0.0 ==> Abs(Signed(sign, e)) == e
    ensures Signed(sign, e) == 0.0 <==> e == 0.0
  {
  }

  lemma ZeroExactly(r: Words, x: real)
    requires x == 0.0 && r == Pack(0, 0, 0)
    ensures Exactly(r, x) && NoUnderflow(x)
  {
    hide Pack, Words.Class;
    SpecialClasses();
  }

  lemma NotExactly(r: Words, x: real)
    requires x != 0.0 && Value(r) != x
    ensures !Exactly(r, x)
  {
    hide Value;
  }

  /** Two to the power of `k`. */
  function TwoTo(k: nat): (n: nat)
    ensures n > 0
  {
    if k == 0 then 1 else 2 * TwoTo(k - 1)
  }

  lemma {:induction false} TwoToIs(k: int)
    requires k >= 0
    ensures Pow(k) == TwoTo(k) as real && Pow(-k) * Pow(k) == 1.0
  {
    PowSum(-k, k);
    assert -k + k == 0;
    PowZero();
    if k > 0 {
      TwoToIs(k - 1);
      PowUp(k - 1);
    }
  }

  /** Alignment drops nothing exactly when the shifted-out bits are zero. */
  lemma DropsNothing(b: Words, diff: int)
    requires diff >= 0
    ensures Aligned(b.Sig(), diff) as real == b.Sig() as real * Pow(-diff) <==> Multiple(b.Sig(), TwoTo(diff))
  {
    hide Pow, Words.Sig, Aligned, TwoTo;
    AlignedCuts(b, diff);
    TwoToIs(diff);
    WholeQuotient(b.Sig(), TwoTo(diff), b.Sig() as real * Pow(-diff), Pow(-diff), Pow(diff));
    IntegerCut(Aligned(b.Sig(), diff), b.Sig(), TwoTo(diff), b.Sig() as real * Pow(-diff));
  }

  lemma WholeQuotient(n: nat, t: nat, y: real, p: real, q: real)
    requires p * q == 1.0 && q == t as real && y == n as real * p
    ensures Quotient(y, n, t)
  {
    Assoc(n as real, p, q);
  }

  predicate Multiple(n: nat, t: nat)
    requires t > 0
  {
    n % t == 0
  }

  /** `y` is the quotient of `n` by `t`. */
  ghost predicate Quotient(y: real, n: nat, t: nat) { y * t as real == n as real }

  /** The integer part of a quotient is the quotient exactly when the division leaves nothing. */
  lemma IntegerCut(low: nat, n: nat, t: nat, y: real)
    requires t > 0 && low as real <= y < (low + 1) as real && Quotient(y, n, t)
    ensures low as real == y <==> Multiple(n, t)
  {
    hide Quotient, Multiple;
    if Multiple(n, t) {
      var q := NothingLeft(n, t, y);
      SameFloor(low, q, y);
    }
    if low as real == y { WholePart(low, n, t, y); }
  }

  lemma SameFloor(low: nat, q: nat, y: real)
    requires low as real <= y < (low + 1) as real && y == q as real
    ensures low == q
  {
  }

  lemma NothingLeft(n: nat, t: nat, y: real) returns (q: nat)
    requires t > 0 && Multiple(n, t) && Quotient(y, n, t)
    ensures y == q as real
  {
    var r;
    q, r := Division(n, t);
    RealProduct(q, t);
    CancelFactor(q as real, y, t as real);
  }

  lemma WholePart(low: nat, n: nat, t: nat, y: real)
    requires t > 0 && low as real == y && Quotient(y, n, t)
    ensures Multiple(n, t)
  {
    RealProduct(low, t);
    DivModUnique(n, t, low, 0);
  }

  lemma CancelFactor(x: real, y: real, u: real)
    requires u > 0.0 && x * u == y * u
    ensures x == y
  {
    if x < y { Strict(x, y, u); }
    if y < x { Strict(y, x, u); }
  }

  /** On different exponents and opposite signs addition is right exactly when aligning the smaller
      operand drops no set bit, underflow apart. */
  lemma AlignmentRightIff(a: Words, b: Words)
    requires IsNormal(a) && IsNormal(b) && a.Sign() != b.Sign() && a.Exp() != b.Exp()
    ensures var (big, small) := if a.Exp() > b.Exp() then (a, b) else (b, a);
            Exactly(FAdd(a, b), Value(a) + Value(b))
            <==> Multiple(small.Sig(), TwoTo(big.Exp() - small.Exp())) && NoUnderflow(Value(a) + Value(b))
  {
    hide *;
    NormalSum(a, b);
    OppositeValues(a, b);
    OppositeValues(b, a);
    if a.Exp() > b.Exp() { OrderedRightIff(a, b); } else { OrderedRightIff(b, a); }
  }

  lemma OrderedRightIff(a: Words, b: Words)
    requires IsNormal(a) && IsNormal(b) && a.Sign() != b.Sign() && a.Exp() > b.Exp()
    ensures var x := Signed(a.Sign(), Magnitude(a) - Magnitude(b));
            Exactly(AddAligned(a, b), x) <==> Multiple(b.Sig(), TwoTo(a.Exp() - b.Exp())) && NoUnderflow(x)
  {
    hide *;
    GapBounds(a, b);
    AlignedGap(a, b);
    NormalExp(a);
    DropsNothing(b, a.Exp() - b.Exp());
    GapExact(a, b);
    var gap: int := a.Sig() - Aligned(b.Sig(), a.Exp() - b.Exp());
    var m := gap as real * Ulp(a.Exp());
    GapHolds(a.Sign(), gap, a.Exp(), AddAligned(a, b), m);
    HoldsExactly(AddAligned(a, b), a.Sign(), m, Magnitude(a) - Magnitude(b));
  }

  lemma GapExact(a: Words, b: Words)
    requires a.Exp() >= b.Exp()
    ensures var low := Aligned(b.Sig(), a.Exp() - b.Exp());
            (a.Sig() - low) as real * Ulp(a.Exp()) == Magnitude(a) - Magnitude(b)
            <==> low as real == b.Sig() as real * Pow(b.Exp() - a.Exp())
  {
    hide Pow, Ulp, Words.Sig, Words.Exp, Aligned, Magnitude;
    OnScale(b, a.Exp());
    IsMagnitude(a);
    var low, y, u := Aligned(b.Sig(), a.Exp() - b.Exp()) as real, b.Sig() as real * Pow(b.Exp() - a.Exp()), Ulp(a.Exp());
    var x := a.Sig() as real;
    Distribute(x - low, low, u);
    if low * u == y * u { CancelFactor(low, y, u); }
  }

  // ---- subtraction ----------------------------------------------------------------

  lemma NegatedValue(b: Words)
    ensures Value(Negated(b)) == -Value(b) && (IsNormal(b) ==> IsNormal(Negated(b)))
  {
    NegatedFlips(b);
    hide Words.Sig, Words.Exp, Words.Sign, Negated, Pow;
  }

  /** Subtraction of opposite signs truncates the exact difference. */
  lemma SubTruncates(a: Words, b: Words)
    requires IsNormal(a) && IsNormal(b) && a.Sign() != b.Sign()
    ensures RoundsTo(Value(a) - Value(b), FSub(a, b))
  {
    hide Words.Sig, Words.Exp, Words.Sign, FAdd, Value, RoundsTo, Negated;
    NegatedFlips(b);
    NegatedValue(b);
    AddTruncates(a, Negated(b));
  }

  /** On one sign and one exponent subtraction is right exactly when the first significand is no
      smaller, underflow apart; a normal less itself is positive zero. */
  lemma SubRightIff(a: Words, b: Words)
    requires IsNormal(a) && IsNormal(b) && a.Sign() == b.Sign() && a.Exp() == b.Exp()
    ensures Exactly(FSub(a, b), Value(a) - Value(b)) <==> a.Sig() >= b.Sig() && NoUnderflow(Value(a) - Value(b))
    ensures a.Sig() == b.Sig() ==> FSub(a, b) == Pack(0, 0, 0)
  {
    hide *;
    NegatedFlips(b);
    NegatedValue(b);
    SubIsAdd(a, b);
    OppositeRightIff(a, Negated(b));
    if a.Sig() == b.Sig() { CancelsToZero(a, Negated(b)); }
  }

  lemma SubIsAdd(a: Words, b: Words)
    ensures FSub(a, b) == FAdd(a, Negated(b))
  {
  }

  lemma CancelsToZero(a: Words, b: Words)
    requires IsNormal(a) && IsNormal(b) && a.Sign() != b.Sign() && a.Exp() == b.Exp() && a.Sig() == b.Sig()
    ensures FAdd(a, b) == Pack(0, 0, 0)
  {
    hide Words.Sig, Words.Sign, AddAligned, Normalise, Aligned, Pack, Finish, FAdd;
    NormalSum(a, b);
    AlignedGap(a, b);
    AlignedZero(b.Sig());
  }
}
