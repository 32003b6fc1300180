/** tools/tests/float/run_float_tests.py: the integer models of the shipped 12-bit product and quotient
    routines, and how far they are from the exact results. */
module LowPrec {
  import opened Isa
  import opened ObjFile
  import opened Float48
  import opened FloatLaws
  import opened FloatValues

  /** `_low_prec_fmul`: the top words' 24-bit product. */
  function LowMul(a: Words, b: Words): Words {
    var s, ca, cb := SignXor(a.Sign(), b.Sign()), a.Class(), b.Class();
    if ca == Nan || cb == Nan then QUIET
    else if (ca == Zero && cb == Inf) || (ca == Inf && cb == Zero) then QUIET
    else if ca == Inf || cb == Inf then Pack(s, 2047, 0)
    else if ca == Zero || cb == Zero then Pack(s, 0, 0)
    else
      var p: int := a.w1 * b.w1;
      if p / 0x80_0000 % 2 == 1 then LowWords(s, a.Exp() + b.Exp() - BIAS + 1, p)
      else LowWords(s, a.Exp() + b.Exp() - BIAS, 2 * p)
  }

  function LowWords(s: Bit, exp: int, p: int): Words {
    if exp >= 2047 then Pack(s, 2047, 0)
    else if exp <= 0 then Pack(s, 0, 0)
    else Words(Head(s, exp), p / 4096 % 4096, p % 4096, 0)
  }

  /** `_low_prec_fdiv`: the top words' quotient; nothing when it divides by zero. */
  function LowDiv(a: Words, b: Words): Option<Words> {
    var s, ca, cb := SignXor(a.Sign(), b.Sign()), a.Class(), b.Class();
    if ca == Nan || cb == Nan || (ca == Inf && cb == Inf) || (ca == Zero && cb == Zero) then Some(QUIET)
    else if cb == Zero || ca == Inf then Some(Pack(s, 2047, 0))
    else if ca == Zero || cb == Inf then Some(Pack(s, 0, 0))
    else if b.w1 == 0 then None
    else
      var q: int := a.w1 * 2048 / b.w1;
      if q / 2048 % 2 == 1 then Some(LowQuotient(s, a.Exp() - b.Exp() + BIAS, q))
      else Some(LowQuotient(s, a.Exp() - b.Exp() + BIAS - 1, 2 * q))
  }

  function LowQuotient(s: Bit, exp: int, q: int): Words {
    if exp >= 2047 then Pack(s, 2047, 0)
    else if exp <= 0 then Pack(s, 0, 0)
    else Pack(s, exp, q % 4096 * 0x100_0000)
  }

  /** The top word alone. */
  function Top(f: Words): Words { f.(w2 := 0, w3 := 0) }

  /** The 12-bit product is the 36-bit one of the operands' top words: no operand classed as a NaN. */
  lemma LowMulIsTopMul(a: Words, b: Words)
    requires a.Class() != Nan && b.Class() != Nan
    ensures LowMul(a, b) == FMul(Top(a), Top(b))
  {
    hide Pack, Finish, LowWords, Words.Sign, Words.Exp, Words.Sig;
    TopClass(a);
    TopClass(b);
    hide Words.Class;
    if a.Class() == Normal && b.Class() == Normal {
      var s, p: nat, e := SignXor(a.Sign(), b.Sign()), a.w1 * b.w1, a.Exp() + b.Exp() - BIAS;
      TopProduct(a, b);
      WordProduct(a.w1, b.w1);
      ProductWords(s, e, p, Top(a).Sig() * Top(b).Sig());
    }
  }

  /** The product of the top words packed, and the product of the significands they stand for. */
  lemma ProductWords(s: Bit, e: int, p: nat, prod: nat)
    requires p < 0x100_0000 && prod / SIG_SPAN == p * 4096 && prod / LEAD == 2 * p * 4096
    requires prod / 0x80_0000_0000_0000_0000 % 2 == 1 <==> p / 0x80_0000 % 2 == 1
    ensures (if p / 0x80_0000 % 2 == 1 then LowWords(s, e + 1, p) else LowWords(s, e, 2 * p))
         == if prod / 0x80_0000_0000_0000_0000 % 2 == 1 then Finish(s, e + 1, prod / SIG_SPAN) else Finish(s, e, prod / LEAD)
  {
    hide Pack, Finish, LowWords;
    LowIsFinish(s, e + 1, p);
    if p / 0x80_0000 % 2 == 0 { LowIsFinish(s, e, 2 * p); }
  }

  lemma WordProduct(x: Word, y: Word)
    ensures x * y < 0x100_0000
  {
    ProductOrder(x, y, 4095, 4095);
  }

  lemma TopClass(f: Words)
    requires f.Class() != Nan
    ensures Top(f).Class() == f.Class() && Top(f).Sign() == f.Sign() && Top(f).Exp() == f.Exp()
    ensures Top(f).Sig() == f.w1 * 0x100_0000
  {
  }

  lemma TopProduct(a: Words, b: Words)
    requires Top(a).Sig() == a.w1 * 0x100_0000 && Top(b).Sig() == b.w1 * 0x100_0000
    ensures var p, prod: nat := a.w1 * b.w1, Top(a).Sig() * Top(b).Sig();
            prod == p * 0x1_0000_0000_0000 && (prod / 0x80_0000_0000_0000_0000 % 2 == 1 <==> p / 0x80_0000 % 2 == 1)
            && prod / SIG_SPAN == p * 4096 && prod / LEAD == 2 * p * 4096
  {
    hide Words.Sig;
    var x: int, y: int := a.w1, b.w1;
    assert x * 0x100_0000 * (y * 0x100_0000) == x * y * 0x1_0000_0000_0000;
  }

  lemma LowIsFinish(s: Bit, exp: int, p: nat)
    requires p < 0x100_0000
    ensures LowWords(s, exp, p) == Finish(s, exp, p * 4096)
  {
    assert p * 4096 % SIG_SPAN == p * 4096;
    assert p * 4096 / 0x100_0000 == p / 4096 && p * 4096 / 4096 == p && p * 4096 % 4096 == 0;
  }

  // ---- error bounds ---------------------------------------------------------------

  lemma TopBounds(f: Words)
    requires IsNormal(f)
    ensures f.w1 >= 2048 && f.w1 * 0x100_0000 <= f.Sig() < (f.w1 + 1) * 0x100_0000
    ensures 2048 * f.Sig() < 2049 * f.w1 * 0x100_0000
  {
  }

  lemma MulRatio(m: nat, n: nat, x: nat, y: nat)
    requires x <= m && y <= n && x > 0 && y > 0 && 2048 * m < 2049 * x && 2048 * n < 2049 * y
    ensures x * y <= m * n && 1023 * (m * n) < 1024 * (x * y)
  {
    ProductOrder(x, y, m, n);
    ProductOrder(2048 * m, 2048 * n, 2049 * x, 2049 * y);
    assert (2048 * m) * (2048 * n) == 4194304 * (m * n);
    assert (2049 * x) * (2049 * y) == 4198401 * (x * y);
    assert x * y > 0;
  }

  /** The magnitude of a 12-bit product that is a normal. */
  lemma LowMulMagnitude(a: Words, b: Words)
    requires IsNormal(a) && IsNormal(b) && LowMul(a, b).Class() == Normal
    ensures LowMul(a, b).Sign() == SignXor(a.Sign(), b.Sign())
    ensures Magnitude(LowMul(a, b)) == ((a.w1 * 0x100_0000) * (b.w1 * 0x100_0000)) as real * Pow(a.Exp() + b.Exp() - 2118)
  {
    hide Pow, Finish, Pack, LowMul, FMul, Magnitude, SignXor, Words.Sign;
    var r := LowMul(a, b);
    TopClass(a);
    TopClass(b);
    TopBounds(a);
    TopBounds(b);
    hide Words.Sig, Words.Exp;
    LowMulIsTopMul(a, b);
    ExactProduct(Top(a), Top(b), a.w1, b.w1);
    ProductMagnitude(Top(a), Top(b));
  }

  /** A product whose truncation drops nothing. */
  lemma ExactProduct(a: Words, b: Words, x: Word, y: Word)
    requires IsNormal(a) && IsNormal(b) && a.Sig() == x * 0x100_0000 && b.Sig() == y * 0x100_0000
    requires FMul(a, b).Class() == Normal
    ensures FMul(a, b).Sign() == SignXor(a.Sign(), b.Sign())
    ensures Magnitude(FMul(a, b)) == Magnitude(a) * Magnitude(b)
  {
    hide Pow, Finish, Pack, FMul, Magnitude, SignXor, Words.Sign, Words.Sig, Words.Exp;
    var prod := a.Sig() * b.Sig();
    var k, unit, sig := ExactShift(a.Sig(), b.Sig(), x, y);
    NormalProduct(a, b);
    FinishedMagnitude(SignXor(a.Sign(), b.Sign()), a.Exp() + b.Exp() - BIAS + k, sig);
    ProductMagnitude(a, b);
    ShiftedMagnitude(sig, unit, prod, a.Exp() + b.Exp() - 2118, k);
  }

  /** The product shifts down by 35 or 36 bits without loss. */
  lemma ExactShift(m: nat, n: nat, x: Word, y: Word) returns (k: nat, unit: nat, sig: nat)
    requires LEAD <= m < SIG_SPAN && LEAD <= n < SIG_SPAN && m == x * 0x100_0000 && n == y * 0x100_0000
    ensures k == if m * n / 0x80_0000_0000_0000_0000 % 2 == 1 then 1 else 0
    ensures unit == if k == 1 then SIG_SPAN else LEAD
    ensures sig == m * n / unit && sig * unit == m * n && LEAD <= sig < SIG_SPAN
  {
    var p: int := x * y;
    WideProduct(m, n, x, y);
    ProductRange(m, n);
    var prod := m * n;
    TopBit(prod);
    k := if prod / 0x80_0000_0000_0000_0000 % 2 == 1 then 1 else 0;
    unit := if k == 1 then SIG_SPAN else LEAD;
    sig := prod / unit;
    WholeShift(prod, p);
  }

  lemma WideProduct(m: nat, n: nat, x: int, y: int)
    requires m == x * 0x100_0000 && n == y * 0x100_0000
    ensures m * n == x * y * 0x1_0000_0000_0000
  {
    assert x * 0x100_0000 * (y * 0x100_0000) == x * y * 0x1_0000_0000_0000;
  }

  lemma WholeShift(prod: nat, p: int)
    requires prod == p * 0x1_0000_0000_0000
    ensures prod / SIG_SPAN * SIG_SPAN == prod && prod / LEAD * LEAD == prod
  {
  }

  lemma FinishedMagnitude(sign: Bit, exp: int, sig: nat)
    requires LEAD <= sig < SIG_SPAN && Finish(sign, exp, sig).Class() == Normal
    ensures Finish(sign, exp, sig).Sign() == sign && Magnitude(Finish(sign, exp, sig)) == sig as real * Ulp(exp)
  {
    hide Finish, Ulp, Words.Sign, Words.Sig, Words.Exp;
    FinishShape(sign, exp, sig);
  }

  lemma ShiftedMagnitude(sig: nat, unit: nat, prod: nat, e: int, k: nat)
    requires k <= 1 && unit == (if k == 1 then SIG_SPAN else LEAD) && sig * unit == prod
    ensures sig as real * Pow(e + 35 + k) == prod as real * Pow(e)
  {
    hide Pow;
    PowSpan();
    PowSum(e, 35 + k);
    assert e + (35 + k) == e + 35 + k;
    Rescale(sig, unit, prod, Pow(e), Pow(35 + k), Pow(e + 35 + k));
  }

  lemma Rescale(sig: nat, unit: nat, prod: nat, p: real, q: real, r: real)
    requires sig * unit == prod && q == unit as real && r == p * q
    ensures sig as real * r == prod as real * p
  {
    assert (sig * unit) as real == sig as real * unit as real;
    assert sig as real * (p * q) == (sig as real * q) * p;
  }

  /** The 12-bit product of normals has the right sign, never exceeds the exact product in magnitude
      and is more than (1 - 2^-10) times it, unless it leaves the range. */
  lemma LowMulBounds(a: Words, b: Words)
    requires IsNormal(a) && IsNormal(b) && LowMul(a, b).Class() == Normal
    ensures var r, exact := LowMul(a, b), Magnitude(a) * Magnitude(b);
            r.Sign() == SignXor(a.Sign(), b.Sign())
            && Magnitude(r) <= exact && 1024.0 * Magnitude(r) > 1023.0 * exact
  {
    hide *;
    TopBounds(a);
    TopBounds(b);
    var x: nat, y: nat := a.w1 * 0x100_0000, b.w1 * 0x100_0000;
    MulRatio(a.Sig(), b.Sig(), x, y);
    LowMulMagnitude(a, b);
    ProductMagnitude(a, b);
    RatioScaled(x * y, a.Sig() * b.Sig(), Pow(a.Exp() + b.Exp() - 2118));
  }

  lemma RatioScaled(low: nat, full: nat, p: real)
    requires low <= full && 1023 * full < 1024 * low && p > 0.0
    ensures low as real * p <= full as real * p
    ensures 1024.0 * (low as real * p) > 1023.0 * (full as real * p)
  {
    Scale(low as real, full as real, p);
    Strict(1023.0 * full as real, 1024.0 * low as real, p);
  }

  /** The top quotient against the full significands. */
  lemma TopQuotient(m: nat, n: nat, x: Word, y: Word)
    requires 2048 <= x && 2048 <= y
    requires x * 0x100_0000 <= m < (x + 1) * 0x100_0000 && y * 0x100_0000 <= n < (y + 1) * 0x100_0000
    ensures var q: nat := x * 2048 / y; 1024 <= q < 4096 && 2045 * m < q * n < 2049 * m
  {
    var u: int, v: int := x, y;
    var q := u * 2048 / v;
    assert q * v <= 2048 * u < q * v + v;
    QuotientBounds(u * 2048, v, 1024, 4096);
    ProductOrder(q, v * 0x100_0000, q, n);
    assert q * (v * 0x100_0000) == q * v * 0x100_0000;
    ProductOrder(q, n, q, (v + 1) * 0x100_0000 - 1);
    assert q * ((v + 1) * 0x100_0000 - 1) == q * v * 0x100_0000 + q * 0x100_0000 - q;
    QuotientSlack(u, v, q);
  }

  lemma QuotientSlack(u: nat, v: nat, q: nat)
    requires 2048 <= u <= 4095 && 2048 <= v <= 4095 && q * v <= 2048 * u && q > 0
    ensures q * v + q <= 2049 * u
  {
    if q > u {
      ProductOrder(u + 1, 2048, q, v);
    }
  }

  lemma LowDivMagnitude(a: Words, b: Words)
    requires IsNormal(a) && IsNormal(b) && LowDiv(a, b).Some? && LowDiv(a, b).value.Class() == Normal
    ensures b.w1 > 0 && LowDiv(a, b).value.Sign() == SignXor(a.Sign(), b.Sign())
    ensures Magnitude(LowDiv(a, b).value) == (a.w1 * 2048 / b.w1) as real * Pow(a.Exp() - b.Exp() - 11)
  {
    hide Pow, Pack, Magnitude, SignXor, Words.Sign, Words.Exp, LowQuotient;
    TopBounds(a);
    TopBounds(b);
    hide Words.Sig;
    TopQuotient(a.Sig(), b.Sig(), a.w1, b.w1);
    var q: nat := a.w1 * 2048 / b.w1;
    var s, e := SignXor(a.Sign(), b.Sign()), a.Exp() - b.Exp();
    if q >= 2048 {
      LowQuotientMagnitude(s, e + BIAS, q);
      ShiftLow(q, e - 35, e - 11);
    } else {
      LowQuotientMagnitude(s, e + BIAS - 1, 2 * q);
      ShiftLow(2 * q, e - 36, e - 12);
      PowUp(e - 12);
      Twofold(q, Pow(e - 12), Pow(e - 11));
    }
  }

  lemma Twofold(q: nat, p: real, r: real)
    requires r == 2.0 * p
    ensures (2 * q) as real * p == q as real * r
  {
  }

  lemma LowQuotientMagnitude(s: Bit, exp: int, q: nat)
    requires 2048 <= q < 4096 && LowQuotient(s, exp, q).Class() == Normal
    ensures LowQuotient(s, exp, q).Sign() == s
    ensures Magnitude(LowQuotient(s, exp, q)) == (q * 0x100_0000) as real * Pow(exp - 1059)
  {
    hide Finish, Pow, Words.Sign, Words.Sig, Words.Exp, Pack;
    assert q * 0x100_0000 % SIG_SPAN == q * 0x100_0000;
    AsFinish(s, exp, q);
    FinishedMagnitude(s, exp, q * 0x100_0000);
  }

  lemma AsFinish(s: Bit, exp: int, q: nat)
    requires q < 4096
    ensures LowQuotient(s, exp, q) == Finish(s, exp, q * 0x100_0000)
  {
    hide Pack;
    assert q * 0x100_0000 % SIG_SPAN == q * 0x100_0000;
  }

  lemma ShiftLow(q: nat, e: int, e': int)
    requires e' == e + 24
    ensures (q * 0x100_0000) as real * Pow(e) == q as real * Pow(e')
  {
    hide Pow;
    PowLarge();
    PowSum(e, 24);
    Rescale(q, 0x100_0000, q * 0x100_0000, Pow(e), Pow(24), Pow(e'));
  }

  lemma RatioOfReals(q: nat, m: nat, n: nat, p: real, r: real)
    requires n > 0 && p > 0.0 && r == 33554432.0 * p && 2045 * m < q * n < 2049 * m
    ensures var low, exact := q as real * r, ((m * SIG_SPAN) as real / n as real) * p;
            2048.0 * (low - exact) < exact && 2048.0 * (exact - low) < 3.0 * exact
  {
    var z := (m * SIG_SPAN) as real / n as real;
    assert z * n as real == (m * SIG_SPAN) as real == m as real * 68719476736.0;
    var y := q as real * 33554432.0;
    assert y * n as real == (q * n) as real * 33554432.0;
    assert (q * n) as real < 2049.0 * m as real && 2045.0 * m as real < (q * n) as real;
    Below(2048.0 * y, 2049.0 * z, n as real);
    Below(2045.0 * z, 2048.0 * y, n as real);
    Strict(2048.0 * y, 2049.0 * z, p);
    Strict(2045.0 * z, 2048.0 * y, p);
    assert q as real * r == y * p;
  }

  lemma Below(x: real, y: real, n: real)
    requires n > 0.0 && x * n < y * n
    ensures x < y
  {
    Scale(y, x, n);
  }

  /** The 12-bit quotient of normals has the right sign and is within 3 parts in 2048 of the exact
      quotient, above by less than 1 part in 2048, unless it leaves the range; it never fails. */
  lemma LowDivBounds(a: Words, b: Words)
    requires IsNormal(a) && IsNormal(b)
    ensures LowDiv(a, b).Some? && Magnitude(b) > 0.0
    ensures LowDiv(a, b).value.Class() == Normal ==>
              var r, exact := LowDiv(a, b).value, Magnitude(a) / Magnitude(b);
              r.Sign() == SignXor(a.Sign(), b.Sign())
              && 2048.0 * (Magnitude(r) - exact) < exact && 2048.0 * (exact - Magnitude(r)) < 3.0 * exact
  {
    hide *;
    LowDivSome(a, b);
    if LowDiv(a, b).value.Class() == Normal { LowDivClose(a, b); }
  }

  lemma LowDivSome(a: Words, b: Words)
    requires IsNormal(a) && IsNormal(b)
    ensures LowDiv(a, b).Some? && Magnitude(b) > 0.0
  {
    hide Pow, Pack, Magnitude, SignXor, Words.Sign, Words.Exp, LowQuotient;
    TopBounds(a);
    TopBounds(b);
    hide Words.Sig;
    QuotientMagnitude(a, b);
  }

  lemma PowLarge()
    ensures Pow(24) == 16777216.0 && Pow(25) == 33554432.0
  {
    hide Pow;
    PowSpan();
    PowSum(11, 11);
    PowUp(22);
    PowUp(23);
    PowUp(24);
  }

  lemma LowDivClose(a: Words, b: Words)
    requires IsNormal(a) && IsNormal(b) && LowDiv(a, b).Some? && LowDiv(a, b).value.Class() == Normal
    ensures Magnitude(b) > 0.0
    ensures var r, exact := LowDiv(a, b).value, Magnitude(a) / Magnitude(b);
            r.Sign() == SignXor(a.Sign(), b.Sign())
            && 2048.0 * (Magnitude(r) - exact) < exact && 2048.0 * (exact - Magnitude(r)) < 3.0 * exact
  {
    hide *;
    LowDivSome(a, b);
    TopBounds(a);
    TopBounds(b);
    QuotientMagnitude(a, b);
    LowDivMagnitude(a, b);
    TopQuotient(a.Sig(), b.Sig(), a.w1, b.w1);
    var e := a.Exp() - b.Exp() - 36;
    PowLarge();
    PowSum(e, 25);
    assert e + 25 == a.Exp() - b.Exp() - 11;
    RatioOfReals(a.w1 * 2048 / b.w1, a.Sig(), b.Sig(), Pow(e), Pow(e + 25));
  }

  /** On special operands the 12-bit routines and the 36-bit models give the same word. */
  lemma LowSpecials(a: Words, b: Words)
    requires a.Class() != Normal || b.Class() != Normal
    ensures LowMul(a, b) == FMul(a, b) && LowDiv(a, b) == FDiv(a, b)
  {
    hide Pack, Words.Sig, Words.Exp, Words.Sign, Finish, LowQuotient, LowWords;
  }
}
