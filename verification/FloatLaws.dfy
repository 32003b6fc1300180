/** Laws of the 48-bit float operations that do not speak of values: signs, special operands and
    the exact extent to which addition commutes. */
module FloatLaws {
  import opened Isa
  import opened ObjFile
  import opened Float48

  lemma PackSign(sign: Bit, exp: int, sig: int)
    ensures Pack(sign, exp, sig).Sign() == sign
  {
  }

  lemma FinishSign(sign: Bit, exp: int, sig: int)
    ensures Finish(sign, exp, sig).Sign() == sign
  {
    hide Pack;
    PackSign(sign, 2047, 0);
    PackSign(sign, 0, 0);
    PackSign(sign, exp, sig % SIG_SPAN);
  }

  /** Two normals on which addition is order dependent. */
  predicate OrderMatters(a: Words, b: Words) {
    a.Class() == Normal && b.Class() == Normal
    && a.Exp() == b.Exp() && a.Sign() != b.Sign() && a.Sig() != b.Sig()
  }

  /** On equal exponents the significands are subtracted as they stand, whichever is larger. */
  lemma EqualExponents(a: Words, b: Words)
    requires OrderMatters(a, b)
    ensures FAdd(a, b) == match Normalise(a.Sig() - b.Sig(), a.Exp())
                          case None => Pack(a.Sign(), 0, 0)
                          case Some(n) => Finish(a.Sign(), n.1, n.0)
  {
    hide Pack, Finish, Normalise;
    assert SpecialAddSub(a, b) == None;
    assert Aligned(b.Sig(), 0) == b.Sig();
  }

  /** A difference that does not cancel takes the sign of the first operand. */
  lemma DifferenceSign(a: Words, b: Words)
    requires OrderMatters(a, b)
    ensures FAdd(a, b).Sign() == a.Sign()
  {
    hide Pack, Finish, Normalise, FAdd;
    EqualExponents(a, b);
    PackSign(a.Sign(), 0, 0);
    match Normalise(a.Sig() - b.Sig(), a.Exp())
    case None =>
    case Some(n) => FinishSign(a.Sign(), n.1, n.0);
  }

  /** Special operands meet in either order. */
  lemma SpecialCommutes(a: Words, b: Words)
    ensures SpecialAddSub(a, b) == SpecialAddSub(b, a)
  {
    hide Pack;
  }

  /** A special sum is the same in either order. */
  lemma SpecialSum(a: Words, b: Words)
    requires SpecialAddSub(a, b).Some?
    ensures FAdd(a, b) == FAdd(b, a)
  {
    hide SpecialAddSub, AddAligned;
    SpecialCommutes(a, b);
  }

  /** On different exponents the operand with the larger one comes first either way. */
  lemma LargerFirst(a: Words, b: Words)
    requires SpecialAddSub(a, b).None? && a.Exp() != b.Exp()
    ensures FAdd(a, b) == FAdd(b, a)
  {
    hide SpecialAddSub, AddAligned, Words.Exp;
    SpecialCommutes(a, b);
  }

  /** On one exponent nothing is shifted away, so equal signs or equal significands give one result. */
  lemma SameScale(a: Words, b: Words)
    requires SpecialAddSub(a, b).None? && a.Exp() == b.Exp() && (a.Sign() == b.Sign() || a.Sig() == b.Sig())
    ensures FAdd(a, b) == FAdd(b, a)
  {
    hide Pack, Finish, Normalise, Bit36, SpecialAddSub, Words.Exp, Words.Sig, Words.Sign;
    SpecialCommutes(a, b);
    assert Aligned(b.Sig(), 0) == b.Sig() && Aligned(a.Sig(), 0) == a.Sig();
  }

  /** Addition commutes on every pair of words, specials and signed zeros included, except exactly on
      two normals of one exponent, opposite signs and different significands. */
  lemma AddCommutes(a: Words, b: Words)
    ensures FAdd(a, b) == FAdd(b, a) <==> !OrderMatters(a, b)
  {
    hide FAdd, SpecialAddSub, Words.Exp, Words.Sig, Words.Sign, Words.Class;
    NoneMeansNormal(a, b);
    if OrderMatters(a, b) {
      DifferenceSign(a, b);
      DifferenceSign(b, a);
    } else if SpecialAddSub(a, b).Some? {
      SpecialSum(a, b);
    } else if a.Exp() == b.Exp() {
      SameScale(a, b);
    } else {
      LargerFirst(a, b);
    }
  }

  /** 1.0 + (-1.5) gives +1.5, and (-1.5) + 1.0 gives -0.5. */
  lemma OneMinusOneAndAHalf()
    ensures var one, minusOneAndAHalf := Pack(0, 1024, LEAD), Pack(1, 1024, LEAD + LEAD / 2);
            FAdd(one, minusOneAndAHalf) == Pack(0, 1024, LEAD + LEAD / 2)
            && FAdd(minusOneAndAHalf, one) == Pack(1, 1023, LEAD)
  {
    hide *;
    var one, other := Pack(0, 1024, LEAD), Pack(1, 1024, LEAD + LEAD / 2);
    ExampleOperands();
    HalfNormalised();
    EqualExponents(one, other);
    EqualExponents(other, one);
  }

  lemma HalfNormalised()
    ensures Normalise(LEAD / 2, 1024) == Some((LEAD, 1023))
    ensures Normalise(-(LEAD / 2), 1024) == Some((-(LEAD / 2), 1024))
    ensures Finish(1, 1023, LEAD) == Pack(1, 1023, LEAD)
    ensures Finish(0, 1024, -(LEAD / 2)) == Pack(0, 1024, LEAD + LEAD / 2)
  {
    hide Pack;
    assert Normalise(LEAD, 1023) == Some((LEAD, 1023));
  }

  /** The two operands of the example, unpacked. */
  lemma ExampleOperands()
    ensures var one, other := Pack(0, 1024, LEAD), Pack(1, 1024, LEAD + LEAD / 2);
            OrderMatters(one, other) && OrderMatters(other, one)
            && one.Sign() == 0 && other.Sign() == 1 && one.Exp() == other.Exp() == 1024
            && one.Sig() == LEAD && other.Sig() == LEAD + LEAD / 2
  {
    hide Pack, Words.Sign, Words.Exp, Words.Sig;
    UnpackPack(0, 1024, LEAD);
    UnpackPack(1, 1024, LEAD + LEAD / 2);
  }

  /** Subtraction is addition of the negation, and negation flips the sign and nothing else. */
  lemma NegatedFlips(b: Words)
    ensures Negated(b).Sign() == 1 - b.Sign() && Negated(b).Exp() == b.Exp() && Negated(b).Sig() == b.Sig()
    ensures Negated(Negated(b)) == b
  {
  }

  lemma PackClass(sign: Bit, exp: nat, sig: nat)
    requires exp < 2048 && sig < SIG_SPAN
    ensures Pack(sign, exp, sig).Class() == Classify(exp, sig)
  {
    hide Pack, Classify;
    UnpackPack(sign, exp, sig);
  }

  /** The constants and the pass-through operands classify as what they stand for. */
  lemma SpecialClasses()
    ensures forall s: Bit :: Pack(s, 2047, 0).Class() == Inf && Pack(s, 0, 0).Class() == Zero
    ensures QUIET.Class() == Nan
  {
    hide Pack;
    forall s: Bit
      ensures Pack(s, 2047, 0).Class() == Inf && Pack(s, 0, 0).Class() == Zero
    {
      PackClass(s, 2047, 0);
      PackClass(s, 0, 0);
    }
    PackClass(0, 2047, LEAD);
  }

  /** The range check never makes a NaN. */
  lemma FinishClass(sign: Bit, exp: int, sig: int)
    ensures var c := Finish(sign, exp, sig).Class();
            c != Nan && (c == Inf <==> exp >= 2047) && (c == Zero <==> exp <= 0)
  {
    hide Pack;
    SpecialClasses();
    if 0 < exp < 2047 { PackClass(sign, exp, sig % SIG_SPAN); }
  }

  /** A sum is a NaN exactly when an operand is, or infinities of opposite sign meet. */
  lemma AddNan(a: Words, b: Words)
    ensures FAdd(a, b).Class() == Nan
       <==> a.Class() == Nan || b.Class() == Nan || (a.Class() == Inf && b.Class() == Inf && a.Sign() != b.Sign())
  {
    hide Pack, AddAligned, Words.Sign, Words.Exp, Words.Sig, Words.Class;
    SpecialClasses();
    PackUnpack(a);
    PackUnpack(b);
    NoneMeansNormal(a, b);
    if a.Class() == Normal && b.Class() == Normal {
      if a.Exp() < b.Exp() { AlignedClass(b, a); } else { AlignedClass(a, b); }
    }
  }

  lemma AlignedClass(a: Words, b: Words)
    requires a.Exp() >= b.Exp()
    ensures AddAligned(a, b).Class() != Nan
  {
    hide Pack, Finish, Normalise, Bit36, Aligned, Words.Sign, Words.Exp, Words.Sig, Words.Class;
    SpecialClasses();
    var low := Aligned(b.Sig(), a.Exp() - b.Exp());
    FinishClass(a.Sign(), a.Exp() + 1, (a.Sig() + low) / 2);
    FinishClass(a.Sign(), a.Exp(), a.Sig() + low);
    match Normalise(a.Sig() - low, a.Exp())
    case None =>
    case Some(n) => FinishClass(a.Sign(), n.1, n.0);
  }

  /** Sums with a zero or an infinity: zero plus a normal is the normal; an infinity absorbs everything but a
      NaN and its opposite; a sum of zeros is negative exactly when both are. */
  lemma SpecialSums(a: Words, b: Words)
    ensures a.Class() == Zero && b.Class() == Normal ==> FAdd(a, b) == b && FAdd(b, a) == b
    ensures a.Class() == Inf && b.Class() != Nan && (b.Class() == Inf ==> b.Sign() == a.Sign()) ==>
              FAdd(a, b) == a && FAdd(b, a) == a
    ensures a.Class() == Zero && b.Class() == Zero ==>
              FAdd(a, b) == Pack(if a.Sign() == 1 && b.Sign() == 1 then 1 else 0, 0, 0)
  {
    hide Pack, AddAligned, Words.Sign, Words.Exp, Words.Sig;
    PackUnpack(a);
    PackUnpack(b);
  }

  /** The same for differences. */
  lemma SpecialDifferences(a: Words, b: Words)
    ensures a.Class() == Zero && b.Class() == Normal ==> FSub(a, b) == Negated(b) && FSub(b, a) == b
    ensures a.Class() == Inf && b.Class() != Nan && (b.Class() == Inf ==> b.Sign() != a.Sign()) ==>
              FSub(a, b) == a && FSub(b, a) == Negated(a)
    ensures a.Class() == Zero && b.Class() == Zero ==>
              FSub(a, b) == Pack(if a.Sign() == 1 && b.Sign() == 0 then 1 else 0, 0, 0)
  {
    hide FAdd, Pack, Negated, Words.Sign, Words.Exp, Words.Sig;
    NegatedFlips(a);
    NegatedFlips(b);
    SpecialSums(a, Negated(b));
    SpecialSums(Negated(a), b);
  }

  /** A product is a NaN exactly when an operand is or zero meets infinity; otherwise its sign is the
      product of the signs, an infinity makes it one and a zero makes it one. */
  lemma MulNan(a: Words, b: Words)
    ensures var m := FMul(a, b);
            (m.Class() == Nan
             <==> a.Class() == Nan || b.Class() == Nan
                  || (a.Class() == Zero && b.Class() == Inf) || (a.Class() == Inf && b.Class() == Zero))
            && (m.Class() != Nan ==>
                  m.Sign() == SignXor(a.Sign(), b.Sign())
                  && (a.Class() == Inf || b.Class() == Inf ==> m.Class() == Inf)
                  && (a.Class() == Zero || b.Class() == Zero ==> m.Class() == Zero))
  {
    hide Pack, Finish, Words.Sign, Words.Exp, Words.Sig, Words.Class;
    SpecialClasses();
    var s, prod := SignXor(a.Sign(), b.Sign()), a.Sig() * b.Sig();
    PackSign(s, 2047, 0);
    PackSign(s, 0, 0);
    var e := a.Exp() + b.Exp() - BIAS;
    FinishClass(s, e + 1, prod / SIG_SPAN);
    FinishClass(s, e, prod / LEAD);
    FinishSign(s, e + 1, prod / SIG_SPAN);
    FinishSign(s, e, prod / LEAD);
  }

  /** Division by zero gives infinity, not an error, and so does an infinite dividend; a zero dividend or an
      infinite divisor gives zero; a quotient is a NaN exactly for a NaN operand,
      0/0 and inf/inf; the integer division raises exactly for a normal-class divisor without
      significand under a normal dividend. */
  lemma DivNan(a: Words, b: Words)
    ensures FDiv(a, b) == None <==> a.Class() == Normal && b.Class() == Normal && b.Sig() == 0
    ensures FDiv(a, b).Some? ==>
              var q := FDiv(a, b).value;
              (q.Class() == Nan
               <==> a.Class() == Nan || b.Class() == Nan
                    || (a.Class() == Zero && b.Class() == Zero) || (a.Class() == Inf && b.Class() == Inf))
              && (q.Class() != Nan ==>
                    q.Sign() == SignXor(a.Sign(), b.Sign())
                    && (a.Class() == Inf || b.Class() == Zero ==> q.Class() == Inf)
                    && (a.Class() == Zero || b.Class() == Inf ==> q.Class() == Zero))
  {
    hide Pack, Finish, Words.Sign, Words.Exp, Words.Sig, Words.Class;
    SpecialClasses();
    var s := SignXor(a.Sign(), b.Sign());
    PackSign(s, 2047, 0);
    PackSign(s, 0, 0);
    if FDiv(a, b).Some? && a.Class() == Normal && b.Class() == Normal {
      var q := a.Sig() * SIG_SPAN / b.Sig();
      var e := a.Exp() - b.Exp() + BIAS;
      FinishClass(s, e, q / 2);
      FinishClass(s, e - 1, q);
      FinishSign(s, e, q / 2);
      FinishSign(s, e - 1, q);
    }
  }

  /** One NaN and no odd zeros: a NaN result is the positive quiet one, and a zero result has no significand. */
  predicate Canonical(r: Words) {
    (r.Class() == Nan ==> r == Words(2047, 2048, 0, 0)) && (r.Class() == Zero ==> r.Sig() == 0)
  }

  lemma CanonicalPacks(s: Bit)
    ensures Canonical(QUIET) && Canonical(Pack(s, 2047, 0)) && Canonical(Pack(s, 0, 0))
  {
    hide Pack, Words.Class, Words.Sig;
    SpecialClasses();
    QuietWords();
    UnpackPack(s, 0, 0);
  }

  lemma QuietWords()
    ensures QUIET == Words(2047, 2048, 0, 0)
  {
  }

  lemma FinishCanonical(sign: Bit, exp: int, sig: int)
    ensures Canonical(Finish(sign, exp, sig))
  {
    hide Pack, Canonical;
    CanonicalPacks(sign);
    if 0 < exp < 2047 {
      PackClass(sign, exp, sig % SIG_SPAN);
      NormalCanonical(Finish(sign, exp, sig));
    }
  }

  lemma NormalCanonical(f: Words)
    requires f.Class() == Normal
    ensures Canonical(f)
  {
  }

  /** Every sum, difference, product and quotient is canonical. */
  lemma ResultsCanonical(a: Words, b: Words)
    ensures Canonical(FAdd(a, b)) && Canonical(FSub(a, b)) && Canonical(FMul(a, b))
    ensures FDiv(a, b).Some? ==> Canonical(FDiv(a, b).value)
  {
    hide FAdd, Pack, Finish, Canonical, Words.Sign, Words.Exp, Words.Sig, Words.Class;
    SumCanonical(a, b);
    SumCanonical(a, Negated(b));
    var s := SignXor(a.Sign(), b.Sign());
    CanonicalPacks(s);
    var prod, e: int := a.Sig() * b.Sig(), a.Exp() + b.Exp() - BIAS;
    FinishCanonical(s, e + 1, prod / SIG_SPAN);
    FinishCanonical(s, e, prod / LEAD);
    QuotientCanonical(a, b);
  }

  lemma QuotientCanonical(a: Words, b: Words)
    ensures FDiv(a, b).Some? ==> Canonical(FDiv(a, b).value)
  {
    hide Pack, Finish, Canonical, Words.Sign, Words.Exp, Words.Sig, Words.Class;
    var s := SignXor(a.Sign(), b.Sign());
    CanonicalPacks(s);
    if b.Sig() != 0 {
      var q, e: int := a.Sig() * SIG_SPAN / b.Sig(), a.Exp() - b.Exp() + BIAS;
      FinishCanonical(s, e, q / 2);
      FinishCanonical(s, e - 1, q);
    }
  }

  lemma SumCanonical(a: Words, b: Words)
    ensures Canonical(FAdd(a, b))
  {
    hide Pack, AddAligned, Canonical, Words.Sign, Words.Exp, Words.Sig;
    NoneMeansNormal(a, b);
    CanonicalPacks(a.Sign());
    CanonicalPacks(b.Sign());
    CanonicalPacks(0);
    PackUnpack(a);
    PackUnpack(b);
    if a.Class() == Normal { NormalCanonical(a); }
    if b.Class() == Normal { NormalCanonical(b); }
    if a.Class() == Normal && b.Class() == Normal {
      if a.Exp() < b.Exp() { AlignedCanonical(b, a); } else { AlignedCanonical(a, b); }
    }
  }

  lemma AlignedCanonical(a: Words, b: Words)
    requires a.Exp() >= b.Exp()
    ensures Canonical(AddAligned(a, b))
  {
    hide Pack, Finish, Normalise, Bit36, Aligned, Canonical, Words.Sign, Words.Exp, Words.Sig;
    CanonicalPacks(0);
    CanonicalPacks(a.Sign());
    var low := Aligned(b.Sig(), a.Exp() - b.Exp());
    FinishCanonical(a.Sign(), a.Exp() + 1, (a.Sig() + low) / 2);
    FinishCanonical(a.Sign(), a.Exp(), a.Sig() + low);
    match Normalise(a.Sig() - low, a.Exp())
    case None =>
    case Some(n) => FinishCanonical(a.Sign(), n.1, n.0);
  }
}
