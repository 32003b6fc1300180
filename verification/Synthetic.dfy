/** The synthetic `or` and `xor` of pytools/asm.py: what their three and four words do on the processor,
    and exactly when that is the bitwise operation. */
module Synthetic {
  import opened Isa
  import opened Machine

  /** `or rx, ry, rz` with r4 as scratch. */
  function OrWords(rx: Reg, ry: Reg, rz: Reg): seq<Word> {
    [EncodeR3(OP_AND, 4, ry, rz), EncodeR3(OP_ADD, rx, ry, rz), EncodeR3(OP_SUB, rx, rx, 4)]
  }

  /** `xor rx, ry, rz`: one more subtraction. */
  function XorWords(rx: Reg, ry: Reg, rz: Reg): seq<Word> {
    OrWords(rx, ry, rz) + [EncodeR3(OP_SUB, rx, rx, 4)]
  }

  /** The words stand in memory at the program counter. */
  ghost predicate Ahead(s: State, ws: seq<Word>) { forall k | 0 <= k < |ws| :: WordAhead(s, ws, k) }

  ghost predicate WordAhead(s: State, ws: seq<Word>, k: int) {
    0 <= k < |ws| && Read(s.mem, Mask12(s.pc + k)) == ws[k]
  }

  /** Everything but `rx`, r4, the flag and the program counter. */
  ghost predicate OnlyTouches(s: State, s': State, rx: Reg) {
    s'.mem == s.mem && s'.running == s.running && forall r: Reg | r != rx && r != 4 :: s'.Get(r) == s.Get(r)
  }

  lemma {:induction false} OrOnes(a: nat, b: nat, k: nat)
    requires a <= Ones(k) && b <= Ones(k)
    ensures BitOr(a, b) <= Ones(k)
    decreases k
  {
    if k > 0 { OrOnes(a / 2, b / 2, k - 1); }
  }

  lemma TwelveOnes()
    ensures Ones(12) == 4095
  {
    assert Ones(4) == 15;
    assert Ones(8) == 255;
  }

  /** OR and XOR of words are words, by way of AND. */
  lemma WordBits(a: Word, b: Word)
    ensures BitOr(a, b) == a + b - BitAnd(a, b) <= 4095
    ensures BitXor(a, b) == a + b - 2 * BitAnd(a, b) <= BitOr(a, b)
  {
    TwelveOnes();
    OrOnes(a, b, 12);
    OrXorFromAnd(a, b);
  }

  lemma {:induction false} AndSelf(a: nat)
    ensures BitAnd(a, a) == a
  {
    if a > 0 { AndSelf(a / 2); }
  }

  // ---- single steps ---------------------------------------------------------------

  lemma StepAnd(s: State, rd: Reg, ra: Reg, rb: Reg)
    requires Read(s.mem, s.pc) == EncodeR3(OP_AND, rd, ra, rb)
    ensures Step(s) == s.Next().Set(rd, BitAnd(s.Get(ra), s.Get(rb)))
  {
    hide EncodeR3, Decode, BitAnd, Read, Mask12, State.Get, State.Set;
    DecodeR3(OP_AND, rd, ra, rb);
  }

  lemma StepAdd(s: State, rd: Reg, ra: Reg, rb: Reg)
    requires Read(s.mem, s.pc) == EncodeR3(OP_ADD, rd, ra, rb)
    ensures Step(s) == s.Next().Set(rd, s.Get(ra) + s.Get(rb)).(t := if s.Get(ra) + s.Get(rb) > 4095 then 1 else 0)
  {
    hide EncodeR3, Decode, BitAnd, Read, Mask12, State.Get, State.Set;
    DecodeR3(OP_ADD, rd, ra, rb);
  }

  lemma StepSub(s: State, rd: Reg, ra: Reg, rb: Reg)
    requires Read(s.mem, s.pc) == EncodeR3(OP_SUB, rd, ra, rb)
    ensures Step(s) == s.Next().Set(rd, s.Get(ra) - s.Get(rb)).(t := if s.Get(ra) < s.Get(rb) then 1 else 0)
  {
    hide EncodeR3, Decode, BitAnd, Read, Mask12, State.Get, State.Set;
    DecodeR3(OP_SUB, rd, ra, rb);
  }

  lemma MaskNext(pc: Word, k: int)
    ensures Mask12(Mask12(pc + k) + 1) == Mask12(pc + (k + 1))
  {
  }

  lemma MaskMinus(x: int, m: int)
    ensures Mask12(Mask12(x) - m) == Mask12(x - m)
  {
  }

  // ---- or -------------------------------------------------------------------------

  /** What the first two words leave in `rx`, before r4 is taken off again. */
  function Sum(s: State, ry: Reg, rz: Reg): int {
    var m := BitAnd(s.Get(ry), s.Get(rz));
    (if ry == 4 then m else s.Get(ry)) + (if rz == 4 then m else s.Get(rz))
  }

  /** Registers without storage. */
  predicate Wired(r: Reg) { r == 0 || r == 7 }

  /** Setting a register changes that register, unless it is wired. */
  lemma SetEffect(s: State, r: Reg, v: int)
    ensures var s' := s.Set(r, v);
            (forall q: Reg :: s'.Get(q) == if q == r && !Wired(r) then Mask12(v) else s.Get(q))
            && s'.mem == s.mem && s'.running == s.running && s'.pc == s.pc && s'.t == s.t
  {
    hide Mask12;
  }

  lemma FieldsKept(s: State, p: Word, t: Bit)
    ensures forall q: Reg :: s.(t := t).Get(q) == s.Get(q) && s.(pc := p).Get(q) == s.Get(q)
    ensures s.r4 == s.Get(4)
  {
  }

  /** The three steps, register by register. */
  lemma ThreeSteps(s: State, rx: Reg, ry: Reg, rz: Reg) returns (s1: State, s2: State, s3: State)
    requires Ahead(s, OrWords(rx, ry, rz))
    ensures Run(s, 3) == s3 && s3.pc == Mask12(s.pc + 3)
    ensures forall q: Reg :: s1.Get(q) == if q == 4 then Mask12(BitAnd(s.Get(ry), s.Get(rz))) else s.Get(q)
    ensures forall q: Reg :: s2.Get(q) == if q == rx && !Wired(rx) then Mask12(s1.Get(ry) + s1.Get(rz)) else s1.Get(q)
    ensures forall q: Reg :: s3.Get(q) == if q == rx && !Wired(rx) then Mask12(s2.Get(rx) - s2.Get(4)) else s2.Get(q)
    ensures s3.mem == s.mem && s3.running == s.running
  {
    hide EncodeR3, BitAnd, Read, Mask12, Step, State.Get, State.Set;
    var ws := OrWords(rx, ry, rz);
    MaskId(s.pc);
    assert WordAhead(s, ws, 0);
    StepAnd(s, 4, ry, rz);
    s1 := Step(s);
    FieldsKept(s, Mask12(s.pc + 1), 0);
    SetEffect(s.Next(), 4, BitAnd(s.Get(ry), s.Get(rz)));
    assert WordAhead(s, ws, 1);
    StepAdd(s1, rx, ry, rz);
    s2 := Step(s1);
    MaskNext(s.pc, 1);
    FieldsKept(s1, Mask12(s.pc + 2), 0);
    SetEffect(s1.Next(), rx, s1.Get(ry) + s1.Get(rz));
    FieldsKept(s1.Next().Set(rx, s1.Get(ry) + s1.Get(rz)), 0, s2.t);
    assert WordAhead(s, ws, 2);
    StepSub(s2, rx, rx, 4);
    s3 := Step(s2);
    MaskNext(s.pc, 2);
    FieldsKept(s2, Mask12(s.pc + 3), 0);
    SetEffect(s2.Next(), rx, s2.Get(rx) - s2.Get(4));
    FieldsKept(s2.Next().Set(rx, s2.Get(rx) - s2.Get(4)), 0, s3.t);
    RunThree(s);
  }

  lemma RunThree(s: State)
    ensures Run(s, 3) == Step(Step(Step(s)))
  {
    hide Step;
    assert Run(s, 3) == Run(Step(s), 2) == Run(Step(Step(s)), 1);
  }

  /** The effect of the first three words. */
  lemma OrRuns(s: State, rx: Reg, ry: Reg, rz: Reg)
    requires Ahead(s, OrWords(rx, ry, rz)) && rx != 4
    ensures var m, s' := BitAnd(s.Get(ry), s.Get(rz)), Run(s, 3);
            s'.Get(rx) == (if Wired(rx) then s.Get(rx) else Mask12(Sum(s, ry, rz) - m)) && s'.Get(4) == m && s'.pc == Mask12(s.pc + 3) && OnlyTouches(s, s', rx)
  {
    hide EncodeR3, BitAnd, Read, Mask12, Run, State.Get, Ahead;
    var m: int := BitAnd(s.Get(ry), s.Get(rz));
    MaskId(m);
    var s1, s2, s3 := ThreeSteps(s, rx, ry, rz);
    MaskMinus(Sum(s, ry, rz), m);
  }

  /** The scratch register does no harm: no source is r4, or both are, or the other operand already
      has every bit of r4. */
  predicate Harmless(s: State, ry: Reg, rz: Reg) {
    (ry == 4 <==> rz == 4)
    || (ry == 4 && BitOr(s.Get(ry), s.Get(rz)) == s.Get(rz))
    || (rz == 4 && BitOr(s.Get(ry), s.Get(rz)) == s.Get(ry))
  }

  /** `or`: the words change `rx`, r4, which is left with the AND, and the flag, and nothing else; `rx` is
      the bitwise OR exactly when r4 as a source does no harm.  With r0 or r7 as `rx` the OR is lost. */
  lemma OrMeans(s: State, rx: Reg, ry: Reg, rz: Reg)
    requires Ahead(s, OrWords(rx, ry, rz)) && rx != 4
    ensures var s' := Run(s, 3);
            (if Wired(rx) then s'.Get(rx) == s.Get(rx)
             else (s'.Get(rx) == BitOr(s.Get(ry), s.Get(rz)) <==> Harmless(s, ry, rz)))
            && s'.Get(4) == BitAnd(s.Get(ry), s.Get(rz)) && s'.pc == Mask12(s.pc + 3) && OnlyTouches(s, s', rx)
  {
    hide BitAnd, BitOr, BitXor, Run, Mask12, Ahead, OnlyTouches;
    OrRuns(s, rx, ry, rz);
    var a: int, b: int := s.Get(ry), s.Get(rz);
    WordBits(a, b);
    AndSelf(a);
    MaskId(a + b - BitAnd(a, b));
    MaskId(a);
    MaskId(b);
  }

  /** `xor`: the same, with one more subtraction. */
  lemma XorMeans(s: State, rx: Reg, ry: Reg, rz: Reg)
    requires Ahead(s, XorWords(rx, ry, rz)) && rx != 4
    ensures var s' := Run(s, 4);
            (if Wired(rx) then s'.Get(rx) == s.Get(rx)
             else (s'.Get(rx) == BitXor(s.Get(ry), s.Get(rz)) <==> Harmless(s, ry, rz)))
            && s'.Get(4) == BitAnd(s.Get(ry), s.Get(rz)) && s'.pc == Mask12(s.pc + 4) && OnlyTouches(s, s', rx)
  {
    hide BitAnd, BitOr, BitXor, Mask12, Run, Ahead, OnlyTouches, State.Get;
    XorRuns(s, rx, ry, rz);
    var a: int, b: int := s.Get(ry), s.Get(rz);
    var m: int := BitAnd(a, b);
    WordBits(a, b);
    AndSelf(a);
    MaskId(a + b - 2 * m);
    if a >= m { MaskId(a - m); }
    if b >= m { MaskId(b - m); }
    MaskId(0);
  }

  /** The effect of the four words. */
  lemma XorRuns(s: State, rx: Reg, ry: Reg, rz: Reg)
    requires Ahead(s, XorWords(rx, ry, rz)) && rx != 4
    ensures var m, s' := BitAnd(s.Get(ry), s.Get(rz)), Run(s, 4);
            s'.Get(rx) == (if Wired(rx) then s.Get(rx) else Mask12(Sum(s, ry, rz) - m - m)) && s'.Get(4) == m && s'.pc == Mask12(s.pc + 4) && OnlyTouches(s, s', rx)
  {
    hide BitAnd, Mask12, EncodeR3, Read, Step, Run, State.Get, State.Set;
    AheadOr(s, rx, ry, rz);
    OrRuns(s, rx, ry, rz);
    var m: int := BitAnd(s.Get(ry), s.Get(rz));
    var s3 := Run(s, 3);
    assert WordAhead(s, XorWords(rx, ry, rz), 3);
    StepSub(s3, rx, rx, 4);
    MaskNext(s.pc, 3);
    OneMore(s);
    FieldsKept(s3, Mask12(s.pc + 4), 0);
    SetEffect(s3.Next(), rx, s3.Get(rx) - s3.Get(4));
    FieldsKept(s3.Next().Set(rx, s3.Get(rx) - s3.Get(4)), 0, Run(s, 4).t);
    MaskMinus(Sum(s, ry, rz) - m, m);
  }

  lemma OneMore(s: State)
    ensures Run(s, 4) == Step(Run(s, 3))
  {
    hide Step;
    RunSum(s, 3, 1);
  }

  lemma AheadOr(s: State, rx: Reg, ry: Reg, rz: Reg)
    requires Ahead(s, XorWords(rx, ry, rz))
    ensures Ahead(s, OrWords(rx, ry, rz))
  {
    hide EncodeR3, Read, Mask12;
    var ws := XorWords(rx, ry, rz);
    forall k | 0 <= k < 3
      ensures WordAhead(s, OrWords(rx, ry, rz), k)
    {
      assert WordAhead(s, ws, k);
    }
  }
}
