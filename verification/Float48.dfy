/** pytools/float48.py: the 48-bit float format and its integer arithmetic. */
module Float48 {
  import opened Isa
  import opened ObjFile

  const BIAS := 1024
  const LEAD := 0x8_0000_0000
  const SIG_SPAN := 0x10_0000_0000

  /** Four words, most significant first. */
  datatype Words = Words(w0: Word, w1: Word, w2: Word, w3: Word) {
    function Sign(): Bit { if w0 >= 2048 then 1 else 0 }

    function Exp(): (e: nat)
      ensures e < 2048
    {
      if w0 >= 2048 then w0 - 2048 else w0
    }

    function Sig(): (n: nat)
      ensures n < SIG_SPAN
    {
      w1 * 0x100_0000 + w2 * 4096 + w3
    }

    function Class(): Class { Classify(Exp(), Sig()) }
  }

  datatype Class = Zero | Normal | Inf | Nan

  /** The first word: sign and exponent. */
  function Head(sign: Bit, exp: int): Word { (if sign == 1 then 2048 else 0) + exp % 2048 }

  function Pack(sign: Bit, exp: int, sig: int): Words {
    Words(Head(sign, exp), sig / 0x100_0000 % 4096, sig / 4096 % 4096, sig % 4096)
  }

  function Classify(exp: int, sig: int): Class {
    if exp == 0 then Zero
    else if exp == 2047 then if sig != 0 then Nan else Inf
    else Normal
  }

  const QUIET := Pack(0, 2047, LEAD)

  /** A right shift by `k` bits. */
  function Shr(n: nat, k: nat): nat
    decreases k
  {
    if k == 0 then n else Shr(n / 2, k - 1)
  }

  /** Bit 35 and bit 36 of an integer in two's complement. */
  function Bit35(n: int): Bit { n / LEAD % 2 }

  function Bit36(n: int): Bit { n / SIG_SPAN % 2 }

  /** The range check that ends every operation. */
  function Finish(sign: Bit, exp: int, sig: int): Words {
    if exp >= 2047 then Pack(sign, 2047, 0)
    else if exp <= 0 then Pack(sign, 0, 0)
    else Pack(sign, exp, sig % SIG_SPAN)
  }

  // ---- addition -------------------------------------------------------------------

  /** `_special_addsub`. */
  function SpecialAddSub(a: Words, b: Words): Option<Words> {
    var ca, cb := a.Class(), b.Class();
    if ca == Nan || cb == Nan then Some(QUIET)
    else if ca == Inf && cb == Inf then Some(if a.Sign() == b.Sign() then Pack(a.Sign(), 2047, 0) else QUIET)
    else if ca == Inf then Some(Pack(a.Sign(), 2047, 0))
    else if cb == Inf then Some(Pack(b.Sign(), 2047, 0))
    else if ca == Zero && cb == Zero then Some(Pack(if a.Sign() == 1 then b.Sign() else 0, 0, 0))
    else if ca == Zero then Some(Pack(b.Sign(), b.Exp(), b.Sig()))
    else if cb == Zero then Some(Pack(a.Sign(), a.Exp(), a.Sig()))
    else None
  }

  /** The normalising loop: the significand shifted up until bit 35 is set, or nothing when the
      exponent reaches zero first. */
  function Normalise(sig: int, exp: int): Option<(int, int)>
    decreases exp
  {
    if Bit35(sig) == 1 then Some((sig, exp))
    else if exp - 1 <= 0 then None
    else Normalise(2 * sig, exp - 1)
  }

  /** The smaller operand's significand on the larger one's scale. */
  function Aligned(sig: nat, diff: nat): nat {
    if diff >= 36 then 0 else Shr(sig, diff)
  }

  /** Two normals, the first with the larger exponent. */
  function AddAligned(a: Words, b: Words): Words
    requires a.Exp() >= b.Exp()
  {
    var low := Aligned(b.Sig(), a.Exp() - b.Exp());
    if a.Sign() == b.Sign() then
      var sum := a.Sig() + low;
      if Bit36(sum) == 1 then Finish(a.Sign(), a.Exp() + 1, sum / 2) else Finish(a.Sign(), a.Exp(), sum)
    else
      var gap: int := a.Sig() - low;
      if gap == 0 then Pack(0, 0, 0)
      else
        match Normalise(gap, a.Exp())
        case None => Pack(a.Sign(), 0, 0)
        case Some(n) => Finish(a.Sign(), n.1, n.0)
  }

  /** What `fadd_bits` computes. */
  function FAdd(a: Words, b: Words): Words {
    match SpecialAddSub(a, b)
    case Some(r) => r
    case None => if a.Exp() < b.Exp() then AddAligned(b, a) else AddAligned(a, b)
  }

  lemma NoneMeansNormal(a: Words, b: Words)
    ensures SpecialAddSub(a, b) == None <==> a.Class() == Normal && b.Class() == Normal
    ensures SpecialAddSub(a, b) == None ==> a.Exp() > 0 && b.Exp() > 0
  {
    hide Pack;
  }

  /** `fadd_bits`, with its swap and its loop. */
  method FaddBits(a: Words, b: Words) returns (r: Words)
    ensures r == FAdd(a, b)
  {
    hide Pack, Bit35, Bit36, Shr, SpecialAddSub, Words.Sign, Words.Exp, Words.Sig, Words.Class;
    NoneMeansNormal(a, b);
    var special := SpecialAddSub(a, b);
    if special.Some? { return special.value; }
    var sa, ea, siga: int := a.Sign(), a.Exp(), a.Sig();
    var sb, eb, sigb: nat := b.Sign(), b.Exp(), b.Sig();
    if ea < eb {
      sa, sb := sb, sa;
      ea, eb := eb, ea;
      siga, sigb := sigb, siga;
    }
    var diff := ea - eb;
    if diff >= 36 { sigb := 0; } else { sigb := Shr(sigb, diff); }
    var sig: int, exp: int := siga, ea;
    if sa == sb {
      sig := siga + sigb;
      if Bit36(sig) == 1 {
        sig := sig / 2;
        exp := exp + 1;
      }
    } else {
      sig := siga - sigb;
      if sig == 0 { return Pack(0, 0, 0); }
      ghost var goal := Normalise(sig, exp);
      while Bit35(sig) == 0
        invariant exp > 0 && Normalise(sig, exp) == goal
        decreases exp
      {
        sig := sig * 2;
        exp := exp - 1;
        if exp <= 0 { return Pack(sa, 0, 0); }
      }
    }
    if exp >= 2047 { return Pack(sa, 2047, 0); }
    if exp <= 0 { return Pack(sa, 0, 0); }
    return Pack(sa, exp, sig % SIG_SPAN);
  }

  function Negated(b: Words): Words { b.(w0 := if b.w0 >= 2048 then b.w0 - 2048 else b.w0 + 2048) }

  /** `fsub_bits`: the sign bit of the second operand is flipped. */
  function FSub(a: Words, b: Words): Words { FAdd(a, Negated(b)) }

  // ---- multiplication and division ------------------------------------------------

  function SignXor(s: Bit, t: Bit): Bit { if s == t then 0 else 1 }

  /** `fmul_bits`. */
  function FMul(a: Words, b: Words): Words {
    var s, ca, cb := SignXor(a.Sign(), b.Sign()), a.Class(), b.Class();
    if ca == Nan || cb == Nan then QUIET
    else if (ca == Zero && cb == Inf) || (ca == Inf && cb == Zero) then QUIET
    else if ca == Inf || cb == Inf then Pack(s, 2047, 0)
    else if ca == Zero || cb == Zero then Pack(s, 0, 0)
    else
      var prod := a.Sig() * b.Sig();
      if prod / 0x80_0000_0000_0000_0000 % 2 == 1 then Finish(s, a.Exp() + b.Exp() - BIAS + 1, prod / SIG_SPAN)
      else Finish(s, a.Exp() + b.Exp() - BIAS, prod / LEAD)
  }

  /** `fdiv_bits`; nothing when the integer division by a zero significand raises. */
  function FDiv(a: Words, b: Words): Option<Words> {
    var s, ca, cb := SignXor(a.Sign(), b.Sign()), a.Class(), b.Class();
    if ca == Nan || cb == Nan then Some(QUIET)
    else if ca == Zero && cb == Zero then Some(QUIET)
    else if ca == Inf && cb == Inf then Some(QUIET)
    else if cb == Zero then Some(Pack(s, 2047, 0))
    else if ca == Zero then Some(Pack(s, 0, 0))
    else if ca == Inf then Some(Pack(s, 2047, 0))
    else if cb == Inf then Some(Pack(s, 0, 0))
    else if b.Sig() == 0 then None
    else
      var q := a.Sig() * SIG_SPAN / b.Sig();
      if Bit36(q) == 1 then Some(Finish(s, a.Exp() - b.Exp() + BIAS, q / 2))
      else Some(Finish(s, a.Exp() - b.Exp() + BIAS - 1, q))
  }

  // ---- the format -----------------------------------------------------------------

  /** Packing and unpacking undo each other. */
  lemma UnpackPack(sign: Bit, exp: nat, sig: nat)
    requires exp < 2048 && sig < SIG_SPAN
    ensures Pack(sign, exp, sig).Sign() == sign && Pack(sign, exp, sig).Exp() == exp && Pack(sign, exp, sig).Sig() == sig
  {
    assert sig / 4096 == sig / 0x100_0000 * 4096 + sig / 4096 % 4096 by {
      assert sig / 4096 / 4096 == sig / 0x100_0000;
    }
  }

  lemma PackUnpack(f: Words)
    ensures Pack(f.Sign(), f.Exp(), f.Sig()) == f
  {
    var n := f.Sig();
    assert n / 4096 == f.w1 * 4096 + f.w2;
    assert n / 0x100_0000 == f.w1;
  }

  /** Well formed: a normal has its leading bit set; zeros and infinities are as `pack` makes them. */
  predicate WellFormed(f: Words) {
    match f.Class()
    case Normal => f.Sig() >= LEAD
    case Zero => f.Sig() == 0
    case _ => true
  }

  predicate IsNormal(f: Words) { f.Class() == Normal && f.Sig() >= LEAD }

  /** Every operation's last step gives a well-formed word of the right sign, an infinity exactly
      when the exponent is 2047 or more and a zero exactly when it is 0 or less. */
  lemma FinishShape(sign: Bit, exp: int, sig: nat)
    requires LEAD <= sig < SIG_SPAN
    ensures var f := Finish(sign, exp, sig);
            WellFormed(f) && f.Sign() == sign && f.Class() != Nan
            && (f.Class() == Inf <==> exp >= 2047) && (f.Class() == Zero <==> exp <= 0)
            && (f.Class() == Normal ==> f.Exp() == exp && f.Sig() == sig)
  {
    if exp >= 2047 { UnpackPack(sign, 2047, 0); }
    else if exp <= 0 { UnpackPack(sign, 0, 0); }
    else { UnpackPack(sign, exp, sig); }
  }
}
