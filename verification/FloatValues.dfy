/** What the float operations mean: the real number a normal stands for, truncation of a real to 36
    significant bits, and how far each operation is from the exact result. */
module FloatValues {
  import opened Isa
  import opened ObjFile
  import opened Float48
  import opened FloatLaws

  /** Two to any integer power. */
  function Pow(e: int): (p: real)
    ensures p > 0.0
    decreases if e < 0 then -e else e
  {
    if e == 0 then 1.0 else if e > 0 then 2.0 * Pow(e - 1) else Pow(e + 1) / 2.0
  }

  /** The weight of the last place under an exponent. */
  function Ulp(exp: int): (u: real)
    ensures u > 0.0
  {
    Pow(exp - 1059)
  }

  function Magnitude(f: Words): real { f.Sig() as real * Ulp(f.Exp()) }

  /** The number a normal stands for. */
  function Value(f: Words): real { Signed(f.Sign(), Magnitude(f)) }

  function Signed(sign: Bit, m: real): real { if sign == 0 then m else -m }

  /** `sig` and `exp` are the number `sign`, `m` cut toward zero to 36 significant bits. */
  ghost predicate Cut(m: real, sig: int, exp: int) {
    LEAD <= sig < SIG_SPAN && sig as real * Ulp(exp) <= m < (sig + 1) as real * Ulp(exp)
  }

  /** The same for a signed number. */
  ghost predicate TruncatesTo(x: real, sign: Bit, sig: int, exp: int) { Cut(Signed(sign, x), sig, exp) }

  /** `r` is `x` cut toward zero to 36 significant bits, then range checked. */
  ghost predicate RoundsTo(x: real, r: Words) {
    (exists sign: Bit, sig: int, exp: int :: TruncatesTo(x, sign, sig, exp))
    && forall sign: Bit, sig: int, exp: int | TruncatesTo(x, sign, sig, exp) :: r == Finish(sign, exp, sig)
  }

  // ---- powers and products --------------------------------------------------------

  lemma PowUp(e: int)
    ensures Pow(e + 1) == 2.0 * Pow(e)
  {
  }

  lemma PowZero()
    ensures Pow(0) == 1.0
  {
  }

  lemma {:induction false} PowAdd(a: int, b: nat)
    ensures Pow(a + b) == Pow(a) * Pow(b)
    decreases b
  {
    hide Pow;
    PowZero();
    if b > 0 {
      PowAdd(a, b - 1);
      PowUp(a + b - 1);
      PowUp(b - 1);
      Grown(Pow(a), Pow(b - 1), Pow(b), Pow(a + b - 1), Pow(a + b));
    }
  }

  lemma Grown(x: real, y: real, y': real, z: real, z': real)
    requires z == x * y && y' == 2.0 * y && z' == 2.0 * z
    ensures z' == x * y'
  {
  }

  lemma {:induction false} PowSum(a: int, b: int)
    ensures Pow(a + b) == Pow(a) * Pow(b)
    decreases if b < 0 then -b else 0
  {
    hide Pow;
    if b >= 0 {
      PowAdd(a, b);
    } else {
      PowSum(a, b + 1);
      PowUp(a + b);
      PowUp(b);
      Shrunk(Pow(a), Pow(b + 1), Pow(b), Pow(a + b + 1), Pow(a + b));
    }
  }

  lemma Shrunk(x: real, y: real, y': real, z: real, z': real)
    requires z == x * y && y == 2.0 * y' && z == 2.0 * z'
    ensures z' == x * y'
  {
  }

  lemma Scale(x: real, y: real, p: real)
    requires p > 0.0
    ensures x <= y <==> x * p <= y * p
    ensures x < y <==> x * p < y * p
  {
  }

  lemma {:induction false} PowMonotone(a: int, b: int)
    requires a <= b
    ensures Pow(a) <= Pow(b)
    decreases b - a
  {
    if a < b {
      PowMonotone(a, b - 1);
      PowUp(b - 1);
    }
  }

  lemma PowSpan()
    ensures Pow(36) == SIG_SPAN as real && Pow(35) == LEAD as real && Pow(11) == 2048.0
  {
    PowAdd(11, 11);
    PowAdd(22, 11);
    PowUp(33);
    PowUp(34);
    PowUp(35);
    PowSmall();
  }

  lemma PowSmall()
    ensures Pow(11) == 2048.0
  {
    assert Pow(5) == 32.0;
    assert Pow(10) == 1024.0 by { PowAdd(5, 5); }
    PowUp(10);
  }

  /** A truncation is unique. */
  lemma CutUnique(m: real, sig: int, exp: int, sig': int, exp': int)
    requires Cut(m, sig, exp) && Cut(m, sig', exp')
    ensures sig == sig' && exp == exp'
  {
    hide Ulp;
    if exp < exp' {
      CutOrder(m, sig, exp, m, sig', exp');
    } else if exp' < exp {
      CutOrder(m, sig', exp', m, sig, exp);
    } else {
      var u := Ulp(exp);
      Between(sig, sig', m, u);
      Between(sig', sig, m, u);
    }
  }

  /** A number cut at a larger exponent is larger. */
  lemma CutOrder(m: real, sig: int, exp: int, m': real, sig': int, exp': int)
    requires Cut(m, sig, exp) && Cut(m', sig', exp') && exp < exp'
    ensures m < m'
  {
    hide Ulp;
    UlpOrder(exp, exp');
    Apart((sig + 1) as real, LEAD as real, sig' as real, Ulp(exp), Ulp(exp'));
  }

  lemma UlpOrder(exp: int, exp': int)
    requires exp < exp'
    ensures 2.0 * Ulp(exp) <= Ulp(exp')
  {
    PowUp(exp - 1059);
    PowMonotone(exp - 1059 + 1, exp' - 1059);
  }

  lemma Apart(x: real, lead: real, y: real, u: real, v: real)
    requires 0.0 < u && 2.0 * u <= v && x <= 2.0 * lead && 0.0 < lead <= y
    ensures x * u <= y * v
  {
    Scale(x, 2.0 * lead, u);
    Scale(lead, y, v);
    Doubled(lead, u, v);
  }

  lemma Doubled(x: real, u: real, v: real)
    requires x > 0.0 && 2.0 * u <= v
    ensures (2.0 * x) * u <= x * v
  {
    Scale(2.0 * u, v, x);
  }

  lemma Between(a: int, b: int, m: real, u: real)
    requires u > 0.0 && a as real * u <= m < (b + 1) as real * u
    ensures a <= b
  {
    if a > b { Scale((b + 1) as real, a as real, u); }
  }

  /** Cutting bits off an integer part cuts the number. */
  lemma {:induction false} ShrCuts(z: real, n: nat, j: nat, e: int)
    requires n as real <= z < (n + 1) as real
    ensures Shr(n, j) as real * Pow(e + j) <= z * Pow(e) < (Shr(n, j) + 1) as real * Pow(e + j)
    decreases j
  {
    hide Pow, Shr;
    if j == 0 {
      Scale(n as real, z, Pow(e));
      Strict(z, (n + 1) as real, Pow(e));
      ShrStep(n, 0);
    } else {
      var h := n / 2;
      ShrStep(n, j);
      Half(z, n);
      ShrCuts(z / 2.0, h, j - 1, e + 1);
      assert e + 1 + (j - 1) == e + j && Shr(h, j - 1) == Shr(n, j);
      PowUp(e);
      Halved(Shr(n, j) as real, (Shr(n, j) + 1) as real, z, Pow(e), Pow(e + 1), Pow(e + j));
    }
  }

  lemma ShrStep(n: nat, j: nat)
    ensures Shr(n, j) == if j == 0 then n else Shr(n / 2, j - 1)
  {
  }

  lemma Strict(x: real, y: real, p: real)
    requires p > 0.0 && x < y
    ensures x * p < y * p
  {
  }

  lemma Half(z: real, n: nat)
    requires n as real <= z < (n + 1) as real
    ensures (n / 2) as real <= z / 2.0 < (n / 2 + 1) as real
  {
    assert n == 2 * (n / 2) + n % 2;
  }

  lemma Halved(lo: real, hi: real, z: real, p: real, q: real, r: real)
    requires lo * r <= z / 2.0 * q < hi * r && q == 2.0 * p
    ensures lo * r <= z * p < hi * r
  {
    assert z / 2.0 * (2.0 * p) == z * p;
  }

  lemma {:induction false} ShrAdd(n: nat, i: nat, j: nat)
    ensures Shr(n, i + j) == Shr(Shr(n, i), j)
    decreases i
  {
    if i > 0 { ShrAdd(n / 2, i - 1, j); }
  }

  lemma Division(n: nat, d: nat) returns (q: nat, r: nat)
    requires d > 0
    ensures n == q * d + r && r < d && q == n / d && r == n % d
  {
    q, r := n / d, n % d;
  }

  lemma RealProduct(x: nat, y: nat)
    ensures (x * y) as real == x as real * y as real
  {
  }

  /** Dividing twice is dividing by the product. */
  lemma DivDiv(n: nat, a: nat, b: nat)
    requires a > 0 && b > 0
    ensures n / a / b == n / (a * b)
  {
    var q, r := Division(n, a);
    var q', r' := Division(q, b);
    Products(n, q, r, q', r', a, b);
    Remainder(r, r', a, b);
    DivModUnique(n, a * b, q', r' * a + r);
  }

  lemma Products(n: nat, q: nat, r: nat, q': nat, r': nat, a: nat, b: nat)
    requires n == q * a + r && q == q' * b + r'
    ensures n == q' * (a * b) + (r' * a + r)
  {
  }

  lemma Remainder(r: nat, r': nat, a: nat, b: nat)
    requires r < a && r' < b
    ensures r' * a + r < a * b && a * b > 0
  {
    assert (r' + 1) * a <= b * a;
  }

  /** Shifting by 2, 4, ... bits at a time: `m` is the power of two of `k` bits. */
  lemma ShrTwice(n: nat, k: nat, m: nat, k': nat, m': nat)
    requires m > 0 && m' > 0 && Shr(n, k) == n / m && Shr(n / m, k') == n / m / m'
    ensures Shr(n, k + k') == n / (m * m')
  {
    ShrAdd(n, k, k');
    DivDiv(n, m, m');
  }

  lemma Shr3(n: nat)
    ensures Shr(n, 3) == n / 8
  {
    assert Shr(n, 3) == n / 2 / 2 / 2;
    DivDiv(n, 2, 2);
    DivDiv(n, 4, 2);
  }

  lemma Shr6(n: nat)
    ensures Shr(n, 6) == n / 64
  {
    hide Shr;
    Shr3(n);
    Shr3(n / 8);
    ShrTwice(n, 3, 8, 3, 8);
  }

  lemma Shr12(n: nat)
    ensures Shr(n, 12) == n / 4096
  {
    hide Shr;
    Shr6(n);
    Shr6(n / 64);
    ShrTwice(n, 6, 64, 6, 64);
  }

  lemma Shr24(n: nat)
    ensures Shr(n, 24) == n / 0x100_0000
  {
    hide Shr;
    Shr12(n);
    Shr12(n / 4096);
    ShrTwice(n, 12, 4096, 12, 4096);
  }

  lemma Shr36(n: nat)
    ensures Shr(n, 36) == n / SIG_SPAN
  {
    hide Shr;
    Shr24(n);
    Shr12(n / 0x100_0000);
    ShrTwice(n, 24, 0x100_0000, 12, 4096);
  }

  lemma Shr33(n: nat)
    ensures Shr(n, 33) == n / 0x2_0000_0000
  {
    hide Shr;
    Shr24(n);
    Shr6(n / 0x100_0000);
    ShrTwice(n, 24, 0x100_0000, 6, 64);
    Shr3(n / 0x4000_0000);
    ShrTwice(n, 30, 0x4000_0000, 3, 8);
  }

  lemma Shr35(n: nat)
    ensures Shr(n, 35) == n / LEAD && Shr(n, 36) == n / SIG_SPAN
  {
    Shr36(n);
    Shr33(n);
    Shr2(n / 0x2_0000_0000);
    hide Shr;
    ShrTwice(n, 33, 0x2_0000_0000, 2, 4);
  }

  lemma Shr2(n: nat)
    ensures Shr(n, 2) == n / 4
  {
    assert Shr(n, 2) == n / 2 / 2;
    DivDiv(n, 2, 2);
  }

  // ---- multiplication -------------------------------------------------------------

  lemma TruncationUnique(x: real, sign: Bit, sig: int, exp: int, sign': Bit, sig': int, exp': int)
    requires TruncatesTo(x, sign, sig, exp) && TruncatesTo(x, sign', sig', exp')
    ensures sign == sign' && sig == sig' && exp == exp'
  {
    hide Ulp;
    CutPositive(Signed(sign, x), sig, exp);
    CutPositive(Signed(sign', x), sig', exp');
    CutUnique(Signed(sign, x), sig, exp, sig', exp');
  }

  lemma CutPositive(m: real, sig: int, exp: int)
    requires Cut(m, sig, exp)
    ensures m > 0.0
  {
    hide Ulp;
    Strict(0.0, sig as real, Ulp(exp));
  }

  /** An operation whose result is the range check of one truncation is that of every truncation. */
  lemma AllTruncations(x: real, sign: Bit, sig: int, exp: int, r: Words)
    requires TruncatesTo(x, sign, sig, exp) && r == Finish(sign, exp, sig)
    ensures RoundsTo(x, r)
  {
    hide TruncatesTo, Finish;
    assert exists sign: Bit, sig: int, exp: int :: TruncatesTo(x, sign, sig, exp);
    forall sign': Bit, sig': int, exp': int | TruncatesTo(x, sign', sig', exp')
      ensures r == Finish(sign', exp', sig')
    {
      TruncationUnique(x, sign, sig, exp, sign', sig', exp');
    }
  }

  lemma SignedProduct(a: Words, b: Words)
    ensures Signed(SignXor(a.Sign(), b.Sign()), Value(a) * Value(b)) == Magnitude(a) * Magnitude(b)
  {
    hide Magnitude;
    var m, n := Magnitude(a), Magnitude(b);
    assert (-m) * n == -(m * n) && m * (-n) == -(m * n) && (-m) * (-n) == m * n;
  }

  lemma Interchange(x: real, p: real, y: real, q: real)
    ensures (x * p) * (y * q) == (x * y) * (p * q)
  {
    assert (x * p) * (y * q) == x * (p * (y * q)) == x * ((y * q) * p) == x * (y * (q * p));
  }

  lemma ProductOrder(x: nat, y: nat, u: nat, v: nat)
    requires x <= u && y <= v
    ensures x * y <= u * v
  {
    assert x * y <= u * y <= u * v;
  }

  lemma ProductRange(x: nat, y: nat)
    requires LEAD <= x < SIG_SPAN && LEAD <= y < SIG_SPAN
    ensures LEAD * LEAD <= x * y < SIG_SPAN * SIG_SPAN
  {
    ProductOrder(LEAD, LEAD, x, y);
    ProductOrder(x, y, SIG_SPAN - 1, SIG_SPAN - 1);
  }

  lemma ProductMagnitude(a: Words, b: Words)
    ensures Magnitude(a) * Magnitude(b) == (a.Sig() * b.Sig()) as real * Pow(a.Exp() + b.Exp() - 2118)
  {
    hide Pow, Words.Sig, Words.Exp;
    PowSum(a.Exp() - 1059, b.Exp() - 1059);
    Interchange(a.Sig() as real, Pow(a.Exp() - 1059), b.Sig() as real, Pow(b.Exp() - 1059));
  }

  lemma NormalProduct(a: Words, b: Words)
    requires a.Class() == Normal && b.Class() == Normal
    ensures var s, prod := SignXor(a.Sign(), b.Sign()), a.Sig() * b.Sig();
            FMul(a, b) == if prod / 0x80_0000_0000_0000_0000 % 2 == 1 then Finish(s, a.Exp() + b.Exp() - BIAS + 1, prod / SIG_SPAN)
                          else Finish(s, a.Exp() + b.Exp() - BIAS, prod / LEAD)
  {
    hide Words.Sig, Words.Exp, Finish, Pack;
  }

  /** The product of two normals before the range check. */
  lemma ProductCut(a: Words, b: Words) returns (sig: int, exp: int)
    requires IsNormal(a) && IsNormal(b)
    ensures Cut(Magnitude(a) * Magnitude(b), sig, exp)
    ensures FMul(a, b) == Finish(SignXor(a.Sign(), b.Sign()), exp, sig)
  {
    hide Pow, Words.Sig, Words.Exp, Words.Sign, SignXor, Finish, Pack, Shr, Magnitude, FMul;
    NormalProduct(a, b);
    ProductMagnitude(a, b);
    ProductRange(a.Sig(), b.Sig());
    var prod := a.Sig() * b.Sig();
    var k := if prod / 0x80_0000_0000_0000_0000 % 2 == 1 then 1 else 0;
    Shr35(prod);
    sig := Shr(prod, 35 + k);
    exp := a.Exp() + b.Exp() - BIAS + k;
    ShrCuts(prod as real, prod, 35 + k, a.Exp() + b.Exp() - 2118);
    assert a.Exp() + b.Exp() - 2118 + (35 + k) == exp - 1059;
    TopBit(prod);
  }

  lemma TopBit(prod: nat)
    requires LEAD * LEAD <= prod < SIG_SPAN * SIG_SPAN
    ensures var top := prod / 0x80_0000_0000_0000_0000 % 2 == 1;
            LEAD <= (if top then prod / SIG_SPAN else prod / LEAD) < SIG_SPAN
  {
  }

  /** The product of two normals is the exact product cut toward zero to 36 significant bits: the
      leading bit is set, the exponent is right, and the word is an infinity or a zero exactly as
      `FinishShape` says of that exponent. */
  lemma MulTruncates(a: Words, b: Words)
    requires IsNormal(a) && IsNormal(b)
    ensures RoundsTo(Value(a) * Value(b), FMul(a, b))
  {
    hide Cut, Finish, IsNormal, FMul, Magnitude, Words.Sign, Signed, SignXor, RoundsTo;
    var sig, exp := ProductCut(a, b);
    var s := SignXor(a.Sign(), b.Sign());
    var x := Value(a) * Value(b);
    SignedProduct(a, b);
    assert TruncatesTo(x, s, sig, exp);
    AllTruncations(x, s, sig, exp, FMul(a, b));
  }

  // ---- division -------------------------------------------------------------------

  lemma FloorDiv(n: nat, d: nat)
    requires d > 0
    ensures (n / d) as real <= n as real / d as real < (n / d + 1) as real
  {
    var q, r := Division(n, d);
    var u, z := d as real, n as real / d as real;
    RealQuotient(n as real, u, z);
    RealProduct(q, d);
    FloorOf(q as real, r as real, z, u);
  }

  lemma RealQuotient(x: real, u: real, z: real)
    requires u > 0.0 && z == x / u
    ensures z * u == x
  {
  }

  lemma FloorOf(q: real, r: real, z: real, u: real)
    requires u > 0.0 && z * u == q * u + r && 0.0 <= r < u
    ensures q <= z < q + 1.0
  {
    if z < q { Strict(z, q, u); }
    if z >= q + 1.0 { Scale(q + 1.0, z, u); }
  }

  lemma QuotientBounds(n: nat, d: nat, lo: nat, hi: nat)
    requires d > 0 && lo * d <= n < hi * d
    ensures lo <= n / d < hi
  {
    var q := n / d;
    assert q * d <= n < (q + 1) * d;
    if q < lo { ProductOrder(q + 1, d, lo, d); }
    if q >= hi { ProductOrder(hi, d, q, d); }
  }

  lemma QuotientRange(x: nat, y: nat)
    requires LEAD <= x < SIG_SPAN && LEAD <= y < SIG_SPAN
    ensures LEAD <= x * SIG_SPAN / y < 2 * SIG_SPAN
  {
    ProductOrder(LEAD, y, LEAD, SIG_SPAN);
    ProductOrder(2 * SIG_SPAN, LEAD, 2 * SIG_SPAN, y);
    QuotientBounds(x * SIG_SPAN, y, LEAD, 2 * SIG_SPAN);
  }

  lemma QuotientMagnitude(a: Words, b: Words)
    requires b.Sig() > 0
    ensures Magnitude(b) > 0.0
    ensures Magnitude(a) / Magnitude(b)
         == ((a.Sig() * SIG_SPAN) as real / b.Sig() as real) * Pow(a.Exp() - b.Exp() - 36)
  {
    hide Pow, Words.Sig, Words.Exp;
    var x, y, p, q := a.Sig() as real, b.Sig() as real, Pow(a.Exp() - 1059), Pow(b.Exp() - 1059);
    Strict(0.0, y, q);
    var r := Pow(a.Exp() - b.Exp() - 36);
    PowSpan();
    PowSum(a.Exp() - b.Exp() - 36, 36);
    PowSum(a.Exp() - b.Exp(), b.Exp() - 1059);
    assert p == (r * SIG_SPAN as real) * q;
    QuotientLaw(x, y, p, q, r, SIG_SPAN as real);
    assert (a.Sig() * SIG_SPAN) as real == x * SIG_SPAN as real;
  }

  lemma QuotientLaw(x: real, y: real, p: real, q: real, r: real, w: real)
    requires y > 0.0 && q > 0.0 && p == (r * w) * q
    ensures y * q > 0.0 && (x * p) / (y * q) == ((x * w) / y) * r
  {
    var z := (x * w) / y;
    assert z * y == x * w;
    assert (z * r) * (y * q) == (z * y) * (r * q) by { Interchange(z, r, y, q); }
    assert (x * w) * (r * q) == x * p by {
      Interchange(x, w, r, q);
      assert x * ((r * w) * q) == (x * w) * (r * q) by { Interchange(x, r, w, q); Shuffle(x, w, r, q); }
    }
    DivideBack(z * r, y * q, x * p);
  }

  lemma Shuffle(x: real, w: real, r: real, q: real)
    ensures x * ((r * w) * q) == (x * w) * (r * q)
  {
    assert (r * w) * q == w * (r * q);
  }

  lemma DivideBack(z: real, d: real, n: real)
    requires d > 0.0 && z * d == n
    ensures n / d == z
  {
  }

  lemma QuotientCut(a: Words, b: Words) returns (sig: int, exp: int)
    requires IsNormal(a) && IsNormal(b)
    ensures Magnitude(b) > 0.0 && Cut(Magnitude(a) / Magnitude(b), sig, exp)
    ensures FDiv(a, b) == Some(Finish(SignXor(a.Sign(), b.Sign()), exp, sig))
  {
    hide Pow, Words.Sig, Words.Exp, Finish, Pack, Shr, Magnitude, FDiv, Words.Sign, SignXor;
    QuotientMagnitude(a, b);
    QuotientRange(a.Sig(), b.Sig());
    FloorDiv(a.Sig() * SIG_SPAN, b.Sig());
    var q := a.Sig() * SIG_SPAN / b.Sig();
    NormalQuotient(a, b, q);
    var k := if Bit36(q) == 1 then 1 else 0;
    sig := Shr(q, k);
    exp := a.Exp() - b.Exp() + BIAS - 1 + k;
    ShrCuts((a.Sig() * SIG_SPAN) as real / b.Sig() as real, q, k, a.Exp() - b.Exp() - 36);
    assert a.Exp() - b.Exp() - 36 + k == exp - 1059;
    ShrStep(q, k);
    ShrStep(q / 2, 0);
    QuotientTop(q);
  }

  lemma NormalQuotient(a: Words, b: Words, q: nat)
    requires a.Class() == Normal && b.Class() == Normal && b.Sig() > 0 && q == a.Sig() * SIG_SPAN / b.Sig()
    ensures var s, e := SignXor(a.Sign(), b.Sign()), a.Exp() - b.Exp() + BIAS;
            FDiv(a, b) == Some(if Bit36(q) == 1 then Finish(s, e, q / 2) else Finish(s, e - 1, q))
  {
    hide Words.Sig, Words.Exp, Words.Sign, Finish, Pack, Bit36, SignXor;
  }

  lemma QuotientTop(q: nat)
    requires LEAD <= q < 2 * SIG_SPAN
    ensures LEAD <= (if Bit36(q) == 1 then q / 2 else q) < SIG_SPAN
  {
  }

  lemma SignedQuotient(s: Bit, t: Bit, m: real, n: real)
    requires n > 0.0
    ensures Signed(t, n) != 0.0 && Signed(SignXor(s, t), Signed(s, m) / Signed(t, n)) == m / n
  {
    var z := m / n;
    assert z * n == m;
    assert (-z) * n == -m && (-z) * -n == m && z * -n == -m;
  }

  /** The quotient of two normals is the exact quotient cut toward zero to 36 significant bits. */
  lemma DivTruncates(a: Words, b: Words)
    requires IsNormal(a) && IsNormal(b)
    ensures Value(b) != 0.0 && FDiv(a, b).Some?
    ensures RoundsTo(Value(a) / Value(b), FDiv(a, b).value)
  {
    hide Cut, Finish, IsNormal, FDiv, Magnitude, Words.Sign, Signed, SignXor, RoundsTo;
    var sig, exp := QuotientCut(a, b);
    var s := SignXor(a.Sign(), b.Sign());
    SignedQuotient(a.Sign(), b.Sign(), Magnitude(a), Magnitude(b));
    assert TruncatesTo(Value(a) / Value(b), s, sig, exp);
    AllTruncations(Value(a) / Value(b), s, sig, exp, FDiv(a, b).value);
  }
}
