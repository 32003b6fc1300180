/** lib/rlibc.h: itoa and atoi on the 12-bit machine, where an int is one word and a string is an
    array of words that ends with a zero word. */
module Rlibc {
  import opened Numerals
  import opened Sequences

  /** The values of a C `int` on this machine. */
  type Int12 = x: int | -2048 <= x <= 2047

  /** 12-bit wrap-around. */
  function Wrap(x: int): Int12 {
    var m := x % 4096;
    if m >= 2048 then m - 4096 else m
  }

  /** Unary minus: -2048 is its own negation. */
  function Negated(n: Int12): (r: Int12)
    ensures r == if n == -2048 then n else -(n as int)
  {
    Wrap(-(n as int))
  }

  function Code(c: char): Int12
    requires c < 128 as char
  {
    c as int
  }

  predicate Ascii(s: string) { forall k | 0 <= k < |s| :: s[k] < 128 as char }

  /** A text as words. */
  function Codes(s: string): (w: seq<Int12>)
    requires Ascii(s)
    ensures |w| == |s|
  {
    seq(|s|, k requires 0 <= k < |s| => Code(s[k]))
  }

  /** The text of a number, which is ASCII. */
  function Text(n: int): (s: string)
    ensures Ascii(s)
  {
    NumeralAscii(if n < 0 then -n else n);
    IntText(n)
  }

  lemma NumeralAscii(n: nat)
    ensures Ascii(Decimal(n)) && (forall k | 0 <= k < |Decimal(n)| :: IsDigit(Decimal(n)[k]))
  {
    DecimalValue(n);
  }

  // ---- itoa -----------------------------------------------------------------------

  /** A numeral of at most `k` digits. */
  lemma {:induction false} NumeralLength(n: nat, k: nat)
    requires k >= 1 && (k == 1 ==> n < 10) && (k == 2 ==> n < 100) && (k == 3 ==> n < 1000) && (k == 4 ==> n < 10000)
    ensures k <= 4 ==> |Decimal(n)| <= k
  {
    if 1 < k <= 4 && n >= 10 { NumeralLength(n / 10, k - 1); }
  }

  /** What the digit loop has done when `n` is left: the digits of `m` not in `n`, last first. */
  ghost predicate DigitsDone(m: nat, n: nat, done: seq<Int12>) {
    Ascii(Decimal(m)) && Ascii(Decimal(n))
    && Codes(Decimal(m)) == (if n > 0 then Codes(Decimal(n)) else []) + Reverse(done)
  }

  lemma DigitWritten(m: nat, n: nat, done: seq<Int12>)
    requires n > 0 && DigitsDone(m, n, done)
    ensures |done| < |Decimal(m)| && DigitsDone(m, n / 10, done + [48 + n % 10])
  {
    hide Decimal, Codes, Reverse;
    var d: Int12 := 48 + n % 10;
    NumeralAscii(n / 10);
    LastDigit(n);
    ReverseSnoc(done, d);
    var front := if n / 10 > 0 then Codes(Decimal(n / 10)) else [];
    assert (front + [d]) + Reverse(done) == front + ([d] + Reverse(done));
  }

  lemma ReverseSnoc(done: seq<Int12>, d: Int12)
    ensures Reverse(done + [d]) == [d] + Reverse(done)
  {
  }

  lemma LastDigit(n: nat)
    requires n > 0 && Ascii(Decimal(n)) && Ascii(Decimal(n / 10))
    ensures Codes(Decimal(n)) == (if n / 10 > 0 then Codes(Decimal(n / 10)) else []) + [48 + n % 10]
  {
    DigitOf(n % 10);
  }

  /** The digit loop: digits from the least significant, from `p` on. */
  method WriteDigits(m: Int12, buf: array<Int12>, start: nat) returns (p: nat)
    requires m > 0 && start + 4 <= buf.Length
    modifies buf
    ensures start < p <= start + 4 && p <= buf.Length && Ascii(Decimal(m))
    ensures Codes(Decimal(m)) == Reverse(buf[start..p])
    ensures forall k | 0 <= k < start || p <= k < buf.Length :: buf[k] == old(buf[k])
  {
    NumeralAscii(m);
    NumeralLength(m, 4);
    hide Decimal;
    var n: int := m;
    p := start;
    assert Reverse(buf[start..p]) == [];
    assert DigitsDone(m, n, buf[start..p]);
    while n != 0
      invariant 0 <= n && start <= p <= start + 4 <= buf.Length
      invariant DigitsDone(m, n, buf[start..p]) && p - start <= |Decimal(m)|
      invariant forall k | 0 <= k < start || p <= k < buf.Length :: buf[k] == old(buf[k])
      decreases n
    {
      ghost var done := buf[start..p];
      DigitWritten(m, n, done);
      buf[p] := 48 + n % 10;
      p := p + 1;
      assert buf[start..p] == done + [48 + n % 10];
      n := n / 10;
    }
    assert Codes(Decimal(m)) == Reverse(buf[start..p]);
  }

  /** The in-place reversal of the words from `first` to just before `stop`. */
  method ReverseRange(buf: array<Int12>, first: nat, stop: nat)
    requires first < stop <= buf.Length
    modifies buf
    ensures buf[first..stop] == Reverse(old(buf[first..stop]))
    ensures forall k | 0 <= k < first || stop <= k < buf.Length :: buf[k] == old(buf[k])
  {
    ghost var was := buf[..];
    var start: int, end: int := first, stop - 1;
    while start < end
      invariant first <= start && end < stop && start + end == first + stop - 1 && start <= end + 1
      invariant forall k | first <= k < start :: buf[k] == was[first + stop - 1 - k]
      invariant forall k | end < k < stop :: buf[k] == was[first + stop - 1 - k]
      invariant forall k | start <= k <= end :: buf[k] == was[k]
      invariant buf[..first] == was[..first] && buf[stop..] == was[stop..]
    {
      buf[start], buf[end] := buf[end], buf[start];
      start, end := start + 1, end - 1;
    }
    Mirrored(was, buf[..], first, stop);
  }

  lemma Mirrored(was: seq<Int12>, now: seq<Int12>, first: nat, stop: nat)
    requires first < stop <= |was| == |now| && forall k | first <= k < stop :: now[k] == was[first + stop - 1 - k]
    ensures now[first..stop] == Reverse(was[first..stop])
  {
    forall k | 0 <= k < stop - first
      ensures now[first..stop][k] == Reverse(was[first..stop])[k]
    {
      assert now[first + k] == was[first + stop - 1 - (first + k)];
    }
  }

  /** The shift by one word that makes room for the sign. */
  method ShiftUp(buf: array<Int12>, len: nat)
    requires 0 < len < buf.Length
    modifies buf
    ensures buf[1..len + 1] == old(buf[..len])
    ensures forall k | len < k < buf.Length :: buf[k] == old(buf[k])
  {
    var i := len;
    while i > 0
      invariant 0 <= i <= len
      invariant forall k | 0 <= k < buf.Length :: buf[k] == if i < k <= len then old(buf[k - 1]) else old(buf[k])
    {
      buf[i] := buf[i - 1];
      i := i - 1;
    }
  }

  /** The digits of `m` from the front of the buffer. */
  method PutNumeral(m: Int12, buf: array<Int12>) returns (p: nat)
    requires m >= 0 && buf.Length >= 6
    modifies buf
    ensures 0 < p <= 4 && Ascii(Decimal(m)) && buf[..p] == Codes(Decimal(m))
    ensures forall k | p <= k < buf.Length :: buf[k] == old(buf[k])
  {
    NumeralAscii(m);
    p := 0;
    if m == 0 {
      buf[p] := 48;
      p := p + 1;
      assert Decimal(0) == "0";
      assert buf[..1] == [48] == Codes(Decimal(0));
    } else {
      hide Decimal;
      p := WriteDigits(m, buf, 0);
      assert buf[..p] == buf[0..p];
      ReverseTwice(buf[0..p]);
      ReverseRange(buf, 0, p);
      assert buf[..p] == buf[0..p];
    }
  }

  /** `itoa`: the text of `n`, a zero word right after it, nothing else touched; at most six words. */
  method Itoa(n: Int12, buf: array<Int12>)
    requires buf.Length >= 6
    modifies buf
    ensures |Text(n)| <= 5
    ensures buf[..|Text(n)| + 1] == Codes(Text(n)) + [0]
    ensures forall k | |Text(n)| < k < buf.Length :: buf[k] == old(buf[k])
  {
    hide Decimal;
    var neg := n < 0;
    var m: Int12 := n;
    if neg {
      m := Negated(n);
      if m == n {
        buf[0], buf[1], buf[2], buf[3], buf[4], buf[5] := 45, 50, 48, 52, 56, 0;
        MinText();
        assert buf[..6] == [45, 50, 48, 52, 56] + [0];
        return;
      }
    }
    assert Text(n) == (if neg then "-" + Decimal(m) else Decimal(m));
    var p := PutNumeral(m, buf);
    if neg {
      ghost var digits := buf[..p];
      ShiftUp(buf, p);
      buf[0] := 45;
      p := p + 1;
      assert buf[..p] == [45] + buf[1..p] == [45] + digits;
      SignedCodes(Decimal(m));
    }
    buf[p] := 0;
    assert buf[..p + 1] == buf[..p] + [0];
  }

  lemma SignedCodes(s: string)
    requires Ascii(s)
    ensures Ascii("-" + s) && Codes("-" + s) == [45] + Codes(s)
  {
  }

  lemma MinText()
    ensures Text(-2048) == "-2048" && Codes(Text(-2048)) == [45, 50, 48, 52, 56]
  {
    assert Decimal(2) == "2";
    assert Decimal(20) == "20";
    assert Decimal(204) == "204";
    assert Decimal(2048) == "2048";
  }

  // ---- atoi -----------------------------------------------------------------------

  predicate IsBlankCode(c: Int12) { c == 32 || c == 9 }

  predicate IsDigitCode(c: Int12) { 48 <= c <= 57 }

  /** The first word from `i` on that is not a blank. */
  function AfterBlanks(w: seq<Int12>, i: nat): (j: nat)
    requires i <= |w|
    ensures i <= j <= |w|
    decreases |w| - i
  {
    if i < |w| && IsBlankCode(w[i]) then AfterBlanks(w, i + 1) else i
  }

  /** The first word from `i` on that is not a digit. */
  function AfterDigits(w: seq<Int12>, i: nat): (j: nat)
    requires i <= |w|
    ensures i <= j <= |w|
    decreases |w| - i
  {
    if i < |w| && IsDigitCode(w[i]) then AfterDigits(w, i + 1) else i
  }

  /** The unbounded number that a run of digit words spells. */
  function Spelled(w: seq<Int12>): int {
    if w == [] then 0 else 10 * Spelled(w[..|w| - 1]) + (w[|w| - 1] as int - 48)
  }

  /** What a text denotes: blanks, a minus sign if there is one, and the number spelled by the digits
      that follow, reduced to 12 bits. */
  function Parsed(w: seq<Int12>): Int12 {
    var i := AfterBlanks(w, 0);
    var neg := i < |w| && w[i] == 45;
    var j := if neg then i + 1 else i;
    var v := Spelled(w[j..AfterDigits(w, j)]);
    Wrap(if neg then -v else v)
  }

  lemma WrapStep(n: int, d: int)
    ensures Wrap(Wrap(Wrap(n) * 10) + Wrap(d)) == Wrap(10 * n + d)
  {
    var k0 := WrapDiffers(n);
    var k1 := WrapDiffers(Wrap(n) * 10);
    var k2 := WrapDiffers(d);
    hide Wrap;
    SameWrap(Wrap(Wrap(n) * 10) + Wrap(d), 10 * n + d, 10 * k0 + k1 + k2);
  }

  /** Wrapping changes a number by a multiple of 4096. */
  lemma WrapDiffers(n: int) returns (k: int)
    ensures n == Wrap(n) + 4096 * k
  {
    k := n / 4096 + if n % 4096 >= 2048 then 1 else 0;
  }

  lemma SameWrap(x: int, y: int, k: int)
    requires y == x + 4096 * k
    ensures Wrap(x) == Wrap(y)
  {
    assert y % 4096 == x % 4096;
  }

  lemma SpelledSnoc(w: seq<Int12>, c: Int12)
    ensures Spelled(w + [c]) == 10 * Spelled(w) + (c as int - 48)
  {
    assert (w + [c])[..|w|] == w;
  }

  /** `atoi` of a terminated string. */
  method Atoi(s: array<Int12>) returns (r: Int12)
    requires exists z | 0 <= z < s.Length :: s[z] == 0
    ensures r == Parsed(s[..])
  {
    hide Wrap, Spelled, Negated, AfterDigits;
    ghost var z :| 0 <= z < s.Length && s[z] == 0;
    ghost var w := s[..];
    var i: nat := 0;
    while s[i] == 32 || s[i] == 9
      invariant i <= z && AfterBlanks(w, i) == AfterBlanks(w, 0)
      decreases z - i
    {
      i := i + 1;
    }
    assert AfterBlanks(w, 0) == i;
    var neg := false;
    if s[i] == 45 {
      neg := true;
      i := i + 1;
    }
    var n := ReadDigits(s, i, z);
    NegatedWrap(Spelled(w[i..AfterDigits(w, i)]));
    return if neg then Negated(n) else n;
  }

  /** The digit loop, from `start` on; a zero word ends the text at `z`. */
  method ReadDigits(s: array<Int12>, start: nat, ghost z: nat) returns (n: Int12)
    requires start <= z < s.Length && s[z] == 0
    ensures n == Wrap(Spelled(s[start..AfterDigits(s[..], start)]))
  {
    hide Wrap, Spelled;
    ghost var w := s[..];
    var i := start;
    n := 0;
    WrapZero();
    assert w[start..start] == [];
    while 48 <= s[i] <= 57
      invariant start <= i <= z && AfterDigits(w, i) == AfterDigits(w, start)
      invariant n == Wrap(Spelled(w[start..i]))
      decreases z - i
    {
      var d: int := s[i] as int - 48;
      WrapStep(Spelled(w[start..i]), d);
      SpelledSnoc(w[start..i], s[i]);
      assert w[start..i + 1] == w[start..i] + [s[i]];
      n := Wrap(Wrap(n as int * 10) + Wrap(d));
      i := i + 1;
    }
    assert s[start..i] == w[start..i];
  }

  lemma WrapZero()
    ensures Wrap(Spelled([])) == 0
  {
  }

  lemma NegatedWrap(v: int)
    ensures Negated(Wrap(v)) == Wrap(-v)
  {
    var k := WrapDiffers(v);
    SameWrap(-(Wrap(v) as int), -v, -k);
  }

  // ---- round trip -----------------------------------------------------------------

  /** Digit words spell the value of their text. */
  lemma {:induction false} SpelledCodes(s: string)
    requires Ascii(s)
    ensures Spelled(Codes(s)) == Value(10, s)
    decreases |s|
  {
    if s != "" {
      var front := s[..|s| - 1];
      SpelledCodes(front);
      assert Codes(s) == Codes(front) + [Code(s[|s| - 1])];
      SpelledSnoc(Codes(front), Code(s[|s| - 1]));
    }
  }

  /** The words from `i` on start with digits of which the last is before `j`. */
  lemma {:induction false} DigitsRun(w: seq<Int12>, i: nat, j: nat)
    requires i <= j < |w| && (forall k | i <= k < j :: IsDigitCode(w[k])) && !IsDigitCode(w[j])
    ensures AfterDigits(w, i) == j
    decreases j - i
  {
    if i < j { DigitsRun(w, i + 1, j); }
  }

  /** The words from `i` on start with blanks of which the last is before `j`. */
  lemma {:induction false} BlanksRun(w: seq<Int12>, i: nat, j: nat)
    requires i <= j < |w| && (forall k | i <= k < j :: w[k] == 32 || w[k] == 9) && w[j] != 32 && w[j] != 9
    ensures AfterBlanks(w, i) == j
    decreases j - i
  {
    if i < j { BlanksRun(w, i + 1, j); }
  }

  /** What a text denotes, for every text: spaces and tabs up to `k`, a minus sign if `neg`, the digits from
      there up to `e`, and a word that is no digit.  Without a digit the number is 0. */
  lemma ParsedMeans(w: seq<Int12>, k: nat, neg: bool, e: nat)
    requires (forall i | 0 <= i < k :: i < |w| && (w[i] == 32 || w[i] == 9))
    requires k < |w| && w[k] != 32 && w[k] != 9 && (neg <==> w[k] == 45)
    requires (if neg then k + 1 else k) <= e < |w| && !(48 <= w[e] <= 57)
    requires forall i | (if neg then k + 1 else k) <= i < e :: 48 <= w[i] <= 57
    ensures var v := Spelled(w[if neg then k + 1 else k..e]); Parsed(w) == Wrap(if neg then -v else v)
  {
    hide Wrap, Spelled, AfterDigits, AfterBlanks;
    BlanksRun(w, 0, k);
    DigitsRun(w, if neg then k + 1 else k, e);
  }

  lemma DigitCodes(s: string)
    requires Ascii(s) && forall k | 0 <= k < |s| :: IsDigit(s[k])
    ensures forall k | 0 <= k < |s| :: IsDigitCode(Codes(s)[k])
  {
  }

  /** Reading back what `Itoa` leaves in a buffer, whatever follows the zero word, gives the number. */
  lemma ParsedText(n: Int12, rest: seq<Int12>)
    ensures Parsed(Codes(Text(n)) + [0] + rest) == n
  {
    hide Decimal, Parsed, Spelled, Value;
    var w := Codes(Text(n)) + [0] + rest;
    var m: nat := if n < 0 then -(n as int) else n;
    var start := if n < 0 then 1 else 0;
    DecimalValue(m);
    NumeralAscii(m);
    SpelledCodes(Decimal(m));
    SignedCodes(Decimal(m));
    var digits := Codes(Decimal(m));
    var stop := start + |digits|;
    assert w[start..stop] == digits;
    DigitCodes(Decimal(m));
    forall k | start <= k < stop
      ensures IsDigitCode(w[k])
    {
      assert w[k] == digits[k - start];
    }
    assert w[stop] == 0 && (start == 0 ==> IsDigitCode(w[0]));
    ParsedMeans(w, 0, n < 0, stop);
  }

  /** `atoi` after `itoa`. */
  method ThereAndBack(n: Int12) returns (r: Int12)
    ensures r == n
  {
    var buf := new Int12[6];
    Itoa(n, buf);
    ghost var k := |Text(n)| + 1;
    assert buf[k - 1] == buf[..k][k - 1] == 0;
    assert buf[..] == buf[..k] + buf[k..];
    ParsedText(n, buf[k..]);
    r := Atoi(buf);
  }
}
