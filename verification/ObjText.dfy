/** Facts about the text form: lines, words, integers and quoted paths. */
module ObjText {
  import opened ObjFile
  import opened Numerals
  import opened Objfmt

  predicate NoBlank(s: string) { forall k | 0 <= k < |s| :: !IsBlank(s[k]) }

  predicate NoBreak(s: string) { forall k | 0 <= k < |s| :: !IsBreak(s[k]) }

  predicate Clean(s: string) { forall k | 0 <= k < |s| :: s[k] != ';' && !IsBreak(s[k]) }

  /** A name: not empty, without blanks or comment signs. */
  predicate IsName(s: string) { s != "" && NoBlank(s) && ';' !in s }

  /** A path: no comment sign, and no line break but the newline, which is escaped. */
  predicate IsPath(s: string) { forall k | 0 <= k < |s| :: s[k] != ';' && (IsBreak(s[k]) ==> s[k] == '\n') }

  /** A section name: on one line, no comment sign, no blanks at its ends. */
  predicate IsTitle(s: string) {
    Clean(s) && (s != "" ==> !IsBlank(s[0]) && !IsBlank(s[|s| - 1]))
  }

  // ---- lines ----------------------------------------------------------------------

  lemma {:induction false} LineEndOf(s: string, rest: string)
    requires NoBreak(s) && (rest != "" ==> IsBreak(rest[0]))
    ensures LineEnd(s + rest) == |s|
    decreases |s|
  {
    if s == "" {
      assert s + rest == rest;
    } else {
      assert (s + rest)[1..] == s[1..] + rest;
      LineEndOf(s[1..], rest);
    }
  }

  /** Splitting joined lines gives the lines. */
  lemma {:induction false} SplitJoin(lines: seq<string>)
    requires forall i | 0 <= i < |lines| :: NoBreak(lines[i])
    ensures SplitLines(Join(lines)) == lines
    decreases |lines|
  {
    if lines != [] {
      var rest := "\n" + Join(lines[1..]);
      LineEndOf(lines[0], rest);
      var s := Join(lines);
      assert s == lines[0] + rest;
      assert s[..|lines[0]|] == lines[0] && s[|lines[0]| + 1..] == Join(lines[1..]);
      assert s[|lines[0]|] == '\n';
      SplitJoin(lines[1..]);
    }
  }

  lemma {:induction false} NoComment(s: string)
    requires Clean(s)
    ensures StripComment(s) == s
    decreases |s|
  {
    if s != "" { NoComment(s[1..]); }
  }

  // ---- words ----------------------------------------------------------------------

  lemma {:induction false} WordEndOf(w: string, rest: string)
    requires NoBlank(w) && (rest != "" ==> IsBlank(rest[0]))
    ensures WordEnd(w + rest) == |w|
    decreases |w|
  {
    if w == "" {
      assert w + rest == rest;
    } else {
      assert (w + rest)[1..] == w[1..] + rest;
      WordEndOf(w[1..], rest);
    }
  }

  /** The first word of a text. */
  lemma SplitCons(w: string, rest: string)
    requires w != "" && NoBlank(w)
    ensures Split(w + " " + rest) == [w] + Split(rest)
  {
    var s := w + " " + rest;
    assert s == w + (" " + rest);
    WordEndOf(w, " " + rest);
    assert !IsBlank(s[0]) && LStrip(s) == s;
    assert s[..|w|] == w && s[|w|..] == " " + rest;
    SplitBlank(rest);
  }

  lemma SplitBlank(rest: string)
    ensures Split(" " + rest) == Split(rest)
  {
    assert (" " + rest)[1..] == rest;
  }

  lemma SplitOne(w: string)
    requires w != "" && NoBlank(w)
    ensures Split(w) == [w]
  {
    WordEndOf(w, "");
    assert w + "" == w && LStrip(w) == w;
    assert w[|w|..] == "";
  }

  /** A line that starts and ends in text is its own stripped form. */
  lemma StripSame(s: string)
    requires s != "" && !IsBlank(s[0]) && !IsBlank(s[|s| - 1])
    ensures Strip(s) == s
  {
  }

  /** The leading indentation of a record is stripped. */
  lemma StripIndent(s: string)
    requires s != "" && !IsBlank(s[0]) && !IsBlank(s[|s| - 1])
    ensures Strip("  " + s) == s
  {
    assert ("  " + s)[1..] == " " + s && (" " + s)[1..] == s;
    assert LStrip("  " + s) == LStrip(" " + s) == LStrip(s) == s;
    StripSame(s);
  }

  // ---- integers -------------------------------------------------------------------

  /** A digit of a numeral is neither a blank nor a special character. */
  lemma DigitPlain(c: char)
    requires IsDigit(c)
    ensures !IsBlank(c) && c != ';' && c != '+' && c != '-' && c != '_'
  {
  }

  lemma DecimalPlain(n: nat)
    ensures NoBlank(Decimal(n)) && Clean(Decimal(n)) && IsDigit(Decimal(n)[0])
  {
    hide Decimal;
    DecimalValue(n);
    DigitsPlain(Decimal(n));
  }

  lemma DigitsPlain(s: string)
    requires forall k | 0 <= k < |s| :: IsDigit(s[k])
    ensures NoBlank(s) && Clean(s)
  {
    hide IsBlank, IsBreak;
    forall k | 0 <= k < |s|
      ensures !IsBlank(s[k])
    {
      DigitPlain(s[k]);
    }
    forall k | 0 <= k < |s|
      ensures s[k] != ';' && !IsBreak(s[k])
    {
      DigitPlain(s[k]);
      BlankBreak(s[k]);
    }
  }

  lemma BlankBreak(c: char)
    ensures IsBreak(c) ==> IsBlank(c)
  {
  }

  lemma {:induction false} MagnitudeDecimal(n: nat)
    ensures Magnitude(10, Decimal(n)) == Some(n)
  {
    DigitOf(n % 10);
    if n < 10 {
      assert Decimal(n)[..0] == "";
    } else {
      var front := Decimal(n / 10);
      MagnitudeDecimal(n / 10);
      DecimalValue(n / 10);
      DigitPlain(front[|front| - 1]);
      assert (front + [Digit(n % 10)])[..|front|] == front;
    }
  }

  /** The second character of a numeral is not a base letter. */
  lemma ParseDecimal(n: nat)
    ensures ParseInt(Decimal(n)) == IsInt(n)
    ensures PyInt(Decimal(n), 10) == Some(n)
  {
    hide Decimal, Magnitude, IsBlank;
    DecimalValue(n);
    MagnitudeDecimal(n);
    DigitPlain(Decimal(n)[0]);
  }

  lemma ParseIntText(n: int)
    ensures ParseInt(IntText(n)) == IsInt(n)
    ensures NoBlank(IntText(n)) && Clean(IntText(n)) && IntText(n) != ""
  {
    hide Decimal, Magnitude, PyInt;
    var m: nat := if n < 0 then -n else n;
    DecimalPlain(m);
    ParseDecimal(m);
    if n < 0 {
      DecimalValue(m);
      assert ("-" + Decimal(m))[1..] == Decimal(m);
      ParseNegative(Decimal(m));
    }
  }

  lemma ParseNegative(t: string)
    requires t != "" && IsDigit(t[0]) && ParseInt(t).IsInt?
    ensures ParseInt("-" + t) == IsInt(-ParseInt(t).v)
  {
    hide PyInt;
    assert ("-" + t)[1..] == t;
  }

  // ---- quoting --------------------------------------------------------------------

  /** Unquoting undoes escaping, for every text whatever. */
  lemma {:induction false} UnquoteEscape(pre: string, p: string, tail: string, acc: string)
    ensures Unquote(pre + Escape(p) + "\"" + tail, |pre|, acc) == Some((acc + p, tail))
    decreases |p|
  {
    var s := pre + Escape(p) + "\"" + tail;
    if p == "" {
      assert s == pre + "\"" + tail && s[|pre|] == '"' && s[|pre| + 1..] == tail;
      assert acc + p == acc;
    } else {
      var e := EscapeChar(p[0]);
      assert s == (pre + e) + Escape(p[1..]) + "\"" + tail;
      assert s[|pre|..|pre| + |e|] == e;
      UnquoteEscape(pre + e, p[1..], tail, acc + [p[0]]);
      assert (acc + [p[0]]) + p[1..] == acc + p;
      hide Escape;
      OneEscape(s, |pre|, p[0], acc);
    }
  }

  /** One turn of the unquoting loop over an escaped character. */
  lemma OneEscape(s: string, i: nat, c: char, acc: string)
    requires i + |EscapeChar(c)| < |s| && s[i..i + |EscapeChar(c)|] == EscapeChar(c)
    ensures Unquote(s, i, acc) == Unquote(s, i + |EscapeChar(c)|, acc + [c])
  {
    var e := EscapeChar(c);
    assert s[i] == e[0];
    if |e| == 2 { assert s[i + 1] == e[1]; }
  }

  /** A quoted path and what follows it. */
  lemma QuotedBack(p: string, tail: string)
    requires tail == "" || !IsBlank(tail[|tail| - 1])
    ensures Quoted(" " + Quote(p) + tail) == Some((p, tail))
  {
    hide IsBlank, Escape, Unquote;
    var s := Quote(p) + tail;
    assert " " + Quote(p) + tail == " " + s;
    Marks();
    assert s[0] == '"';
    assert tail == "" ==> s[|s| - 1] == '"';
    assert tail != "" ==> s[|s| - 1] == tail[|tail| - 1];
    StripLead(s);
    UnquoteEscape("\"", p, tail, "");
    assert s == "\"" + Escape(p) + "\"" + tail && "" + p == p;
  }

  lemma Marks()
    ensures !IsBlank('"') && IsBlank(' ')
  {
  }

  lemma StripLead(s: string)
    requires s != "" && !IsBlank(s[0]) && !IsBlank(s[|s| - 1])
    ensures Strip(" " + s) == s
  {
    assert (" " + s)[1..] == s;
    assert LStrip(" " + s) == LStrip(s) == s;
  }

  lemma CleanConcat(s: string, t: string)
    requires Clean(s) && Clean(t)
    ensures Clean(s + t)
  {
  }

  /** A quoted path is on one line and holds no comment sign. */
  lemma {:induction false} EscapeClean(p: string)
    requires IsPath(p)
    ensures Clean(Escape(p))
    decreases |p|
  {
    if p != "" {
      EscapeClean(p[1..]);
      CharClean(p[0]);
      hide IsBreak, EscapeChar;
      CleanConcat(EscapeChar(p[0]), Escape(p[1..]));
    }
  }

  lemma CharClean(c: char)
    requires c != ';' && (IsBreak(c) ==> c == '\n')
    ensures Clean(EscapeChar(c))
  {
  }

  lemma QuoteClean(p: string)
    requires IsPath(p)
    ensures Clean(Quote(p))
  {
    EscapeClean(p);
    assert Clean("\"");
    hide IsBreak, Escape;
    CleanConcat("\"", Escape(p));
    CleanConcat("\"" + Escape(p), "\"");
  }
}
