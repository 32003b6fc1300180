/** Every good record parses back from the line it is printed as. */
module ObjRecords {
  import opened ObjFile
  import opened Numerals
  import opened Objfmt
  import opened ObjText

  predicate GoodRecord(r: Record) {
    match r
    case RecWord(w) => 0 <= w < 4096
    case RecZero(n) => n >= 0
    case RecSym(name, _, _) => IsName(name)
    case RecLoc(path, _) => IsPath(path)
    case RecReloc(_, symbol, _) => IsName(symbol)
    case RecBrel(_, symbol, _) => IsName(symbol)
  }

  /** A line that survives stripping whole. */
  predicate Trim(s: string) { s != "" && !IsBlank(s[0]) && !IsBlank(s[|s| - 1]) && Clean(s) }

  lemma NameClean(s: string)
    requires IsName(s)
    ensures Clean(s) && Trim(s) && NoBlank(s) && s != ""
  {
    hide IsBlank, IsBreak;
    forall k | 0 <= k < |s|
      ensures s[k] != ';' && !IsBreak(s[k])
    {
      assert !IsBlank(s[k]) && s[k] in s;
      BlankBreak(s[k]);
    }
  }

  /** Two trimmed texts with a blank between them. */
  lemma TrimJoin(s: string, t: string)
    requires Trim(s) && Trim(t)
    ensures Trim(s + " " + t)
  {
    assert Clean(" ");
    hide IsBlank, IsBreak;
    CleanConcat(s, " ");
    CleanConcat(s + " ", t);
  }

  lemma IntTrim(n: int)
    ensures Trim(IntText(n))
  {
    hide IntText, IsBlank, IsBreak;
    ParseIntText(n);
  }

  /** The keyword and the rest of a line. */
  lemma Keyword(kw: string, body: string)
    requires kw != "" && NoBlank(kw)
    ensures var line := kw + " " + body;
            WordEnd(line) == |kw| && line[..|kw|] == kw && line[|kw|..] == " " + body
  {
    WordEndOf(kw, " " + body);
    assert kw + " " + body == kw + (" " + body);
  }

  lemma SplitTail(body: string)
    ensures Split(" " + body) == Split(body)
  {
    SplitBlank(body);
  }

  /** What a record's line must satisfy for the parsing loop to take it back. */
  predicate Back(line: string, r: Record) {
    Trim(line) && ParseRecord(line) == Ok(r) && !IsFrame(line[..WordEnd(line)])
  }

  /** The words that the parsing loop handles itself. */
  predicate IsFrame(kw: string) { kw == "source" || kw == "section" || kw == "endsec" }

  /** Letters, digits and dashes. */
  predicate IsPlain(c: char) { 'a' <= c <= 'z' || c == '-' || IsDigit(c) }

  lemma PlainText(s: string)
    requires s != "" && forall k | 0 <= k < |s| :: IsPlain(s[k])
    ensures NoBlank(s) && Trim(s)
  {
    hide IsPlain, IsBlank, IsBreak;
    forall k | 0 <= k < |s|
      ensures !IsBlank(s[k])
    {
      PlainChar(s[k]);
    }
    forall k | 0 <= k < |s|
      ensures s[k] != ';' && !IsBreak(s[k])
    {
      PlainChar(s[k]);
    }
  }

  lemma PlainChar(c: char)
    requires IsPlain(c)
    ensures !IsBlank(c) && !IsBreak(c) && c != ';'
  {
  }

  /** A keyword and a trimmed body make a record line. */
  lemma Assemble(kw: string, body: string, r: Record)
    requires kw != "" && NoBlank(kw) && Trim(kw) && Trim(body) && !IsFrame(kw)
    requires ParseTail(kw, " " + body) == Ok(r)
    ensures Back(kw + " " + body, r)
  {
    hide NoBlank, Trim, IsFrame, ParseTail;
    Keyword(kw, body);
    TrimJoin(kw, body);
  }

  lemma OctBack(w: int)
    requires 0 <= w < 4096
    ensures ParseInt(OctWord(w)) == IsInt(w) && NoBlank(OctWord(w)) && Trim(OctWord(w)) && OctWord(w) != ""
  {
    hide Magnitude, NoBlank, Trim, ParseInt, OctDigit, IsDigit, Clean;
    var a, b, c, d := w / 512, w / 64 % 8, w / 8 % 8, w % 8;
    OctMagnitude(a, b, c, d);
    EightFold(w);
    var s := [OctDigit(a), OctDigit(b), OctDigit(c), OctDigit(d)];
    assert OctWord(w) == "0o" + s;
    OctParse(s, w);
    OctPlain(s);
  }

  lemma EightFold(w: int)
    requires 0 <= w < 4096
    ensures w == ((w / 512 * 8 + w / 64 % 8) * 8 + w / 8 % 8) * 8 + w % 8
    ensures w / 512 < 8 && w % 4096 == w
  {
  }

  lemma OctParse(s: string, v: int)
    requires s != "" && IsDigit(s[0]) && Magnitude(8, s) == Some(v)
    ensures ParseInt("0o" + s) == IsInt(v)
  {
    hide Magnitude;
    assert ("0o" + s)[2..] == s;
  }

  lemma OctPlain(s: string)
    requires s != "" && forall k | 0 <= k < |s| :: IsDigit(s[k])
    ensures NoBlank("0o" + s) && Trim("0o" + s)
  {
    hide NoBlank, Trim;
    var t := "0o" + s;
    assert IsPlain('0') && IsPlain('o');
    assert forall k | 2 <= k < |t| :: t[k] == s[k - 2];
    PlainText(t);
  }

  lemma OctMagnitude(a: nat, b: nat, c: nat, d: nat)
    requires a < 8 && b < 8 && c < 8 && d < 8
    ensures Magnitude(8, [OctDigit(a), OctDigit(b), OctDigit(c), OctDigit(d)]) == Some(((a * 8 + b) * 8 + c) * 8 + d)
    ensures forall e | e in [a, b, c, d] :: IsDigit(OctDigit(e))
  {
    hide Magnitude;
    var one, two := [OctDigit(a)], [OctDigit(a), OctDigit(b)];
    var three := [OctDigit(a), OctDigit(b), OctDigit(c)];
    OctFirst(a);
    OctSnoc(one, b, a);
    assert one + [OctDigit(b)] == two;
    OctSnoc(two, c, a * 8 + b);
    assert two + [OctDigit(c)] == three;
    OctSnoc(three, d, (a * 8 + b) * 8 + c);
    assert three + [OctDigit(d)] == [OctDigit(a), OctDigit(b), OctDigit(c), OctDigit(d)];
  }

  lemma OctFirst(d: nat)
    requires d < 8
    ensures Magnitude(8, [OctDigit(d)]) == Some(d)
  {
    OctDigitIn(d);
    hide DigitIn, OctDigit;
    assert [OctDigit(d)][..0] == "";
  }

  lemma OctSnoc(s: string, d: nat, v: nat)
    requires d < 8 && s != "" && s[|s| - 1] != '_' && Magnitude(8, s) == Some(v)
    ensures Magnitude(8, s + [OctDigit(d)]) == Some(v * 8 + d)
  {
    hide DigitIn, OctDigit, Magnitude;
    var t := s + [OctDigit(d)];
    assert t[..|t| - 1] == s && t[|t| - 1] == OctDigit(d);
    OctDigitIn(d);
    MagnitudeStep(8, t);
  }

  lemma MagnitudeStep(base: nat, t: string)
    requires |t| >= 2 && t[|t| - 2] != '_' && DigitIn(base, t[|t| - 1]).Some?
    ensures Magnitude(base, t)
         == match Magnitude(base, t[..|t| - 1])
            case None => None
            case Some(v) => Some(v * base + DigitIn(base, t[|t| - 1]).value)
  {
    hide DigitIn;
  }

  lemma OctDigitIn(d: nat)
    requires d < 8
    ensures DigitIn(8, OctDigit(d)) == Some(d)
  {
  }

  lemma WordBack(w: int)
    requires 0 <= w < 4096
    ensures Back(RenderRecord(RecWord(w)), RecWord(w))
  {
    hide NoBlank, Trim, Split, Back, OctWord, ParseInt;
    PlainText("word");
    OctBack(w);
    SplitTail(OctWord(w));
    SplitOne(OctWord(w));
    Assemble("word", OctWord(w), RecWord(w));
    assert "word" + " " + OctWord(w) == "word " + OctWord(w);
  }

  lemma ZeroBack(n: nat)
    ensures Back(RenderRecord(RecZero(n)), RecZero(n))
  {
    hide NoBlank, Trim, Clean, Split, Back, IntText, ParseInt;
    PlainText("zero");
    ParseIntText(n);
    IntTrim(n);
    SplitTail(IntText(n));
    SplitOne(IntText(n));
    Assemble("zero", IntText(n), RecZero(n));
    assert "zero" + " " + IntText(n) == "zero " + IntText(n);
  }

  lemma LinkageBack(l: Linkage)
    ensures ParseLinkage(LinkageText(l)) == Some(l)
    ensures LinkageText(l) != "" && NoBlank(LinkageText(l)) && Trim(LinkageText(l))
  {
    hide NoBlank, Trim;
    PlainText(LinkageText(l));
  }

  lemma RelocBack(k: RelocKind)
    ensures ParseReloc(RelocText(k)) == Some(k)
    ensures RelocText(k) != "" && NoBlank(RelocText(k)) && Trim(RelocText(k))
  {
    hide NoBlank, Trim;
    PlainText(RelocText(k));
  }

  lemma BranchBack(b: BranchKind)
    ensures ParseBranch(BranchText(b)) == Some(b)
    ensures BranchText(b) != "" && NoBlank(BranchText(b)) && Trim(BranchText(b))
  {
    hide NoBlank, Trim;
    PlainText(BranchText(b));
  }

  /** Two words, or three. */
  lemma SplitTwo(v: string, w: string)
    requires v != "" && NoBlank(v) && w != "" && NoBlank(w)
    ensures Split(v + " " + w) == [v, w]
  {
    hide Split, NoBlank;
    SplitCons(v, w);
    SplitOne(w);
  }

  lemma SplitThree(u: string, v: string, w: string)
    requires u != "" && NoBlank(u) && v != "" && NoBlank(v) && w != "" && NoBlank(w)
    ensures Split(u + " " + v + " " + w) == [u, v, w]
  {
    hide Split, NoBlank;
    SplitCons(u, v + " " + w);
    SplitTwo(v, w);
    assert u + " " + v + " " + w == u + " " + (v + " " + w);
  }

  lemma SymBack(name: string, l: Linkage)
    requires IsName(name)
    ensures Back(RenderRecord(RecSym(name, l, None)), RecSym(name, l, None))
  {
    hide NoBlank, Trim, Clean, Split, Back, LinkageText, ParseLinkage, IsName;
    PlainText("sym");
    LinkageBack(l);
    NameClean(name);
    var body := name + " " + LinkageText(l);
    TrimJoin(name, LinkageText(l));
    SplitTail(body);
    SplitTwo(name, LinkageText(l));
    Assemble("sym", body, RecSym(name, l, None));
    assert "sym" + " " + body == RenderRecord(RecSym(name, l, None));
  }

  lemma SymAtBack(name: string, l: Linkage, n: int)
    requires IsName(name)
    ensures Back(RenderRecord(RecSym(name, l, Some(n))), RecSym(name, l, Some(n)))
  {
    hide NoBlank, Trim, Clean, Split, Back, LinkageText, ParseLinkage, IsName, IntText, ParseInt;
    PlainText("sym");
    LinkageBack(l);
    NameClean(name);
    ParseIntText(n);
    IntTrim(n);
    var body := name + " " + LinkageText(l) + " " + IntText(n);
    TrimJoin(name, LinkageText(l));
    TrimJoin(name + " " + LinkageText(l), IntText(n));
    SplitTail(body);
    SplitThree(name, LinkageText(l), IntText(n));
    Assemble("sym", body, RecSym(name, l, Some(n)));
    assert "sym" + " " + body == RenderRecord(RecSym(name, l, Some(n)));
  }

  lemma QuoteTrim(path: string)
    requires IsPath(path)
    ensures Trim(Quote(path))
  {
    QuoteClean(path);
    Marks();
    hide IsBlank, IsBreak;
  }

  lemma LocBack(path: string, lineno: int)
    requires IsPath(path)
    ensures Back(RenderRecord(RecLoc(path, lineno)), RecLoc(path, lineno))
  {
    hide NoBlank, Trim, Clean, Split, Back, IsPath, IntText, ParseInt, Quote, Quoted;
    PlainText("loc");
    ParseIntText(lineno);
    IntTrim(lineno);
    QuoteTrim(path);
    var q, n := Quote(path), IntText(lineno);
    LastPlain(n);
    QuotedBack(path, " " + n);
    TrimJoin(q, n);
    SplitTail(n);
    SplitOne(n);
    assert " " + q + (" " + n) == " " + (q + " " + n);
    Assemble("loc", q + " " + n, RecLoc(path, lineno));
    assert "loc" + " " + (q + " " + n) == RenderRecord(RecLoc(path, lineno));
  }

  lemma LastPlain(s: string)
    requires Trim(s)
    ensures s != "" && var t := " " + s; !IsBlank(t[|t| - 1])
  {
    hide IsBlank, IsBreak;
  }

  /** The addend of a relocation or branch: nothing, or one word. */
  lemma AddendBack(symbol: string, n: int)
    requires IsName(symbol)
    ensures var text := symbol + RenderAddend(n);
            Trim(text) && Split(text) == [symbol] + Split(RenderAddend(n))
            && ParseAddend(Split(RenderAddend(n))) == Ok(n)
  {
    hide NoBlank, Trim, Clean, Split, IsName, IntText, ParseInt;
    NameClean(symbol);
    SplitNothing();
    if n == 0 {
      SplitOne(symbol);
      assert symbol + "" == symbol;
    } else {
      var word := if n > 0 then "+" + IntText(n) else IntText(n);
      assert symbol + RenderAddend(n) == symbol + " " + word && RenderAddend(n) == " " + word;
      AddendWord(symbol, n, word);
    }
  }

  lemma AddendWord(symbol: string, n: int, word: string)
    requires IsName(symbol) && n != 0 && word == if n > 0 then "+" + IntText(n) else IntText(n)
    ensures Trim(symbol + " " + word) && Split(symbol + " " + word) == [symbol] + Split(" " + word)
    ensures ParseAddend(Split(" " + word)) == Ok(n)
  {
    hide *;
    NameClean(symbol);
    PlusPlain(n);
    TrimJoin(symbol, word);
    SplitCons(symbol, word);
    SplitTail(word);
    SplitOne(word);
    ParseOneAddend(n, word);
  }

  lemma ParseOneAddend(n: int, word: string)
    requires n != 0 && word == (if n > 0 then "+" + IntText(n) else IntText(n)) && (n < 0 ==> word != "" && word[0] == '-')
    ensures ParseAddend([word]) == Ok(n)
  {
    hide IntText, ParseInt;
    ParseIntText(n);
    assert n > 0 ==> word[0] == '+' && word[1..] == IntText(n);
  }

  lemma SplitNothing()
    ensures Split("") == []
  {
  }

  lemma PlusPlain(n: int)
    requires n != 0
    ensures var word := if n > 0 then "+" + IntText(n) else IntText(n);
            word != "" && NoBlank(word) && Trim(word) && (n < 0 ==> word[0] == '-')
  {
    hide Decimal;
    ParseIntText(n);
    IntTrim(n);
    assert !IsBlank('+') && !IsBreak('+');
    hide IsBlank, IsBreak;
    CleanConcat("+", IntText(n));
  }

  /** The words after the keyword of a relocation or branch. */
  lemma TargetWords(kind: string, symbol: string, n: int)
    requires kind != "" && NoBlank(kind) && Trim(kind) && IsName(symbol)
    ensures var body := kind + " " + (symbol + RenderAddend(n));
            Trim(body) && |Split(" " + body)| >= 2 && Split(" " + body)[..2] == [kind, symbol]
            && ParseAddend(Split(" " + body)[2..]) == Ok(n)
  {
    hide *;
    var tail := symbol + RenderAddend(n);
    AddendBack(symbol, n);
    TrimJoin(kind, tail);
    SplitTail(kind + " " + tail);
    SplitCons(kind, tail);
    assert Split(" " + (kind + " " + tail)) == [kind, symbol] + Split(RenderAddend(n));
  }

  lemma RelocRecordBack(k: RelocKind, symbol: string, n: int)
    requires IsName(symbol)
    ensures Back(RenderRecord(RecReloc(k, symbol, n)), RecReloc(k, symbol, n))
  {
    hide NoBlank, Trim, Clean, Split, Back, IsName, RelocText, ParseReloc, RenderAddend, ParseAddend;
    PlainText("reloc");
    RelocBack(k);
    AddendBack(symbol, n);
    var tail := symbol + RenderAddend(n);
    var body := RelocText(k) + " " + tail;
    TargetWords(RelocText(k), symbol, n);
    Assemble("reloc", body, RecReloc(k, symbol, n));
    assert "reloc" + " " + body == RenderRecord(RecReloc(k, symbol, n));
  }

  lemma BrelRecordBack(b: BranchKind, symbol: string, n: int)
    requires IsName(symbol)
    ensures Back(RenderRecord(RecBrel(b, symbol, n)), RecBrel(b, symbol, n))
  {
    hide NoBlank, Trim, Clean, Split, Back, IsName, BranchText, ParseBranch, RenderAddend, ParseAddend;
    PlainText("brel");
    BranchBack(b);
    AddendBack(symbol, n);
    var tail := symbol + RenderAddend(n);
    var body := BranchText(b) + " " + tail;
    TargetWords(BranchText(b), symbol, n);
    Assemble("brel", body, RecBrel(b, symbol, n));
    assert "brel" + " " + body == RenderRecord(RecBrel(b, symbol, n));
  }

  /** Parsing a printed record gives the record. */
  lemma RecordBack(r: Record)
    requires GoodRecord(r)
    ensures Back(RenderRecord(r), r)
  {
    hide Back, RenderRecord, IsName, IsPath;
    match r
    case RecWord(w) => WordBack(w);
    case RecZero(n) => ZeroBack(n);
    case RecSym(name, l, offset) =>
      if offset.Some? { SymAtBack(name, l, offset.value); } else { SymBack(name, l); }
    case RecLoc(path, lineno) => LocBack(path, lineno);
    case RecReloc(k, symbol, n) => RelocRecordBack(k, symbol, n);
    case RecBrel(b, symbol, n) => BrelRecordBack(b, symbol, n);
  }
}
