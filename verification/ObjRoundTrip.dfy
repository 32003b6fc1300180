/** Printing an object file and parsing the text gives the object back, with its sections in
    reverse order. */
module ObjRoundTrip {
  import opened ObjFile
  import opened Numerals
  import opened Sequences
  import opened Objfmt
  import opened ObjText
  import opened ObjRecords

  predicate WellFormed(o: ObjectFile) {
    o.version == 1
    && (forall i | 0 <= i < |o.sources| :: IsPath(o.sources[i]))
    && (forall i | 0 <= i < |o.sections| :: IsTitle(o.sections[i].name))
    && forall i, j | 0 <= i < |o.sections| && 0 <= j < |o.sections[i].records| :: GoodRecord(o.sections[i].records[j])
  }

  // ---- turns of the parsing loop --------------------------------------------------

  /** A record line extends the open section. */
  lemma TurnRecord(st: Progress, ln: nat, r: Record)
    requires st.current.Some? && GoodRecord(r)
    ensures Turn(st, ln, "  " + RenderRecord(r))
         == Ok(st.(current := Some(st.current.value.(records := st.current.value.records + [r]))))
  {
    hide GoodRecord, RenderRecord, ParseRecord, Clean, Strip, StripComment, WordEnd, IsBlank;
    RecordBack(r);
    IndentStripped(RenderRecord(r));
    EndsecWord();
  }

  lemma IndentStripped(line: string)
    requires Trim(line)
    ensures Strip(StripComment("  " + line)) == line && line != "" && Clean("  " + line)
  {
    Spaces();
    hide IsBlank, IsBreak;
    CleanConcat("  ", line);
    NoComment("  " + line);
    StripIndent(line);
  }

  lemma Spaces()
    ensures Clean("  ")
  {
  }

  lemma EndsecWord()
    ensures "endsec"[..WordEnd("endsec")] == "endsec"
  {
    PlainText("endsec");
    hide NoBlank;
    WordEndOf("endsec", "");
    assert "endsec" + "" == "endsec";
  }

  lemma EndLine()
    ensures Strip(StripComment("endsec")) == "endsec" && Clean("endsec")
  {
    PlainText("endsec");
    NoComment("endsec");
    StripSame("endsec");
  }

  /** The line that closes a section. */
  lemma TurnEnd(st: Progress, ln: nat)
    requires st.current.Some?
    ensures Turn(st, ln, "endsec")
         == Ok(st.(sections := st.sections + [Section(st.current.value.name, st.current.value.records)], current := None))
  {
    hide Strip, StripComment, WordEnd;
    EndLine();
    EndsecWord();
  }

  lemma TrimStripped(line: string)
    requires Trim(line)
    ensures Strip(StripComment(line)) == line
  {
    NoComment(line);
    StripSame(line);
  }

  lemma SectionLine(name: string)
    requires IsTitle(name)
    ensures var line := Strip(StripComment("section " + name));
            line != "" && line[..WordEnd(line)] == "section" && AfterWord(line) == name && Clean("section " + name)
  {
    hide IsBlank, IsBreak, StripComment, Strip, NoBlank;
    PlainText("section");
    if name == "" {
      BareSection();
      WordEndOf("section", "");
      assert "section" + "" == "section" && "section"[7..] == "" && "section " + name == "section ";
      assert AfterWord("section") == "";
    } else {
      TrimJoin("section", name);
      assert "section" + " " + name == "section " + name;
      TrimStripped("section " + name);
      Keyword("section", name);
      assert (" " + name)[1..] == name;
      Marks();
      assert LStrip(" " + name) == LStrip(name) == name;
    }
  }

  lemma BareSection()
    ensures Strip(StripComment("section ")) == "section" && Clean("section ") && "section " + "" == "section "
  {
    hide IsBreak, IsBlank, StripComment, Clean, NoBlank;
    PlainText("section");
    OneSpace();
    CleanConcat("section", " ");
    assert "section" + " " == "section ";
    NoComment("section ");
    StripTail("section");
  }

  lemma OneSpace()
    ensures Clean(" ") && IsBlank(' ')
  {
  }

  lemma StripTail(s: string)
    requires Trim(s)
    ensures Strip(s + " ") == s
  {
    OneSpace();
    hide IsBreak, IsBlank;
    assert (s + " ")[..|s|] == s;
    assert RStrip(s + " ") == RStrip(s) == s;
  }

  /** The line that opens a section. */
  lemma TurnSection(st: Progress, ln: nat, name: string)
    requires st.current.None? && IsTitle(name)
    ensures Turn(st, ln, "section " + name) == Ok(st.(current := Some(Open(ln, name, []))))
  {
    hide IsTitle, StripComment, Strip, WordEnd, AfterWord;
    SectionLine(name);
  }

  lemma SourceLine(p: string)
    requires IsPath(p)
    ensures var line := "source " + Quote(p);
            Strip(StripComment(line)) == line && line[..WordEnd(line)] == "source"
            && line[6..] == " " + Quote(p) && Trim(line)
  {
    hide IsBlank, IsBreak, StripComment, Strip, NoBlank, Quote, IsPath, Trim;
    PlainText("source");
    QuoteTrim(p);
    TrimJoin("source", Quote(p));
    assert "source" + " " + Quote(p) == "source " + Quote(p);
    TrimStripped("source " + Quote(p));
    Keyword("source", Quote(p));
  }

  /** A source line before the sections. */
  lemma TurnSource(st: Progress, ln: nat, p: string)
    requires st.current.None? && IsPath(p)
    ensures Turn(st, ln, "source " + Quote(p)) == Ok(st.(sources := [p] + st.sources))
  {
    hide IsPath, StripComment, Strip, WordEnd, Quote, Quoted, Trim;
    SourceLine(p);
    QuotedBack(p, "");
    assert " " + Quote(p) + "" == " " + Quote(p);
    StripNothing();
  }

  lemma StripNothing()
    ensures Strip("") == ""
  {
  }

  // ---- whole files ----------------------------------------------------------------

  /** Lines with their numbers. */
  function Numbered(lines: seq<string>, no: nat): seq<Line> {
    if lines == [] then [] else [Line(no, lines[0])] + Numbered(lines[1..], no + 1)
  }

  /** A line on its own that is not blank. */
  predicate Solid(line: string) { Clean(line) && Strip(line) != "" }

  lemma {:induction false} KeptAll(lines: seq<string>, no: nat)
    requires forall i | 0 <= i < |lines| :: Solid(lines[i])
    ensures Kept(lines, no) == Numbered(lines, no)
    decreases |lines|
  {
    hide Strip, StripComment, Clean;
    if lines != [] {
      NoComment(lines[0]);
      KeptAll(lines[1..], no + 1);
    }
  }

  lemma {:induction false} NumberedConcat(xs: seq<string>, ys: seq<string>, no: nat)
    ensures Numbered(xs + ys, no) == Numbered(xs, no) + Numbered(ys, no + |xs|)
    decreases |xs|
  {
    if xs == [] {
      assert xs + ys == ys;
    } else {
      assert (xs + ys)[1..] == xs[1..] + ys;
      NumberedConcat(xs[1..], ys, no + 1);
    }
  }

  lemma {:induction false} TurnsConcat(path: string, xs: seq<Line>, ys: seq<Line>, st: Progress)
    ensures Turns(path, xs + ys, st)
         == match Turns(path, xs, st) case Err(e) => Err(e) case Ok(mid) => Turns(path, ys, mid)
    decreases |xs|
  {
    hide Turn;
    if xs == [] {
      assert xs + ys == ys;
    } else {
      assert (xs + ys)[1..] == xs[1..] + ys;
      match Turn(st, xs[0].no, xs[0].raw)
      case Err(_) =>
      case Ok(mid) => TurnsConcat(path, xs[1..], ys, mid);
    }
  }

  /** The turns over printed lines in two parts. */
  lemma TurnsSplit(path: string, xs: seq<string>, ys: seq<string>, no: nat, st: Progress, mid: Progress)
    requires Turns(path, Numbered(xs, no), st) == Ok(mid)
    ensures Turns(path, Numbered(xs + ys, no), st) == Turns(path, Numbered(ys, no + |xs|), mid)
  {
    hide Turns, Numbered;
    NumberedConcat(xs, ys, no);
    TurnsConcat(path, Numbered(xs, no), Numbered(ys, no + |xs|), st);
  }

  lemma TurnsOne(path: string, line: string, no: nat, st: Progress, mid: Progress)
    requires Turn(st, no, line) == Ok(mid)
    ensures Turns(path, Numbered([line], no), st) == Ok(mid)
  {
    hide Turn;
    assert Numbered([line], no) == [Line(no, line)];
    assert [Line(no, line)][1..] == [];
  }

  lemma {:induction false} TurnsRecords(path: string, rs: seq<Record>, no: nat, st: Progress)
    requires st.current.Some? && forall i | 0 <= i < |rs| :: GoodRecord(rs[i])
    ensures Turns(path, Numbered(RecordLines(rs), no), st)
         == Ok(st.(current := Some(st.current.value.(records := st.current.value.records + rs))))
    decreases |rs|
  {
    hide Turn, GoodRecord, RenderRecord;
    if rs == [] {
      assert st.current.value.records + rs == st.current.value.records;
    } else {
      var mid := st.(current := Some(st.current.value.(records := st.current.value.records + [rs[0]])));
      TurnRecord(st, no, rs[0]);
      TurnsOne(path, "  " + RenderRecord(rs[0]), no, st, mid);
      TurnsRecords(path, rs[1..], no + 1, mid);
      assert (st.current.value.records + [rs[0]]) + rs[1..] == st.current.value.records + rs;
      TurnsSplit(path, ["  " + RenderRecord(rs[0])], RecordLines(rs[1..]), no, st, mid);
    }
  }

  predicate GoodSection(s: Section) {
    IsTitle(s.name) && forall j | 0 <= j < |s.records| :: GoodRecord(s.records[j])
  }

  lemma TurnsSection(path: string, s: Section, no: nat, st: Progress)
    requires st.current.None? && GoodSection(s)
    ensures Turns(path, Numbered(SectionLines(s), no), st) == Ok(st.(sections := st.sections + [s]))
  {
    hide Turn, Turns, Numbered, RecordLines, GoodRecord, IsTitle;
    var head, body := "section " + s.name, RecordLines(s.records);
    var begun := st.(current := Some(Open(no, s.name, [])));
    var filled := st.(current := Some(Open(no, s.name, s.records)));
    TurnSection(st, no, s.name);
    TurnsOne(path, head, no, st, begun);
    TurnsRecords(path, s.records, no + 1, begun);
    assert [] + s.records == s.records;
    TurnEnd(filled, no + 1 + |body|);
    TurnsOne(path, "endsec", no + 1 + |body|, filled, st.(sections := st.sections + [s]));
    TurnsSplit(path, body, ["endsec"], no + 1, begun, filled);
    TurnsSplit(path, [head], body + ["endsec"], no, st, begun);
    assert [head] + (body + ["endsec"]) == SectionLines(s);
  }

  lemma {:induction false} TurnsSections(path: string, ss: seq<Section>, no: nat, st: Progress)
    requires st.current.None? && forall i | 0 <= i < |ss| :: GoodSection(ss[i])
    ensures Turns(path, Numbered(AllSectionLines(ss), no), st) == Ok(st.(sections := st.sections + ss))
    decreases |ss|
  {
    hide Turn, GoodSection, SectionLines;
    if ss == [] {
      assert st.sections + ss == st.sections;
    } else {
      var mid := st.(sections := st.sections + [ss[0]]);
      TurnsSection(path, ss[0], no, st);
      TurnsSections(path, ss[1..], no + |SectionLines(ss[0])|, mid);
      assert (st.sections + [ss[0]]) + ss[1..] == st.sections + ss;
      TurnsSplit(path, SectionLines(ss[0]), AllSectionLines(ss[1..]), no, st, mid);
    }
  }

  lemma {:induction false} TurnsSources(path: string, ps: seq<string>, no: nat, st: Progress)
    requires st.current.None? && forall i | 0 <= i < |ps| :: IsPath(ps[i])
    ensures Turns(path, Numbered(SourceLines(ps), no), st) == Ok(st.(sources := Reverse(ps) + st.sources))
    decreases |ps|
  {
    hide Turn, IsPath, Quote;
    if ps == [] {
      assert Reverse(ps) + st.sources == st.sources;
    } else {
      var line := "source " + Quote(ps[0]);
      var mid := st.(sources := [ps[0]] + st.sources);
      TurnSource(st, no, ps[0]);
      TurnsOne(path, line, no, st, mid);
      TurnsSources(path, ps[1..], no + 1, mid);
      assert Reverse(ps) == Reverse(ps[1..]) + [ps[0]];
      assert Reverse(ps[1..]) + ([ps[0]] + st.sources) == Reverse(ps) + st.sources;
      TurnsSplit(path, [line], SourceLines(ps[1..]), no, st, mid);
    }
  }

  // ---- every printed line is solid ------------------------------------------------

  lemma TrimSolid(line: string)
    requires Trim(line)
    ensures Solid(line) && Solid("  " + line)
  {
    hide IsBlank, IsBreak, Clean, Strip, StripComment;
    IndentStripped(line);
    NoComment("  " + line);
    NoComment(line);
    TrimStripped(line);
  }

  lemma {:induction false} RecordsSolid(rs: seq<Record>)
    requires forall i | 0 <= i < |rs| :: GoodRecord(rs[i])
    ensures forall i | 0 <= i < |RecordLines(rs)| :: Solid(RecordLines(rs)[i])
    decreases |rs|
  {
    hide Solid, GoodRecord, RenderRecord, Trim, ParseRecord, IsFrame;
    if rs != [] {
      RecordBack(rs[0]);
      TrimSolid(RenderRecord(rs[0]));
      RecordsSolid(rs[1..]);
    }
  }

  lemma {:induction false} SectionsSolid(ss: seq<Section>)
    requires forall i | 0 <= i < |ss| :: GoodSection(ss[i])
    ensures forall i | 0 <= i < |AllSectionLines(ss)| :: Solid(AllSectionLines(ss)[i])
    decreases |ss|
  {
    hide Solid, GoodRecord, IsTitle, RecordLines;
    if ss != [] {
      RecordsSolid(ss[0].records);
      HeadSolid(ss[0].name);
      SectionsSolid(ss[1..]);
    }
  }

  lemma HeadSolid(name: string)
    requires IsTitle(name)
    ensures Solid("section " + name) && Solid("endsec")
  {
    hide IsTitle, Clean, Strip, StripComment, WordEnd, AfterWord;
    SectionLine(name);
    NoComment("section " + name);
    EndLine();
    NoComment("endsec");
  }

  lemma {:induction false} SourcesSolid(ps: seq<string>)
    requires forall i | 0 <= i < |ps| :: IsPath(ps[i])
    ensures forall i | 0 <= i < |SourceLines(ps)| :: Solid(SourceLines(ps)[i])
    decreases |ps|
  {
    hide Solid, IsPath, Quote, Trim, Strip, StripComment, WordEnd;
    if ps != [] {
      SourceLine(ps[0]);
      TrimSolid("source " + Quote(ps[0]));
      SourcesSolid(ps[1..]);
    }
  }

  /** The header line passes its checks. */
  lemma HeaderBack()
    ensures Header("rrisc-obj " + IntText(1)) == Ok(1) && Solid("rrisc-obj " + IntText(1))
  {
    hide NoBlank, Trim, Clean, Split, StripComment, Solid, PyInt;
    PlainText("rrisc-obj");
    ParseIntText(1);
    ParseDecimal(1);
    IntTrim(1);
    var line := "rrisc-obj " + IntText(1);
    assert "rrisc-obj" + " " + IntText(1) == line;
    TrimJoin("rrisc-obj", IntText(1));
    TrimSolid(line);
    HeaderWords(line);
    SplitTwo("rrisc-obj", IntText(1));
  }

  lemma HeaderWords(line: string)
    requires Trim(line)
    ensures StripComment(line) == line
  {
    NoComment(line);
  }

  /** Printing a well-formed object file and parsing the text succeeds and gives the object with its
      sections in reverse order. */
  lemma RoundTrip(path: string, o: ObjectFile)
    requires WellFormed(o)
    ensures Parse(path, Render(o)) == Ok(o.(sections := Reverse(o.sections)))
  {
    hide Header, Turns, Kept, SourceLines, AllSectionLines, IsPath, IsTitle, GoodRecord, Solid, SplitLines, Join, IntText, Numbered;
    var head := "rrisc-obj " + IntText(o.version);
    var tail := SourceLines(o.sources) + AllSectionLines(o.sections);
    var lines := RenderLines(o);
    assert lines == [head] + tail;
    HeaderBack();
    SourcesSolid(o.sources);
    assert forall i | 0 <= i < |o.sections| :: GoodSection(o.sections[i]);
    SectionsSolid(o.sections);
    AllSolid(lines);
    KeptAll(lines, 1);
    NumberedHead(head, tail);
    var st := Progress([], [], None);
    var read := Progress(Reverse(o.sources), [], None);
    TurnsSources(path, o.sources, 2, st);
    assert Reverse(o.sources) + [] == Reverse(o.sources);
    TurnsSplit(path, SourceLines(o.sources), AllSectionLines(o.sections), 2, st, read);
    TurnsSections(path, o.sections, 2 + |SourceLines(o.sources)|, read);
    assert [] + o.sections == o.sections;
    ReverseTwice(o.sources);
  }

  lemma NumberedHead(head: string, tail: seq<string>)
    ensures Numbered([head] + tail, 1) == [Line(1, head)] + Numbered(tail, 2)
  {
    assert ([head] + tail)[1..] == tail;
  }

  lemma AllSolid(lines: seq<string>)
    requires forall i | 0 <= i < |lines| :: Solid(lines[i])
    ensures SplitLines(Join(lines)) == lines
  {
    hide SplitLines, Join, Strip;
    SplitJoin(lines);
  }

  /** Twice around is the identity. */
  lemma RoundTripTwice(path: string, o: ObjectFile)
    requires WellFormed(o)
    ensures match Parse(path, Render(o))
            case Err(_) => false
            case Ok(p) => Parse(path, Render(p)) == Ok(o)
  {
    hide Parse, Render, IsPath, IsTitle, GoodRecord;
    var o' := o.(sections := Reverse(o.sections));
    RoundTrip(path, o);
    forall i, j | 0 <= i < |o'.sections| && 0 <= j < |o'.sections[i].records|
      ensures GoodRecord(o'.sections[i].records[j])
    {
      assert o'.sections[i] == o.sections[|o.sections| - 1 - i];
    }
    RoundTrip(path, o');
    ReverseTwice(o.sections);
    assert o'.(sections := Reverse(o'.sections)) == o;
    assert Parse(path, Render(o')) == Ok(o);
  }
}
