/** Exactly which object files survive printing and parsing: the well-formed ones, because whatever
    text parses, it parses to a well-formed object file. */
module ObjExact {
  import opened ObjFile
  import opened Numerals
  import opened Sequences
  import opened Objfmt
  import opened ObjText
  import opened ObjRecords
  import opened ObjRoundTrip

  // ---- what the text helpers keep -------------------------------------------------

  lemma {:induction false} LinesNoBreak(s: string)
    ensures forall i | 0 <= i < |SplitLines(s)| :: NoBreak(SplitLines(s)[i])
    decreases |s|
  {
    if s != "" {
      hide IsBreak;
      BeforeEnd(s);
      var n := LineEnd(s);
      if n < |s| {
        var next := if s[n] == '\r' && n + 1 < |s| && s[n + 1] == '\n' then n + 2 else n + 1;
        LinesNoBreak(s[next..]);
      } else {
        assert s[..n] == s;
      }
    }
  }

  lemma {:induction false} BeforeEnd(s: string)
    ensures NoBreak(s[..LineEnd(s)])
    decreases |s|
  {
    hide IsBreak;
    if s != "" && !IsBreak(s[0]) {
      BeforeEnd(s[1..]);
      assert s[..LineEnd(s)] == [s[0]] + s[1..][..LineEnd(s[1..])];
    }
  }

  lemma {:induction false} CommentClean(s: string)
    requires NoBreak(s)
    ensures Clean(StripComment(s))
    decreases |s|
  {
    hide IsBreak;
    if s != "" && s[0] != ';' { CommentClean(s[1..]); }
  }

  /** Stripping keeps a clean text clean and leaves no blank at either end. */
  lemma StripShape(s: string)
    requires Clean(s)
    ensures IsTitle(Strip(s))
  {
    hide IsBlank, IsBreak;
    LStripClean(s);
    RStripShape(LStrip(s));
  }

  lemma {:induction false} LStripClean(s: string)
    requires Clean(s)
    ensures Clean(LStrip(s))
    ensures s != "" && !IsBlank(s[|s| - 1]) ==> LStrip(s) != "" && LStrip(s)[|LStrip(s)| - 1] == s[|s| - 1]
    decreases |s|
  {
    hide IsBlank, IsBreak;
    if s != "" && IsBlank(s[0]) { LStripClean(s[1..]); }
  }

  lemma {:induction false} RStripShape(s: string)
    requires Clean(s)
    ensures var r := RStrip(s);
            Clean(r) && r <= s && (r != "" ==> !IsBlank(r[|r| - 1]))
    decreases |s|
  {
    hide IsBlank, IsBreak;
    if s != "" && IsBlank(s[|s| - 1]) { RStripShape(s[..|s| - 1]); }
  }

  lemma {:induction false} WordEndNoBlank(s: string)
    ensures NoBlank(s[..WordEnd(s)])
    decreases |s|
  {
    hide IsBlank;
    if s != "" && !IsBlank(s[0]) {
      WordEndNoBlank(s[1..]);
      assert s[..WordEnd(s)] == [s[0]] + s[1..][..WordEnd(s[1..])];
    }
  }

  /** The words of a clean text are names. */
  lemma {:induction false} SplitNames(s: string)
    requires Clean(s)
    ensures forall i | 0 <= i < |Split(s)| :: IsName(Split(s)[i])
    decreases |s|
  {
    hide IsBlank, IsBreak, NoBlank;
    LStripClean(s);
    var t := LStrip(s);
    if t != "" {
      WordEndNoBlank(t);
      var n := WordEnd(t);
      SplitNames(t[n..]);
      assert IsName(t[..n]);
      assert Split(s) == [t[..n]] + Split(t[n..]);
    }
  }

  /** Unquoting a clean text gives a path. */
  lemma {:induction false} UnquotePath(s: string, i: nat, acc: string)
    requires i <= |s| && Clean(s) && IsPath(acc) && Unquote(s, i, acc).Some?
    ensures IsPath(Unquote(s, i, acc).value.0) && Clean(Unquote(s, i, acc).value.1)
    decreases |s| - i
  {
    hide IsBreak;
    if s[i] == '"' {
    } else if s[i] == '\\' && i + 1 < |s| {
      var c := if s[i + 1] == 'n' then '\n' else if s[i + 1] == 't' then '\t' else s[i + 1];
      TabPlain();
      UnquotePath(s, i + 2, acc + [c]);
    } else {
      UnquotePath(s, i + 1, acc + [s[i]]);
    }
  }

  lemma TabPlain()
    ensures !IsBreak('\t') && IsBreak('\n')
  {
  }

  lemma QuotedPath(s: string)
    requires Clean(s) && Quoted(s).Some?
    ensures IsPath(Quoted(s).value.0) && Clean(Quoted(s).value.1)
  {
    hide IsBlank, IsBreak, Strip, Unquote;
    StripShape(s);
    UnquotePath(Strip(s), 1, "");
  }

  // ---- parsing gives well-formed parts --------------------------------------------

  lemma RecordGood(line: string)
    requires Clean(line) && ParseRecord(line).Ok?
    ensures GoodRecord(ParseRecord(line).value)
  {
    hide IsBlank, IsBreak, Split, ParseInt, ParseLinkage, ParseReloc, ParseBranch, IsName, IsPath, Quoted, ParseAddend;
    var tail := line[WordEnd(line)..];
    assert Clean(tail);
    SplitNames(tail);
    if Quoted(tail).Some? { QuotedPath(tail); }
  }

  ghost predicate GoodProgress(st: Progress) {
    (forall i | 0 <= i < |st.sources| :: IsPath(st.sources[i]))
    && (forall i | 0 <= i < |st.sections| :: GoodSection(st.sections[i]))
    && (st.current.Some? ==> GoodSection(Section(st.current.value.name, st.current.value.records)))
  }

  lemma AfterWordTitle(line: string)
    requires IsTitle(line)
    ensures IsTitle(AfterWord(line))
  {
    hide IsBlank, IsBreak;
    var rest := line[WordEnd(line)..];
    assert Clean(rest);
    LStripClean(rest);
    if rest != "" { assert rest[|rest| - 1] == line[|line| - 1]; }
  }

  lemma TurnGood(st: Progress, ln: nat, raw: string)
    requires GoodProgress(st) && NoBreak(raw) && Turn(st, ln, raw).Ok?
    ensures GoodProgress(Turn(st, ln, raw).value)
  {
    hide IsBlank, IsBreak, Strip, StripComment, WordEnd, AfterWord, Quoted, IsPath, GoodRecord, ParseRecord, NoBreak;
    CommentClean(raw);
    StripShape(StripComment(raw));
    var line := Strip(StripComment(raw));
    AfterWordTitle(line);
    if ParseRecord(line).Ok? { RecordGood(line); }
    SourceGood(line);
  }

  lemma SourceGood(line: string)
    requires Clean(line)
    ensures |line| >= 6 && Quoted(line[6..]).Some? ==> IsPath(Quoted(line[6..]).value.0)
  {
    hide IsBreak, Quoted, IsPath;
    if |line| >= 6 && Quoted(line[6..]).Some? {
      assert Clean(line[6..]);
      QuotedPath(line[6..]);
    }
  }

  lemma {:induction false} KeptNoBreak(lines: seq<string>, no: nat)
    requires forall i | 0 <= i < |lines| :: NoBreak(lines[i])
    ensures forall i | 0 <= i < |Kept(lines, no)| :: NoBreak(Kept(lines, no)[i].raw)
    decreases |lines|
  {
    hide NoBreak, Strip, StripComment;
    if lines != [] { KeptNoBreak(lines[1..], no + 1); }
  }

  lemma {:induction false} TurnsGood(path: string, lines: seq<Line>, st: Progress)
    requires GoodProgress(st) && (forall i | 0 <= i < |lines| :: NoBreak(lines[i].raw))
    requires Turns(path, lines, st).Ok?
    ensures GoodProgress(Turns(path, lines, st).value)
    decreases |lines|
  {
    hide Turn, GoodProgress, NoBreak;
    if lines != [] {
      TurnGood(st, lines[0].no, lines[0].raw);
      TurnsGood(path, lines[1..], Turn(st, lines[0].no, lines[0].raw).value);
    }
  }

  /** Whatever text parses, it parses to a well-formed object file. */
  lemma ParsedIsWellFormed(path: string, body: string)
    requires Parse(path, body).Ok?
    ensures WellFormed(Parse(path, body).value)
  {
    hide Turns, Kept, SplitLines, NoBreak, IsPath, IsTitle, GoodRecord;
    LinesNoBreak(body);
    KeptNoBreak(SplitLines(body), 1);
    var rest := Kept(SplitLines(body), 1);
    HeaderOne(rest[0].raw);
    hide Header;
    TurnsGood(path, rest[1..], Progress([], [], None));
  }

  lemma HeaderOne(raw: string)
    ensures Header(raw).Ok? ==> Header(raw).value == 1
  {
    hide Split, StripComment, PyInt;
  }

  lemma ReversedWellFormed(o: ObjectFile)
    requires WellFormed(o.(sections := Reverse(o.sections)))
    ensures WellFormed(o)
  {
    hide IsPath, IsTitle, GoodRecord;
    var o' := o.(sections := Reverse(o.sections));
    forall i | 0 <= i < |o.sections|
      ensures o.sections[i] == o'.sections[|o.sections| - 1 - i]
    {
    }
  }

  /** An object file comes back from its text, sections reversed, exactly when it is well formed. */
  lemma RoundTripIff(path: string, o: ObjectFile)
    ensures Parse(path, Render(o)) == Ok(o.(sections := Reverse(o.sections))) <==> WellFormed(o)
  {
    hide Parse, Render, WellFormed;
    if WellFormed(o) {
      RoundTrip(path, o);
    } else if Parse(path, Render(o)) == Ok(o.(sections := Reverse(o.sections))) {
      ParsedIsWellFormed(path, Render(o));
      ReversedWellFormed(o);
    }
  }

  /** Reading a text, printing what was read and reading again reverses the sections and changes
      nothing else. */
  lemma Normalised(path: string, body: string)
    requires Parse(path, body).Ok?
    ensures var o := Parse(path, body).value; Parse(path, Render(o)) == Ok(o.(sections := Reverse(o.sections)))
  {
    hide Parse, Render, WellFormed;
    ParsedIsWellFormed(path, body);
    RoundTrip(path, Parse(path, body).value);
  }
}
