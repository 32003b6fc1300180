/** Which texts the object parser refuses, and at which line. */
module ObjErrors {
  import opened ObjFile
  import opened Objfmt
  import opened ObjText
  import opened ObjRoundTrip

  // ---- the line of an error -------------------------------------------------------

  /** No line is wrong: the text parses, or it only ends too early. */
  predicate NoLineWrong(r: Result<ObjectFile, ParseError>) {
    r.Ok? || r.error.why == EmptyFile || r.error.why == Unterminated
  }

  lemma {:induction false} KeptSplit(lines: seq<string>, k: nat, no: nat)
    requires k <= |lines|
    ensures Kept(lines, no) == Kept(lines[..k], no) + Kept(lines[k..], no + k)
    decreases k
  {
    hide Strip, StripComment;
    if k == 0 {
      assert lines[0..] == lines;
    } else {
      KeptSplit(lines[1..], k - 1, no + 1);
      assert lines[..k][1..] == lines[1..][..k - 1] && lines[1..][k - 1..] == lines[k..] && lines[..k][0] == lines[0];
      var a, b := Kept(lines[1..][..k - 1], no + 1), Kept(lines[k..], no + k);
      var h := if Strip(StripComment(lines[0])) != "" then [Line(no, lines[0])] else [];
      assert h + (a + b) == (h + a) + b;
    }
  }

  lemma {:induction false} KeptNumbers(lines: seq<string>, no: nat, i: nat)
    requires i < |Kept(lines, no)|
    ensures var l := Kept(lines, no)[i];
            no <= l.no < no + |lines| && l.raw == lines[l.no - no] && Strip(StripComment(l.raw)) != ""
    decreases |lines|
  {
    hide Strip, StripComment;
    var m: nat := if Strip(StripComment(lines[0])) != "" then 1 else 0;
    if i >= m { KeptNumbers(lines[1..], no + 1, i - m); }
  }

  lemma TurnWhy(st: Progress, ln: nat, raw: string)
    ensures Turn(st, ln, raw).Err? ==> Turn(st, ln, raw).error !in {EmptyFile, Unterminated}
  {
    hide Strip, StripComment, WordEnd, AfterWord, Quoted, ParseInt, ParseLinkage, ParseReloc, ParseBranch, Split;
  }

  /** A failing turn is the turn of one of the lines. */
  lemma {:induction false} TurnsWhere(path: string, xs: seq<Line>, st: Progress)
    ensures var r := Turns(path, xs, st);
            r.Err? ==> (exists i :: 0 <= i < |xs| && r.error.line == xs[i].no) && r.error.why !in {EmptyFile, Unterminated}
    decreases |xs|
  {
    hide Turn;
    if xs != [] {
      TurnWhy(st, xs[0].no, xs[0].raw);
      var next := Turn(st, xs[0].no, xs[0].raw);
      if next.Ok? {
        TurnsWhere(path, xs[1..], next.value);
      }
    }
  }

  lemma HeaderWhy(raw: string)
    ensures Header(raw).Err? ==> Header(raw).error !in {EmptyFile, Unterminated}
  {
    hide Split, StripComment, PyInt;
  }

  /** The parse of a text against that of its first lines. */
  lemma ParsePrefix(path: string, xs: seq<Line>, ys: seq<Line>, k: nat)
    requires (forall i | 0 <= i < |xs| :: xs[i].no <= k) && (forall i | 0 <= i < |ys| :: k < ys[i].no)
    ensures var whole, part := ParseKept(path, xs + ys), ParseKept(path, xs);
            if NoLineWrong(whole) || k < whole.error.line then NoLineWrong(part) else part == whole
  {
    hide Header, Turns;
    if xs != [] {
      HeaderWhy(xs[0].raw);
      assert (xs + ys)[1..] == xs[1..] + ys;
      TurnsConcat(path, xs[1..], ys, Progress([], [], None));
      TurnsWhere(path, xs[1..], Progress([], [], None));
      var mid := Turns(path, xs[1..], Progress([], [], None));
      if mid.Ok? { TurnsWhere(path, ys, mid.value); }
    } else if ys != [] {
      assert xs + ys == ys;
      HeaderWhy(ys[0].raw);
      TurnsWhere(path, ys[1..], Progress([], [], None));
    }
  }

  /** An error names the first line that is wrong: the lines up to it already give that error, and fewer
      lines give none but a missing end. */
  lemma FirstWrongLine(path: string, lines: seq<string>, k: nat)
    requires k <= |lines| && forall i | 0 <= i < |lines| :: NoBreak(lines[i])
    ensures var whole, part := Parse(path, Join(lines)), Parse(path, Join(lines[..k]));
            if NoLineWrong(whole) || k < whole.error.line then NoLineWrong(part) else part == whole
  {
    hide Join, SplitLines, Kept, ParseKept, Strip, StripComment, IsBreak, NoLineWrong;
    SplitJoin(lines);
    SplitJoin(lines[..k]);
    KeptSplit(lines, k, 1);
    var xs, ys := Kept(lines[..k], 1), Kept(lines[k..], 1 + k);
    forall i: nat | i < |xs| ensures xs[i].no <= k { KeptNumbers(lines[..k], 1, i); }
    forall i: nat | i < |ys| ensures k < ys[i].no { KeptNumbers(lines[k..], 1 + k, i); }
    ParsePrefix(path, xs, ys, k);
  }

  predicate IsSectionLine(raw: string) {
    var line := Strip(StripComment(raw));
    line[..WordEnd(line)] == "section"
  }

  predicate IsEndLine(raw: string) { Strip(StripComment(raw)) == "endsec" }

  lemma TurnOpens(st: Progress, ln: nat, raw: string)
    requires Turn(st, ln, raw).Ok? && Turn(st, ln, raw).value.current.Some? && Strip(StripComment(raw)) != ""
    ensures var open := Turn(st, ln, raw).value.current.value;
            !IsEndLine(raw) && if IsSectionLine(raw) then open.line == ln else st.current.Some? && open.line == st.current.value.line
  {
    hide Strip, StripComment, WordEnd, AfterWord, Quoted, ParseRecord;
    EndsecWord();
  }

  /** The line of an open section is that of the last `section` line, and no `endsec` follows. */
  lemma {:induction false} OpenedAt(path: string, xs: seq<Line>, st: Progress)
    requires forall i | 0 <= i < |xs| :: Strip(StripComment(xs[i].raw)) != ""
    requires Turns(path, xs, st).Ok? && Turns(path, xs, st).value.current.Some? && st.current.None?
    ensures var open := Turns(path, xs, st).value.current.value;
            exists i: nat :: i < |xs| && xs[i].no == open.line && IsSectionLine(xs[i].raw)
              && forall j | i < j < |xs| :: !IsSectionLine(xs[j].raw) && !IsEndLine(xs[j].raw)
    decreases |xs|
  {
    hide Turn, Strip, StripComment, IsSectionLine, IsEndLine;
    if xs == [] { return; }
    var n := |xs| - 1;
    var init, last := xs[..n], xs[n];
    assert xs == init + [last];
    TurnsConcat(path, init, [last], st);
    var mid := Turns(path, init, st).value;
    assert [last][1..] == [];
    TurnOpens(mid, last.no, last.raw);
    if !IsSectionLine(last.raw) { OpenedAt(path, init, st); }
  }

  lemma {:induction false} KeptHas(lines: seq<string>, no: nat, j: nat)
    requires j < |lines| && Strip(StripComment(lines[j])) != ""
    ensures exists i: nat :: i < |Kept(lines, no)| && Kept(lines, no)[i] == Line(no + j, lines[j])
    decreases |lines|
  {
    hide Strip, StripComment;
    if j == 0 {
      assert Kept(lines, no)[0] == Line(no, lines[0]);
    } else {
      KeptHas(lines[1..], no + 1, j - 1);
      var i: nat :| i < |Kept(lines[1..], no + 1)| && Kept(lines[1..], no + 1)[i] == Line(no + j, lines[j]);
      var m: nat := if Strip(StripComment(lines[0])) != "" then 1 else 0;
      assert Kept(lines, no)[m + i] == Line(no + j, lines[j]);
    }
  }

  lemma BlankIsNeither(raw: string)
    requires Strip(StripComment(raw)) == ""
    ensures !IsSectionLine(raw) && !IsEndLine(raw)
  {
    hide Strip, StripComment;
  }

  /** A missing end is found after the last line, with a section open. */
  lemma LeftOpen(path: string, xs: seq<Line>)
    requires ParseKept(path, xs).Err? && ParseKept(path, xs).error.why == Unterminated
    ensures |xs| > 0
    ensures var ts := Turns(path, xs[1..], Progress([], [], None));
            ts.Ok? && ts.value.current.Some? && ts.value.current.value.line == ParseKept(path, xs).error.line
  {
    hide Turns, Header;
    HeaderWhy(xs[0].raw);
    TurnsWhere(path, xs[1..], Progress([], [], None));
  }

  lemma OpenLine(path: string, xs: seq<Line>)
    requires forall i | 0 <= i < |xs| :: Strip(StripComment(xs[i].raw)) != ""
    requires ParseKept(path, xs).Err? && ParseKept(path, xs).error.why == Unterminated
    ensures exists i: nat :: i < |xs| && LastOpened(xs, i) && xs[i].no == ParseKept(path, xs).error.line
  {
    hide ParseKept, Turns, Strip, StripComment, IsSectionLine, IsEndLine;
    LeftOpen(path, xs);
    var ys := xs[1..];
    OpenedAt(path, ys, Progress([], [], None));
    var ln := ParseKept(path, xs).error.line;
    var i: nat :| i < |ys| && ys[i].no == ln && IsSectionLine(ys[i].raw)
                  && forall j | i < j < |ys| :: !IsSectionLine(ys[j].raw) && !IsEndLine(ys[j].raw);
    forall j | i + 1 < j < |xs| ensures !IsSectionLine(xs[j].raw) && !IsEndLine(xs[j].raw) { assert xs[j] == ys[j - 1]; }
    assert LastOpened(xs, i + 1);
  }

  /** The line at `i` opens a section, and no later one opens or ends one. */
  predicate LastOpened(xs: seq<Line>, i: nat) {
    i < |xs| && IsSectionLine(xs[i].raw) && forall j | i < j < |xs| :: !IsSectionLine(xs[j].raw) && !IsEndLine(xs[j].raw)
  }

  /** A section without an end is reported at the line that opens it. */
  lemma UnterminatedLine(path: string, lines: seq<string>)
    requires forall i | 0 <= i < |lines| :: NoBreak(lines[i])
    requires var r := Parse(path, Join(lines)); r.Err? && r.error.why == Unterminated
    ensures var ln := Parse(path, Join(lines)).error.line;
            1 <= ln <= |lines| && IsSectionLine(lines[ln - 1])
            && forall j | ln <= j < |lines| :: !IsSectionLine(lines[j]) && !IsEndLine(lines[j])
  {
    hide Join, SplitLines, Kept, ParseKept, Strip, StripComment, NoBreak, IsSectionLine, IsEndLine;
    SplitJoin(lines);
    var xs := Kept(lines, 1);
    forall i: nat | i < |xs| ensures Numbers(lines, xs[i]) { KeptNumbers(lines, 1, i); }
    OpenLine(path, xs);
    var i: nat :| i < |xs| && LastOpened(xs, i) && xs[i].no == ParseKept(path, xs).error.line;
    LaterLines(lines, xs[i].no, i);
  }

  lemma LaterLines(lines: seq<string>, ln: nat, i: nat)
    requires i < |Kept(lines, 1)| && Kept(lines, 1)[i].no <= ln
    requires forall m | i < m < |Kept(lines, 1)| :: !IsSectionLine(Kept(lines, 1)[m].raw) && !IsEndLine(Kept(lines, 1)[m].raw)
    ensures forall j | ln <= j < |lines| :: !IsSectionLine(lines[j]) && !IsEndLine(lines[j])
  {
    hide Kept, Strip, StripComment, IsSectionLine, IsEndLine;
    forall j: nat | ln <= j < |lines| ensures !IsSectionLine(lines[j]) && !IsEndLine(lines[j]) {
      if Strip(StripComment(lines[j])) == "" { BlankIsNeither(lines[j]); } else { KeptLater(lines, j, i); }
    }
  }

  predicate Numbers(lines: seq<string>, l: Line) {
    1 <= l.no <= |lines| && l.raw == lines[l.no - 1] && Strip(StripComment(l.raw)) != ""
  }

  /** A line that is not blank is kept after every kept line with a smaller number. */
  lemma KeptLater(lines: seq<string>, j: nat, i: nat)
    requires j < |lines| && Strip(StripComment(lines[j])) != "" && i < |Kept(lines, 1)| && Kept(lines, 1)[i].no <= j
    ensures exists m: nat :: i < m < |Kept(lines, 1)| && Kept(lines, 1)[m] == Line(j + 1, lines[j])
  {
    hide Kept, Strip, StripComment;
    KeptSplit(lines, j, 1);
    var front, back := Kept(lines[..j], 1), Kept(lines[j..], 1 + j);
    KeptHas(lines[j..], 1 + j, 0);
    var m: nat :| m < |back| && back[m] == Line(1 + j, lines[j..][0]);
    if i >= |front| { KeptNumbers(lines[j..], 1 + j, i - |front|); }
    assert Kept(lines, 1)[|front| + m] == Line(j + 1, lines[j]);
  }

  // ---- which texts parse ----------------------------------------------------------

  function Word1(raw: string): string {
    var line := Strip(StripComment(raw));
    line[..WordEnd(line)]
  }

  /** A `source` line that holds one quoted path and no more. */
  predicate SourceOk(raw: string) {
    var line := Strip(StripComment(raw));
    |line| >= 6 && Quoted(line[6..]).Some? && Strip(Quoted(line[6..]).value.1) == ""
  }

  /** A section is open before line `k`: some line opens one and no line since then ends it. */
  ghost predicate Inside(xs: seq<Line>, k: nat)
    requires k <= |xs|
  {
    exists i: nat :: i < k && IsSectionLine(xs[i].raw) && forall j | i < j < k :: !IsEndLine(xs[j].raw)
  }

  /** What may stand where: sources and openings outside sections, endings and good records inside. */
  ghost predicate Allowed(xs: seq<Line>, k: nat)
    requires k < |xs|
  {
    var raw := xs[k].raw;
    if Word1(raw) == "source" then !Inside(xs, k) && SourceOk(raw)
    else if IsSectionLine(raw) then !Inside(xs, k)
    else Inside(xs, k) && (!IsEndLine(raw) ==> ParseRecord(Strip(StripComment(raw))).Ok?)
  }

  lemma InsideStep(xs: seq<Line>, k: nat)
    requires k < |xs|
    ensures Inside(xs, k + 1) <==> IsSectionLine(xs[k].raw) || (Inside(xs, k) && !IsEndLine(xs[k].raw))
  {
    EndsecWord();
    hide Strip, StripComment, WordEnd;
    if Inside(xs, k) && !IsEndLine(xs[k].raw) {
      var i: nat :| i < k && IsSectionLine(xs[i].raw) && forall j | i < j < k :: !IsEndLine(xs[j].raw);
      assert i < k + 1;
    }
    if IsSectionLine(xs[k].raw) { assert k < k + 1; }
  }

  lemma InsidePrefix(xs: seq<Line>, ys: seq<Line>, k: nat)
    requires k <= |xs|
    ensures Inside(xs + ys, k) <==> Inside(xs, k)
  {
    hide IsSectionLine, IsEndLine;
    assert forall i | 0 <= i < k :: (xs + ys)[i] == xs[i];
    if Inside(xs, k) {
      var i: nat :| i < k && IsSectionLine(xs[i].raw) && forall j | i < j < k :: !IsEndLine(xs[j].raw);
      assert IsSectionLine((xs + ys)[i].raw);
    }
    if Inside(xs + ys, k) {
      var i: nat :| i < k && IsSectionLine((xs + ys)[i].raw) && forall j | i < j < k :: !IsEndLine((xs + ys)[j].raw);
      assert IsSectionLine(xs[i].raw);
      assert forall j | i < j < k :: !IsEndLine(xs[j].raw) by {
        forall j | i < j < k ensures !IsEndLine(xs[j].raw) { assert (xs + ys)[j] == xs[j]; }
      }
    }
  }

  /** One line is taken or refused, and opens or ends a section. */
  lemma TurnIff(st: Progress, ln: nat, raw: string)
    requires Strip(StripComment(raw)) != ""
    ensures Turn(st, ln, raw).Ok? <==>
              if Word1(raw) == "source" then st.current.None? && SourceOk(raw)
              else if IsSectionLine(raw) then st.current.None?
              else st.current.Some? && (!IsEndLine(raw) ==> ParseRecord(Strip(StripComment(raw))).Ok?)
    ensures Turn(st, ln, raw).Ok? ==>
              (Turn(st, ln, raw).value.current.Some? <==> IsSectionLine(raw) || (st.current.Some? && !IsEndLine(raw)))
  {
    EndsecWord();
    hide Strip, StripComment, AfterWord, Quoted, ParseRecord, WordEnd;
    assert Word1(raw) == "source" ==> |Strip(StripComment(raw))| >= 6;
  }

  lemma {:induction false} TurnsIff(path: string, xs: seq<Line>)
    requires forall i | 0 <= i < |xs| :: Strip(StripComment(xs[i].raw)) != ""
    ensures var r := Turns(path, xs, Progress([], [], None));
            (r.Ok? <==> forall k: nat | k < |xs| :: Allowed(xs, k))
            && (r.Ok? ==> (r.value.current.Some? <==> Inside(xs, |xs|)))
    decreases |xs|
  {
    hide Turn, Inside, Strip, StripComment, IsSectionLine, IsEndLine, Word1, SourceOk, ParseRecord;
    var st := Progress([], [], None);
    if xs == [] {
      NothingInside();
    } else {
      var n := |xs| - 1;
      var init, last := xs[..n], xs[n];
      assert xs == init + [last];
      TurnsIff(path, init);
      TurnsConcat(path, init, [last], st);
      forall k: nat | k <= n ensures Inside(xs, k) <==> Inside(init, k) { InsidePrefix(init, [last], k); }
      assert forall k: nat | k < n :: Allowed(xs, k) <==> Allowed(init, k);
      InsideStep(xs, n);
      var mid := Turns(path, init, st);
      if mid.Ok? {
        TurnIff(mid.value, last.no, last.raw);
        assert [last][1..] == [];
        assert Allowed(xs, n) <==> Turn(mid.value, last.no, last.raw).Ok?;
      } else {
        var k: nat :| k < n && !Allowed(init, k);
        assert !Allowed(xs, k);
      }
    }
  }

  lemma NothingInside()
    ensures !Inside([], 0)
  {
  }

  /** The two words of a header, the second an integer that is 1. */
  predicate IsHeader(raw: string) {
    var ws := Split(StripComment(raw));
    |ws| == 2 && ws[0] == "rrisc-obj" && PyInt(ws[1], 10) == Some(1)
  }

  lemma HeaderIff(raw: string)
    ensures Header(raw).Ok? <==> IsHeader(raw)
  {
    hide Split, StripComment, PyInt;
  }

  /** A text parses exactly when it has lines that are not blank, the first is a header, each later one is
      allowed where it stands, and the last section is ended. */
  lemma ParsesIff(path: string, body: string)
    ensures var xs := Kept(SplitLines(body), 1);
            Parse(path, body).Ok? <==>
              xs != [] && IsHeader(xs[0].raw)
              && (forall k: nat | k < |xs| - 1 :: Allowed(xs[1..], k)) && !Inside(xs[1..], |xs| - 1)
  {
    hide SplitLines, Kept, Header, IsHeader, Turns, Allowed, Inside, Strip, StripComment;
    var lines := SplitLines(body);
    var xs := Kept(lines, 1);
    if xs != [] {
      forall i: nat | i < |xs| ensures Numbers(lines, xs[i]) { KeptNumbers(lines, 1, i); }
      assert forall i | 0 <= i < |xs[1..]| :: Numbers(lines, xs[1..][i]);
      TurnsIff(path, xs[1..]);
      HeaderIff(xs[0].raw);
    }
  }
}
