/** What the object parser makes of texts that it did not print: comments and blanks are no part of a line,
    and integers in every base mean what they spell. */
module ObjLayout {
  import opened ObjFile
  import opened Objfmt
  import opened ObjText
  import opened ObjRecords

  predicate AllBlank(s: string) { forall k | 0 <= k < |s| :: IsBlank(s[k]) }

  /** Nothing, or a comment. */
  predicate IsNote(s: string) { s == "" || s[0] == ';' }

  // ---- comments and blanks --------------------------------------------------------

  lemma {:induction false} CommentDropped(s: string, note: string)
    requires ';' !in s && IsNote(note)
    ensures StripComment(s + note) == s
    decreases |s|
  {
    if s == "" {
      assert s + note == note;
    } else {
      assert (s + note)[1..] == s[1..] + note;
      CommentDropped(s[1..], note);
    }
  }

  lemma {:induction false} LeadDropped(pre: string, s: string)
    requires AllBlank(pre)
    ensures LStrip(pre + s) == LStrip(s)
    decreases |pre|
  {
    hide IsBlank;
    if pre == "" {
      assert pre + s == s;
    } else {
      assert (pre + s)[1..] == pre[1..] + s;
      LeadDropped(pre[1..], s);
    }
  }

  lemma {:induction false} TailDropped(s: string, post: string)
    requires AllBlank(post)
    ensures RStrip(s + post) == RStrip(s)
    decreases |post|
  {
    hide IsBlank;
    if post == "" {
      assert s + post == s;
    } else {
      var m := |post| - 1;
      assert (s + post)[..|s + post| - 1] == s + post[..m];
      TailDropped(s, post[..m]);
    }
  }

  lemma {:induction false} BlanksStrip(s: string)
    requires AllBlank(s)
    ensures LStrip(s) == ""
    decreases |s|
  {
    hide IsBlank;
    if s != "" { BlanksStrip(s[1..]); }
  }

  lemma {:induction false} LeadThenTail(s: string, post: string)
    requires AllBlank(post)
    ensures LStrip(s + post) == if LStrip(s) == "" then "" else LStrip(s) + post
    decreases |s|
  {
    hide IsBlank;
    if s == "" {
      assert s + post == post;
      BlanksStrip(post);
    } else if IsBlank(s[0]) {
      assert (s + post)[1..] == s[1..] + post;
      LeadThenTail(s[1..], post);
    }
  }

  lemma StripDressed(pre: string, s: string, post: string)
    requires AllBlank(pre) && AllBlank(post)
    ensures Strip(pre + s + post) == Strip(s)
  {
    hide IsBlank, LStrip, RStrip, AllBlank;
    assert pre + s + post == pre + (s + post);
    LeadDropped(pre, s + post);
    LeadThenTail(s, post);
    TailDropped(LStrip(s), post);
  }

  lemma {:induction false} WordEndTail(s: string, post: string)
    requires AllBlank(post)
    ensures WordEnd(s + post) == WordEnd(s)
    decreases |s|
  {
    hide IsBlank;
    if s == "" {
      assert s + post == post;
    } else if !IsBlank(s[0]) {
      assert (s + post)[1..] == s[1..] + post;
      WordEndTail(s[1..], post);
    }
  }

  lemma {:induction false} SplitTailDropped(s: string, post: string)
    requires AllBlank(post)
    ensures Split(s + post) == Split(s)
    decreases |s|
  {
    hide IsBlank, LStrip, WordEnd;
    LeadThenTail(s, post);
    var t := LStrip(s);
    if t != "" {
      WordEndTail(t, post);
      var n := WordEnd(t);
      assert (t + post)[..n] == t[..n] && (t + post)[n..] == t[n..] + post;
      SplitTailDropped(t[n..], post);
    }
  }

  lemma SplitDressed(pre: string, s: string, post: string)
    requires AllBlank(pre) && AllBlank(post)
    ensures Split(pre + s + post) == Split(s)
  {
    hide IsBlank, LStrip, WordEnd, AllBlank;
    assert pre + s + post == pre + (s + post);
    LeadDropped(pre, s + post);
    assert Split(pre + (s + post)) == Split(s + post);
    SplitTailDropped(s, post);
  }

  /** `raw` is the line `s` between blanks and before a comment. */
  predicate Dresses(raw: string, s: string, pre: string, post: string, note: string) {
    raw == pre + s + post + note && ';' !in s && AllBlank(pre) && AllBlank(post) && IsNote(note)
  }

  /** The parser sees the same line. */
  lemma SameLine(raw: string, s: string, pre: string, post: string, note: string)
    requires Dresses(raw, s, pre, post, note)
    ensures Strip(StripComment(raw)) == Strip(StripComment(s))
    ensures Split(StripComment(raw)) == Split(StripComment(s))
  {
    BlankNoComment(pre);
    BlankNoComment(post);
    hide IsBlank, StripComment, Strip, Split, AllBlank;
    CommentDropped(pre + s + post, note);
    CommentDropped(s, "");
    assert s + "" == s;
    StripDressed(pre, s, post);
    SplitDressed(pre, s, post);
  }

  lemma BlankNoComment(s: string)
    requires AllBlank(s)
    ensures ';' !in s
  {
    assert !IsBlank(';');
  }

  /** The dressed lines, each between its blanks and before its comment. */
  predicate AllDressed(raws: seq<string>, lines: seq<string>, pre: seq<string>, post: seq<string>, notes: seq<string>) {
    |raws| == |lines| == |pre| == |post| == |notes|
    && forall i | 0 <= i < |lines| :: Dresses(raws[i], lines[i], pre[i], post[i], notes[i])
  }

  /** Lines that read the same give kept lines that read the same, with the same numbers. */
  predicate Alike(xs: seq<Line>, ys: seq<Line>) {
    |xs| == |ys| && forall i | 0 <= i < |xs| ::
      xs[i].no == ys[i].no
      && Strip(StripComment(xs[i].raw)) == Strip(StripComment(ys[i].raw))
      && Split(StripComment(xs[i].raw)) == Split(StripComment(ys[i].raw))
  }

  lemma AlikeConcat(xs: seq<Line>, ys: seq<Line>, xs': seq<Line>, ys': seq<Line>)
    requires Alike(xs, ys) && Alike(xs', ys')
    ensures Alike(xs + xs', ys + ys')
  {
    hide Strip, StripComment, Split;
  }

  lemma {:induction false} KeptAlike(raws: seq<string>, lines: seq<string>, no: nat)
    requires |raws| == |lines|
    requires forall i | 0 <= i < |lines| ::
               Strip(StripComment(raws[i])) == Strip(StripComment(lines[i]))
               && Split(StripComment(raws[i])) == Split(StripComment(lines[i]))
    ensures Alike(Kept(raws, no), Kept(lines, no))
    decreases |lines|
  {
    hide Strip, StripComment, Split;
    if lines != [] {
      KeptAlike(raws[1..], lines[1..], no + 1);
      var x := if Strip(StripComment(raws[0])) != "" then [Line(no, raws[0])] else [];
      var y := if Strip(StripComment(lines[0])) != "" then [Line(no, lines[0])] else [];
      assert Alike(x, y);
      hide Alike;
      AlikeConcat(x, y, Kept(raws[1..], no + 1), Kept(lines[1..], no + 1));
    }
  }

  lemma TurnAlike(st: Progress, ln: nat, x: string, y: string)
    requires Strip(StripComment(x)) == Strip(StripComment(y))
    ensures Turn(st, ln, x) == Turn(st, ln, y)
  {
    hide Strip, StripComment, ParseRecord, Quoted, WordEnd, AfterWord;
  }

  lemma {:induction false} TurnsAlike(path: string, xs: seq<Line>, ys: seq<Line>, st: Progress)
    requires Alike(xs, ys)
    ensures Turns(path, xs, st) == Turns(path, ys, st)
    decreases |xs|
  {
    hide Turn, Strip, StripComment, Split;
    if xs != [] {
      TurnAlike(st, xs[0].no, xs[0].raw, ys[0].raw);
      var next := Turn(st, xs[0].no, xs[0].raw);
      if next.Ok? { TurnsAlike(path, xs[1..], ys[1..], next.value); }
    }
  }

  lemma ParseAlike(path: string, xs: seq<Line>, ys: seq<Line>)
    requires Alike(xs, ys)
    ensures ParseKept(path, xs) == ParseKept(path, ys)
  {
    hide Turns, Finished, Strip, StripComment, Split, PyInt;
    if xs != [] { TurnsAlike(path, xs[1..], ys[1..], Progress([], [], None)); }
  }

  /** Comments after a line and blanks around it change nothing, neither the object nor an error. */
  lemma LayoutFree(path: string, raws: seq<string>, lines: seq<string>, pre: seq<string>, post: seq<string>, notes: seq<string>)
    requires AllDressed(raws, lines, pre, post, notes) && forall i | 0 <= i < |raws| :: NoBreak(raws[i])
    ensures Parse(path, Join(raws)) == Parse(path, Join(lines))
  {
    hide Join, SplitLines, Kept, ParseKept, Strip, StripComment, Split, IsBreak, AllBlank, IsNote;
    forall i | 0 <= i < |lines|
      ensures NoBreak(lines[i]) && Strip(StripComment(raws[i])) == Strip(StripComment(lines[i]))
              && Split(StripComment(raws[i])) == Split(StripComment(lines[i]))
    {
      SameLine(raws[i], lines[i], pre[i], post[i], notes[i]);
      assert forall k | 0 <= k < |lines[i]| :: lines[i][k] == raws[i][|pre[i]| + k];
    }
    SplitJoin(raws);
    SplitJoin(lines);
    KeptAlike(raws, lines, 1);
    ParseAlike(path, Kept(raws, 1), Kept(lines, 1));
  }

  /** Spaces and tabs are blanks. */
  lemma GapIsBlank(s: string)
    requires forall k | 0 <= k < |s| :: s[k] == ' ' || s[k] == '\t'
    ensures AllBlank(s) && NoBreak(s)
  {
  }

  /** Lines, each with its own ending. */
  function Ended(lines: seq<string>, ends: seq<string>): string
    requires |lines| == |ends|
  {
    if lines == [] then "" else lines[0] + ends[0] + Ended(lines[1..], ends[1..])
  }

  lemma OneEnding(line: string, end: string, tail: string)
    requires NoBreak(line) && end in {"\n", "\r\n"}
    ensures SplitLines(line + end + tail) == [line] + SplitLines(tail)
  {
    var s, n := line + end + tail, |line|;
    assert s == line + (end + tail);
    LineEndOf(line, end + tail);
    hide NoBreak, IsBreak, LineEnd;
    assert s[..n] == line && s[n] == end[0];
    assert |end| == 2 ==> s[n + 1] == end[1];
    assert s[n + |end|..] == tail;
  }

  /** A line may end in a newline, or in a carriage return and a newline. */
  lemma {:induction false} SplitEnded(lines: seq<string>, ends: seq<string>)
    requires |lines| == |ends| && (forall i | 0 <= i < |lines| :: NoBreak(lines[i]) && ends[i] in {"\n", "\r\n"})
    ensures SplitLines(Ended(lines, ends)) == lines
    decreases |lines|
  {
    hide SplitLines, NoBreak;
    if lines == [] {
      NothingSplit();
    } else {
      SplitEnded(lines[1..], ends[1..]);
      OneEnding(lines[0], ends[0], Ended(lines[1..], ends[1..]));
    }
  }

  lemma NothingSplit()
    ensures SplitLines("") == []
  {
  }

  /** Line endings change nothing either. */
  lemma EndingsFree(path: string, lines: seq<string>, ends: seq<string>)
    requires |lines| == |ends| && (forall i | 0 <= i < |lines| :: NoBreak(lines[i]) && ends[i] in {"\n", "\r\n"})
    ensures Parse(path, Ended(lines, ends)) == Parse(path, Join(lines))
  {
    hide Join, Ended, SplitLines, Kept, ParseKept, NoBreak;
    SplitEnded(lines, ends);
    SplitJoin(lines);
  }

  // ---- integers -------------------------------------------------------------------

  function Pow(b: nat, n: nat): nat { if n == 0 then 1 else b * Pow(b, n - 1) }

  /** The number that digits spell in a base, the first digit the highest. */
  function Spelled(b: nat, ds: seq<nat>): nat {
    if ds == [] then 0 else ds[0] * Pow(b, |ds| - 1) + Spelled(b, ds[1..])
  }

  /** `c` stands for the digit `d`, letters of either case. */
  predicate Stands(c: char, d: nat) { d < 16 && (c == "0123456789abcdef"[d] || c == "0123456789ABCDEF"[d]) }

  predicate Digits(b: nat, s: string, ds: seq<nat>) {
    |s| == |ds| && forall k | 0 <= k < |s| :: ds[k] < b && Stands(s[k], ds[k])
  }

  lemma StandsIn(b: nat, c: char, d: nat)
    requires d < b <= 16 && Stands(c, d)
    ensures DigitIn(b, c) == Some(d) && c != '_' && c != '+' && c != '-' && c !in "oOxX" && (b <= 10 ==> c !in "bB")
  {
  }

  lemma {:induction false} SpelledSnoc(b: nat, ds: seq<nat>, d: nat)
    ensures Spelled(b, ds + [d]) == Spelled(b, ds) * b + d
    decreases |ds|
  {
    if ds == [] {
      assert [d][1..] == [];
      assert Pow(b, 0) == 1;
      assert [] + [d] == [d];
    } else {
      var p := Pow(b, |ds| - 1);
      assert (ds + [d])[1..] == ds[1..] + [d];
      SpelledSnoc(b, ds[1..], d);
      Distribute(ds[0], p, Spelled(b, ds[1..]), b);
    }
  }

  lemma Distribute(d: nat, p: nat, v: nat, b: nat)
    ensures (d * p + v) * b == d * (b * p) + v * b
  {
  }

  lemma {:induction false} MagnitudeMeans(b: nat, s: string, ds: seq<nat>)
    requires b <= 16 && s != "" && Digits(b, s, ds)
    ensures Magnitude(b, s) == Some(Spelled(b, ds))
    decreases |s|
  {
    hide Stands, DigitIn, Spelled, Pow;
    var n := |s| - 1;
    StandsIn(b, s[n], ds[n]);
    SpelledSnoc(b, ds[..n], ds[n]);
    assert ds == ds[..n] + [ds[n]];
    if n == 0 {
      assert ds[..0] == [];
      NothingSpelled(b);
    } else {
      StandsIn(b, s[n - 1], ds[n - 1]);
      MagnitudeMeans(b, s[..n], ds[..n]);
    }
  }

  lemma NothingSpelled(b: nat)
    ensures Spelled(b, []) == 0
  {
  }

  /** The prefix that announces a base; none for decimal. */
  predicate Announces(prefix: string, b: nat) {
    prefix in (if b == 10 then {""} else if b == 8 then {"0o", "0O"} else if b == 16 then {"0x", "0X"}
               else if b == 2 then {"0b", "0B"} else {})
  }

  lemma PyIntMeans(b: nat, s: string, ds: seq<nat>)
    requires b <= 16 && s != "" && Digits(b, s, ds)
    ensures PyInt(s, b) == Some(Spelled(b, ds))
  {
    hide Magnitude, Spelled, Stands, DigitIn;
    MagnitudeMeans(b, s, ds);
    StandsIn(b, s[0], ds[0]);
  }

  lemma BaseChosen(prefix: string, b: nat, s: string, v: int)
    requires Announces(prefix, b) && s != "" && s[0] !in "+-" && (prefix == "" && |s| >= 2 ==> s[1] !in "oOxXbB")
    requires PyInt(s, b) == Some(v)
    ensures ParseInt(prefix + s) == IsInt(v)
  {
    hide PyInt;
    var t := prefix + s;
    assert if prefix == "" then t == s else t[2..] == s;
    assert t[0] !in "+-";
  }

  lemma SignChosen(sign: string, t: string)
    requires sign in {"", "+", "-"} && t != "" && t[0] !in "+-" && ParseInt(t).IsInt?
    ensures ParseInt(sign + t) == IsInt(if sign == "-" then -ParseInt(t).v else ParseInt(t).v)
  {
    hide PyInt;
    assert sign != "" ==> (sign + t)[1..] == t;
    assert sign == "" ==> sign + t == t;
  }

  /** An integer is what its digits spell in the base its prefix announces, with its sign. */
  lemma IntMeans(sign: string, prefix: string, b: nat, s: string, ds: seq<nat>)
    requires sign in {"", "+", "-"} && Announces(prefix, b) && s != "" && Digits(b, s, ds)
    ensures ParseInt(sign + prefix + s) == IsInt(if sign == "-" then -(Spelled(b, ds) as int) else Spelled(b, ds))
  {
    hide PyInt, ParseInt, Spelled, Stands, DigitIn;
    PyIntMeans(b, s, ds);
    StandsIn(b, s[0], ds[0]);
    if |s| >= 2 { StandsIn(b, s[1], ds[1]); }
    BaseChosen(prefix, b, s, Spelled(b, ds));
    SignChosen(sign, prefix + s);
    assert sign + prefix + s == sign + (prefix + s);
  }

  /** The words of a trimmed line are its first word and those of the rest. */
  lemma WordsOf(line: string)
    requires Trim(line)
    ensures Split(line) == [line[..WordEnd(line)]] + Split(line[WordEnd(line)..])
  {
    hide IsBlank, WordEnd;
    assert LStrip(line) == line;
  }

  /** The keyword decides which parser takes the rest of the words. */
  lemma Dispatch(line: string)
    requires Trim(line)
    ensures var ws, r := Split(line), ParseRecord(line);
            ws != [] &&
            r == (if ws[0] == "word" then ParseWord(ws[1..])
                  else if ws[0] == "zero" then ParseZero(ws[1..])
                  else if ws[0] == "sym" then ParseSym(ws[1..])
                  else if ws[0] == "loc" then r
                  else if ws[0] == "reloc" then ParseRelocRecord(ws[1..])
                  else if ws[0] == "brel" then ParseBrelRecord(ws[1..])
                  else Err(UnknownRecord(ws[0])))
  {
    WordsOf(line);
    hide Split, WordEnd, IsBlank, IsBreak, ParseWord, ParseZero, ParseSym, ParseLoc, ParseRelocRecord, ParseBrelRecord;
  }

  /** A `word` line holds one integer, taken modulo 4096, a `zero` line one that is not negative; any other
      such line is refused. */
  lemma NumberRecords(line: string)
    requires Trim(line)
    ensures var ws, r := Split(line), ParseRecord(line);
            ws != [] &&
            var n := if |ws| == 2 then ParseInt(ws[1]) else NotInt;
            (ws[0] == "word" ==> if n.IsInt? then r == Ok(RecWord(n.v % 4096)) else r.Err?)
            && (ws[0] == "zero" ==> if n.IsInt? && n.v >= 0 then r == Ok(RecZero(n.v)) else r.Err?)
  {
    hide Split, ParseInt, ParseRecord, Trim, ParseSym, ParseRelocRecord, ParseBrelRecord;
    Dispatch(line);
  }

  /** A `sym` line holds a name, a linkage and perhaps an integer. */
  lemma SymRecords(line: string)
    requires Trim(line)
    ensures var ws, r := Split(line), ParseRecord(line);
            ws != [] &&
            var n := if |ws| == 4 then ParseInt(ws[3]) else NotInt;
            (ws[0] == "sym" && r.Ok? ==>
              (|ws| == 3 || n.IsInt?) && r.value.RecSym? && r.value.name == ws[1] && LinkageText(r.value.linkage) == ws[2]
              && r.value.offset == if |ws| == 3 then None else Some(n.v))
  {
    hide Split, ParseInt, ParseRecord, Trim, ParseWord, ParseZero, ParseRelocRecord, ParseBrelRecord, ParseLinkage, LinkageText;
    Dispatch(line);
    if |Split(line)| >= 3 { LinkageIs(Split(line)[2]); }
  }

  lemma LinkageIs(t: string)
    ensures ParseLinkage(t).Some? ==> LinkageText(ParseLinkage(t).value) == t
  {
  }

  lemma KindsAre(t: string)
    ensures ParseReloc(t).Some? ==> RelocText(ParseReloc(t).value) == t
    ensures ParseBranch(t).Some? ==> BranchText(ParseBranch(t).value) == t
  {
  }

  /** `reloc` and `brel` lines hold a kind, a symbol and perhaps an addend, and no keyword but the six is known. */
  lemma TargetRecords(line: string)
    requires Trim(line)
    ensures var ws, r := Split(line), ParseRecord(line);
            ws != [] &&
            (r.Ok? ==>
              if ws[0] == "reloc" then
                3 <= |ws| <= 4 && r.value.RecReloc? && RelocText(r.value.kind) == ws[1] && r.value.symbol == ws[2]
              else if ws[0] == "brel" then
                3 <= |ws| <= 4 && r.value.RecBrel? && BranchText(r.value.branch) == ws[1] && r.value.symbol == ws[2]
              else ws[0] in {"word", "zero", "sym", "loc"})
  {
    hide Split, ParseInt, ParseRecord, Trim, ParseWord, ParseZero, ParseSym, ParseReloc, ParseBranch, RelocText, BranchText;
    Dispatch(line);
    if |Split(line)| >= 2 { KindsAre(Split(line)[1]); }
  }
}
