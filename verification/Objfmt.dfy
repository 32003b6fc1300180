/** pytools/objfmt.py: the text form of an object file, printed and parsed. */
module Objfmt {
  import opened ObjFile
  import opened Numerals
  import opened Sequences

  // ---- text as Python sees it -----------------------------------------------------

  /** The characters `str.splitlines` breaks at. */
  predicate IsBreak(c: char) {
    c == '\n' || c == '\r' || c == '\U{0B}' || c == '\U{0C}' || '\U{1C}' <= c <= '\U{1E}'
    || c == '\U{85}' || c == '\U{2028}' || c == '\U{2029}'
  }

  /** The characters `str.split` and `str.strip` take for blanks. */
  predicate IsBlank(c: char) {
    IsBreak(c) || c == '\t' || c == ' ' || c == '\U{1F}' || c == '\U{A0}' || c == '\U{1680}'
    || '\U{2000}' <= c <= '\U{200A}' || c == '\U{202F}' || c == '\U{205F}' || c == '\U{3000}'
  }

  function LStrip(s: string): (r: string)
    ensures |r| <= |s| && (r == "" || !IsBlank(r[0]))
  {
    if s != "" && IsBlank(s[0]) then LStrip(s[1..]) else s
  }

  function RStrip(s: string): (r: string)
    ensures |r| <= |s|
  {
    if s != "" && IsBlank(s[|s| - 1]) then RStrip(s[..|s| - 1]) else s
  }

  function Strip(s: string): string { RStrip(LStrip(s)) }

  /** The length of the longest prefix without blanks. */
  function WordEnd(s: string): (n: nat)
    ensures n <= |s| && (s != "" && !IsBlank(s[0]) ==> n > 0)
  {
    if s == "" || IsBlank(s[0]) then 0 else 1 + WordEnd(s[1..])
  }

  /** `str.split()`. */
  function Split(s: string): seq<string>
    decreases |s|
  {
    var t := LStrip(s);
    if t == "" then [] else [t[..WordEnd(t)]] + Split(t[WordEnd(t)..])
  }

  /** What `str.split(None, 1)` leaves after the first word of a stripped line. */
  function AfterWord(line: string): string { LStrip(line[WordEnd(line)..]) }

  /** The index of the first line break. */
  function LineEnd(s: string): (n: nat)
    ensures n <= |s| && (n < |s| ==> IsBreak(s[n]))
  {
    if s == "" || IsBreak(s[0]) then 0 else 1 + LineEnd(s[1..])
  }

  /** `str.splitlines()`; a carriage return and the newline after it are one break. */
  function SplitLines(s: string): seq<string>
    decreases |s|
  {
    if s == "" then []
    else
      var n := LineEnd(s);
      if n == |s| then [s]
      else
        var next := if s[n] == '\r' && n + 1 < |s| && s[n + 1] == '\n' then n + 2 else n + 1;
        [s[..n]] + SplitLines(s[next..])
  }

  /** The part of a line before its comment. */
  function StripComment(s: string): string {
    if s == "" || s[0] == ';' then "" else [s[0]] + StripComment(s[1..])
  }

  // ---- integers -------------------------------------------------------------------

  function DigitIn(base: nat, c: char): Option<nat> {
    var k: int := c as int;
    var d := if 48 <= k <= 57 then k - 48
             else if 97 <= k <= 102 then k - 87
             else if 65 <= k <= 70 then k - 55
             else 16;
    if d < base then Some(d) else None
  }

  /** One more digit. */
  function Then(v: nat, base: nat, d: nat): nat { v * base + d }

  /** Digits of a base, single underscores allowed between them. */
  function Magnitude(base: nat, s: string): Option<nat>
    decreases |s|
  {
    if s == "" then None
    else
      match DigitIn(base, s[|s| - 1])
      case None => None
      case Some(d) =>
        var front := s[..|s| - 1];
        if front == "" then Some(d)
        else
          var rest := if front[|front| - 1] == '_' then front[..|front| - 1] else front;
          match Magnitude(base, rest)
          case None => None
          case Some(v) => Some(Then(v, base, d))
  }

  /** `int(s, base)`. */
  function PyInt(s: string, base: nat): Option<int> {
    if s != "" && (s[0] == '+' || s[0] == '-') then
      match Magnitude(base, s[1..])
      case None => None
      case Some(v) => Some(if s[0] == '-' then 0 - v as int else v)
    else
      match Magnitude(base, s)
      case None => None
      case Some(v) => Some(v)
  }

  /** `_parse_int_tok`: a malformed digit after a base prefix raises instead of returning. */
  datatype IntTok = NotInt | Raises | IsInt(v: int)

  function Scaled(sign: int, v: Option<int>, otherwise: IntTok): IntTok {
    match v
    case None => otherwise
    case Some(n) => IsInt(sign * n)
  }

  function ParseInt(tok: string): IntTok {
    var sign := if tok != "" && tok[0] == '-' then -1 else 1;
    var t := if tok != "" && (tok[0] == '-' || tok[0] == '+') then tok[1..] else tok;
    if tok == "" then NotInt
    else if |t| >= 2 && t[0] == '0' && (t[1] == 'o' || t[1] == 'O') then Scaled(sign, PyInt(t[2..], 8), Raises)
    else if |t| >= 2 && t[0] == '0' && (t[1] == 'x' || t[1] == 'X') then Scaled(sign, PyInt(t[2..], 16), Raises)
    else if |t| >= 2 && t[0] == '0' && (t[1] == 'b' || t[1] == 'B') then Scaled(sign, PyInt(t[2..], 2), Raises)
    else Scaled(sign, PyInt(t, 10), NotInt)
  }

  // ---- render ---------------------------------------------------------------------

  function OctDigit(d: int): char
    requires 0 <= d < 8
  {
    Digit(d)
  }

  /** `_oct_word`: the low twelve bits as four octal digits. */
  function OctWord(w: int): string {
    var x := w % 4096;
    "0o" + [OctDigit(x / 512), OctDigit(x / 64 % 8), OctDigit(x / 8 % 8), OctDigit(x % 8)]
  }

  function EscapeChar(c: char): string {
    if c == '\\' then "\\\\"
    else if c == '"' then "\\\""
    else if c == '\n' then "\\n"
    else if c == '\t' then "\\t"
    else [c]
  }

  function Escape(s: string): string {
    if s == "" then "" else EscapeChar(s[0]) + Escape(s[1..])
  }

  function Quote(s: string): string { "\"" + Escape(s) + "\"" }

  function LinkageText(l: Linkage): string {
    match l
    case Local => "local"
    case Global => "global"
    case Extern => "extern"
    case Weak => "weak"
  }

  function RelocText(k: RelocKind): string {
    match k
    case Imm12 => "imm12"
    case LiImm12 => "li-imm12"
    case JmpTarget12 => "jmp-target12"
    case CallTarget12 => "call-target12"
    case Imm6Pc => "imm6-pc"
  }

  function BranchText(b: BranchKind): string {
    match b
    case BT => "bt"
    case BF => "bf"
  }

  function RenderAddend(n: int): string {
    if n == 0 then "" else if n > 0 then " +" + IntText(n) else " " + IntText(n)
  }

  function RenderRecord(r: Record): string {
    match r
    case RecWord(w) => "word " + OctWord(w)
    case RecZero(n) => "zero " + IntText(n)
    case RecSym(name, linkage, offset) =>
      "sym " + name + " " + LinkageText(linkage) + (if offset.Some? then " " + IntText(offset.value) else "")
    case RecLoc(path, lineno) => "loc " + Quote(path) + " " + IntText(lineno)
    case RecReloc(kind, symbol, addend) => "reloc " + RelocText(kind) + " " + symbol + RenderAddend(addend)
    case RecBrel(branch, symbol, addend) => "brel " + BranchText(branch) + " " + symbol + RenderAddend(addend)
  }

  function RecordLines(rs: seq<Record>): seq<string> {
    if rs == [] then [] else ["  " + RenderRecord(rs[0])] + RecordLines(rs[1..])
  }

  function SectionLines(s: Section): seq<string> {
    ["section " + s.name] + RecordLines(s.records) + ["endsec"]
  }

  function AllSectionLines(ss: seq<Section>): seq<string> {
    if ss == [] then [] else SectionLines(ss[0]) + AllSectionLines(ss[1..])
  }

  function SourceLines(paths: seq<string>): seq<string> {
    if paths == [] then [] else ["source " + Quote(paths[0])] + SourceLines(paths[1..])
  }

  function RenderLines(o: ObjectFile): seq<string> {
    ["rrisc-obj " + IntText(o.version)] + SourceLines(o.sources) + AllSectionLines(o.sections)
  }

  /** Lines, each ended by a newline. */
  function Join(lines: seq<string>): string {
    if lines == [] then "" else lines[0] + "\n" + Join(lines[1..])
  }

  /** `render_object`. */
  function Render(o: ObjectFile): string { Join(RenderLines(o)) }

  // ---- parse ----------------------------------------------------------------------

  datatype Why =
    | EmptyFile
    | BadHeader
    | MalformedVersion
    | UnsupportedVersion(version: int)
    | SourceInSection
    | ExpectedPath
    | NestedSection(since: nat)
    | EndWithoutSection
    | OutsideSection(word: string)
    | Unterminated
    | OneValueExpected(keyword: string)
    | MalformedInt(tok: string)
    | NegativeZeroCount
    | SymShape
    | LocShape
    | RelocShape
    | BrelShape
    | UnknownLinkage(tok: string)
    | UnknownReloc(tok: string)
    | UnknownBranch(tok: string)
    | TrailingTokens
    | UnknownRecord(keyword: string)
    | ValueErrorRaised                       // escapes `_parse_int_tok`

  datatype ParseError = ParseError(path: string, line: nat, why: Why)

  /** The loop of `_parse_quoted` from an index on. */
  function Unquote(s: string, i: nat, acc: string): Option<(string, string)>
    requires i <= |s|
    decreases |s| - i
  {
    if i == |s| then None
    else if s[i] == '"' then Some((acc, s[i + 1..]))
    else if s[i] == '\\' && i + 1 < |s| then
      Unquote(s, i + 2, acc + [if s[i + 1] == 'n' then '\n' else if s[i + 1] == 't' then '\t' else s[i + 1]])
    else Unquote(s, i + 1, acc + [s[i]])
  }

  /** `_parse_quoted`: the quoted text at the start, and what follows it. */
  function Quoted(s: string): Option<(string, string)> {
    var t := Strip(s);
    if t == "" || t[0] != '"' then None else Unquote(t, 1, "")
  }

  method ParseQuoted(s: string) returns (r: Option<(string, string)>)
    ensures r == Quoted(s)
  {
    var t := Strip(s);
    if t == "" || t[0] != '"' { return None; }
    var i: nat := 1;
    var acc := "";
    while i < |t|
      invariant i <= |t| && Unquote(t, i, acc) == Unquote(t, 1, "")
    {
      var c := t[i];
      if c == '"' { return Some((acc, t[i + 1..])); }
      if c == '\\' && i + 1 < |t| {
        var n := t[i + 1];
        acc := acc + [if n == 'n' then '\n' else if n == 't' then '\t' else n];
        i := i + 2;
      } else {
        acc := acc + [c];
        i := i + 1;
      }
    }
    return None;
  }

  function ParseLinkage(t: string): Option<Linkage> {
    if t == "local" then Some(Local)
    else if t == "global" then Some(Global)
    else if t == "extern" then Some(Extern)
    else if t == "weak" then Some(Weak)
    else None
  }

  function ParseReloc(t: string): Option<RelocKind> {
    if t == "imm12" then Some(Imm12)
    else if t == "li-imm12" then Some(LiImm12)
    else if t == "jmp-target12" then Some(JmpTarget12)
    else if t == "call-target12" then Some(CallTarget12)
    else if t == "imm6-pc" then Some(Imm6Pc)
    else None
  }

  function ParseBranch(t: string): Option<BranchKind> {
    if t == "bt" then Some(BT) else if t == "bf" then Some(BF) else None
  }

  function ParseAddend(toks: seq<string>): Result<int, Why> {
    if toks == [] then Ok(0)
    else if |toks| > 1 then Err(TrailingTokens)
    else
      match ParseInt(if toks[0] != "" && toks[0][0] == '+' then toks[0][1..] else toks[0])
      case NotInt => Err(MalformedInt(toks[0]))
      case Raises => Err(ValueErrorRaised)
      case IsInt(v) => Ok(v)
  }

  function ParseWord(toks: seq<string>): Result<Record, Why> {
    if |toks| != 1 then Err(OneValueExpected("word"))
    else
      match ParseInt(toks[0])
      case NotInt => Err(MalformedInt(toks[0]))
      case Raises => Err(ValueErrorRaised)
      case IsInt(v) => Ok(RecWord(v % 4096))
  }

  function ParseZero(toks: seq<string>): Result<Record, Why> {
    if |toks| != 1 then Err(OneValueExpected("zero"))
    else
      match ParseInt(toks[0])
      case NotInt => Err(NegativeZeroCount)
      case Raises => Err(ValueErrorRaised)
      case IsInt(v) => if v < 0 then Err(NegativeZeroCount) else Ok(RecZero(v))
  }

  function ParseSym(toks: seq<string>): Result<Record, Why> {
    if |toks| != 2 && |toks| != 3 then Err(SymShape)
    else
      match ParseLinkage(toks[1])
      case None => Err(UnknownLinkage(toks[1]))
      case Some(l) =>
        if |toks| == 2 then Ok(RecSym(toks[0], l, None))
        else
          match ParseInt(toks[2])
          case NotInt => Err(MalformedInt(toks[2]))
          case Raises => Err(ValueErrorRaised)
          case IsInt(v) => Ok(RecSym(toks[0], l, Some(v)))
  }

  function ParseLoc(tail: string): Result<Record, Why> {
    match Quoted(tail)
    case None => Err(LocShape)
    case Some(q) =>
      var toks := Split(q.1);
      if |toks| != 1 then Err(LocShape)
      else
        match ParseInt(toks[0])
        case NotInt => Err(MalformedInt(toks[0]))
        case Raises => Err(ValueErrorRaised)
        case IsInt(v) => Ok(RecLoc(q.0, v))
  }

  function ParseRelocRecord(toks: seq<string>): Result<Record, Why> {
    if |toks| < 2 then Err(RelocShape)
    else
      match ParseReloc(toks[0])
      case None => Err(UnknownReloc(toks[0]))
      case Some(k) =>
        match ParseAddend(toks[2..])
        case Err(e) => Err(e)
        case Ok(a) => Ok(RecReloc(k, toks[1], a))
  }

  function ParseBrelRecord(toks: seq<string>): Result<Record, Why> {
    if |toks| < 2 then Err(BrelShape)
    else
      match ParseBranch(toks[0])
      case None => Err(UnknownBranch(toks[0]))
      case Some(k) =>
        match ParseAddend(toks[2..])
        case Err(e) => Err(e)
        case Ok(a) => Ok(RecBrel(k, toks[1], a))
  }

  /** The cases of `_parse_record` on the keyword. */
  function ParseTail(kw: string, tail: string): Result<Record, Why> {
    if kw == "word" then ParseWord(Split(tail))
    else if kw == "zero" then ParseZero(Split(tail))
    else if kw == "sym" then ParseSym(Split(tail))
    else if kw == "loc" then ParseLoc(tail)
    else if kw == "reloc" then ParseRelocRecord(Split(tail))
    else if kw == "brel" then ParseBrelRecord(Split(tail))
    else Err(UnknownRecord(kw))
  }

  /** `_parse_record` on a stripped line that is not empty. */
  function ParseRecord(line: string): Result<Record, Why> {
    ParseTail(line[..WordEnd(line)], line[WordEnd(line)..])
  }

  /** A section that is open, with the line it was opened on. */
  datatype Open = Open(line: nat, name: string, records: seq<Record>)

  /** The state of the parsing loop; `sources` is kept newest first. */
  datatype Progress = Progress(sources: seq<string>, sections: seq<Section>, current: Option<Open>)

  /** One turn of the parsing loop. */
  function Turn(st: Progress, ln: nat, raw: string): Result<Progress, Why> {
    var line := Strip(StripComment(raw));
    var kw := line[..WordEnd(line)];
    if line == "" then Ok(st)
    else if kw == "source" then
      if st.current.Some? then Err(SourceInSection)
      else
        match Quoted(line[6..])
        case None => Err(ExpectedPath)
        case Some(q) => if Strip(q.1) != "" then Err(ExpectedPath) else Ok(st.(sources := [q.0] + st.sources))
    else if kw == "section" then
      if st.current.Some? then Err(NestedSection(st.current.value.line))
      else Ok(st.(current := Some(Open(ln, AfterWord(line), []))))
    else if line == "endsec" then
      match st.current
      case None => Err(EndWithoutSection)
      case Some(open) => Ok(st.(sections := st.sections + [Section(open.name, open.records)], current := None))
    else
      match st.current
      case None => Err(OutsideSection(kw))
      case Some(open) =>
        match ParseRecord(line)
        case Err(e) => Err(e)
        case Ok(r) => Ok(st.(current := Some(open.(records := open.records + [r]))))
  }

  datatype Line = Line(no: nat, raw: string)

  /** The numbered lines that are not blank once the comment is gone. */
  function Kept(lines: seq<string>, no: nat): seq<Line> {
    if lines == [] then []
    else (if Strip(StripComment(lines[0])) != "" then [Line(no, lines[0])] else []) + Kept(lines[1..], no + 1)
  }

  function Turns(path: string, lines: seq<Line>, st: Progress): Result<Progress, ParseError> {
    if lines == [] then Ok(st)
    else
      match Turn(st, lines[0].no, lines[0].raw)
      case Err(e) => Err(ParseError(path, lines[0].no, e))
      case Ok(st') => Turns(path, lines[1..], st')
  }

  /** The checks on the header line. */
  function Header(raw: string): Result<int, Why> {
    var words := Split(StripComment(raw));
    if |words| != 2 || words[0] != "rrisc-obj" then Err(BadHeader)
    else
      match PyInt(words[1], 10)
      case None => Err(MalformedVersion)
      case Some(v) => if v != 1 then Err(UnsupportedVersion(v)) else Ok(v)
  }

  /** The end of `parse_object`: sources come back in order, sections reversed. */
  function Finished(path: string, version: int, st: Progress): Result<ObjectFile, ParseError> {
    match st.current
    case Some(open) => Err(ParseError(path, open.line, Unterminated))
    case None => Ok(ObjectFile(version, Reverse(st.sources), Reverse(st.sections)))
  }

  /** The parse of the lines that are not blank. */
  function ParseKept(path: string, rest: seq<Line>): Result<ObjectFile, ParseError> {
    if rest == [] then Err(ParseError(path, 1, EmptyFile))
    else
      match Header(rest[0].raw)
      case Err(e) => Err(ParseError(path, rest[0].no, e))
      case Ok(version) =>
        match Turns(path, rest[1..], Progress([], [], None))
        case Err(e) => Err(e)
        case Ok(st) => Finished(path, version, st)
  }

  /** What `parse_object` computes. */
  function Parse(path: string, body: string): Result<ObjectFile, ParseError> {
    ParseKept(path, Kept(SplitLines(body), 1))
  }

  lemma KeptStep(lines: seq<string>, i: nat)
    requires i < |lines|
    ensures Kept(lines[i..], i + 1)
         == (if Strip(StripComment(lines[i])) != "" then [Line(i + 1, lines[i])] else []) + Kept(lines[i + 1..], i + 2)
  {
    hide Strip, StripComment;
    assert lines[i..][1..] == lines[i + 1..];
  }

  lemma TurnsStep(path: string, lines: seq<Line>, i: nat, st: Progress)
    requires i < |lines|
    ensures var t := Turn(st, lines[i].no, lines[i].raw);
            Turns(path, lines[i..], st)
            == if t.Err? then Err(ParseError(path, lines[i].no, t.error)) else Turns(path, lines[i + 1..], t.value)
  {
    hide Turn;
    assert lines[i..][1..] == lines[i + 1..];
  }

  /** The lines that are not blank, with their numbers. */
  method KeepLines(lines: seq<string>) returns (rest: seq<Line>)
    ensures rest == Kept(lines, 1)
  {
    hide Kept, StripComment, Strip;
    rest := [];
    assert lines[0..] == lines;
    for i := 0 to |lines|
      invariant Kept(lines, 1) == rest + Kept(lines[i..], i + 1)
    {
      KeptStep(lines, i);
      if Strip(StripComment(lines[i])) != "" { rest := rest + [Line(i + 1, lines[i])]; }
    }
    NothingKept(|lines| + 1);
    assert lines[|lines|..] == [];
  }

  lemma NothingKept(no: nat)
    ensures Kept([], no) == []
  {
  }

  /** `parse_object`, with its loop over the lines. */
  method ParseObject(path: string, body: string) returns (r: Result<ObjectFile, ParseError>)
    ensures r == Parse(path, body)
  {
    hide Kept, Turns, Turn, SplitLines, StripComment, Strip, Header, Finished;
    var rest := KeepLines(SplitLines(body));
    if rest == [] { return Err(ParseError(path, 1, EmptyFile)); }
    var header := Header(rest[0].raw);
    if header.Err? { return Err(ParseError(path, rest[0].no, header.error)); }
    var st := Progress([], [], None);
    for i := 1 to |rest|
      invariant Turns(path, rest[1..], Progress([], [], None)) == Turns(path, rest[i..], st)
    {
      TurnsStep(path, rest, i, st);
      var next := Turn(st, rest[i].no, rest[i].raw);
      if next.Err? { return Err(ParseError(path, rest[i].no, next.error)); }
      st := next.value;
    }
    NoTurns(path, st);
    assert rest[|rest|..] == [];
    return Finished(path, header.value, st);
  }

  lemma NoTurns(path: string, st: Progress)
    ensures Turns(path, [], st) == Ok(st)
  {
  }
}
