/**
  The grammar of requests and responses (sections 3.1 and 3.2 of RFC 7230), as lenient as the parser is,
  and the proof that the parser accepts exactly the messages of this grammar and delivers their fields.
 */
module MessageGrammar {
  import opened ByteTypes
  import opened HttpParser
  import opened Wrappers

  // ---------------------------------------------------------------- character classes

  const SYMBOLS: string := "!#$%&'*+-.^_`|~"
  const DIGITS: string := "0123456789"
  const VERSION: string := "HTTP/1."

  predicate Within(b: Byte, least: char, most: char) { least as int <= b <= most as int }

  ghost predicate OneOf(b: Byte, text: string) { exists k :: 0 <= k < |text| && text[k] as int == b }

  /** A byte of a token (section 3.2.6). */
  ghost predicate TokenByte(b: Byte) {
    Within(b, '0', '9') || Within(b, 'A', 'Z') || Within(b, 'a', 'z') || OneOf(b, SYMBOLS)
  }

  /** Anything but the controls, the space and the delete character. */
  predicate VisibleByte(b: Byte) { Within(b, '!', '~') || 128 <= b <= 255 }

  predicate SpaceByte(b: Byte) { b == ' ' as int }

  predicate BlankByte(b: Byte) { b == ' ' as int || b == '\t' as int }

  predicate TextByte(b: Byte) { VisibleByte(b) || BlankByte(b) }

  lemma SymbolsAre()
    ensures SYMBOLS == ['!', '#', '$', '%', '&', '\'', '*', '+', '-', '.', '^', '_', '`', '|', '~']
  {
  }

  lemma SymbolIsToken(b: Byte)
    ensures OneOf(b, SYMBOLS) ==> TokenChar(b)
  {
  }

  lemma TokenIsSymbol(b: Byte)
    requires TokenChar(b) && !Within(b, '0', '9') && !Within(b, 'A', 'Z') && !Within(b, 'a', 'z')
    ensures OneOf(b, SYMBOLS)
  {
    SymbolsAre();
    var k := if b == '!' as int then 0 else if b <= '\'' as int then b - 34 else if b <= '+' as int then b - 36
      else if b <= '.' as int then b - 37 else if b <= '`' as int then b - 84 else if b == '|' as int then 13 else 14;
    assert SYMBOLS[k] as int == b;
  }

  /** Every byte: the parser's tables are these classes. */
  lemma TablesAre(b: Byte)
    ensures In(Token, b) <==> TokenByte(b)
    ensures In(PathByte, b) <==> VisibleByte(b)
    ensures In(LineByte, b) <==> TextByte(b)
    ensures In(Space, b) <==> SpaceByte(b)
    ensures In(Blank, b) <==> BlankByte(b)
  {
    SymbolIsToken(b);
    if In(Token, b) && !Within(b, '0', '9') && !Within(b, 'A', 'Z') && !Within(b, 'a', 'z') { TokenIsSymbol(b); }
  }

  ghost predicate TokenBytes(s: seq<Byte>) { forall i :: 0 <= i < |s| ==> TokenByte(s[i]) }
  predicate VisibleBytes(s: seq<Byte>) { forall i :: 0 <= i < |s| ==> VisibleByte(s[i]) }
  predicate TextBytes(s: seq<Byte>) { forall i :: 0 <= i < |s| ==> TextByte(s[i]) }
  predicate Spaces(s: seq<Byte>) { forall i :: 0 <= i < |s| ==> SpaceByte(s[i]) }
  predicate Blanks(s: seq<Byte>) { forall i :: 0 <= i < |s| ==> BlankByte(s[i]) }

  lemma ClassesAre(s: seq<Byte>)
    ensures AllIn(Token, s) <==> TokenBytes(s)
    ensures AllIn(PathByte, s) <==> VisibleBytes(s)
    ensures AllIn(LineByte, s) <==> TextBytes(s)
    ensures AllIn(Space, s) <==> Spaces(s)
    ensures AllIn(Blank, s) <==> Blanks(s)
  {
    forall b: Byte
      ensures In(Token, b) <==> TokenByte(b)
      ensures In(PathByte, b) <==> VisibleByte(b)
      ensures In(LineByte, b) <==> TextByte(b)
      ensures In(Space, b) <==> SpaceByte(b)
      ensures In(Blank, b) <==> BlankByte(b)
    {
      TablesAre(b);
    }
  }

  // ---------------------------------------------------------------- lines

  datatype LineEnd = Lf | CrLf

  function EndBytes(e: LineEnd): seq<Byte> { if e.Lf? then ['\n' as int] else ['\r' as int, '\n' as int] }

  /** A header, with the blanks around its value; a folded line begins with a blank and has no name. */
  datatype FieldLine =
    | Named(name: seq<Byte>, before: seq<Byte>, value: seq<Byte>, after: seq<Byte>, end: LineEnd)
    | Folded(value: seq<Byte>, after: seq<Byte>, end: LineEnd)

  predicate EndsVisibly(s: seq<Byte>) { s != [] ==> !BlankByte(s[|s| - 1]) }

  predicate StartsVisibly(s: seq<Byte>) { s != [] ==> !BlankByte(s[0]) }

  predicate StartsBlank(s: seq<Byte>) { s != [] && BlankByte(s[0]) }

  ghost predicate ValidLine(l: FieldLine) {
    && TextBytes(l.value) && EndsVisibly(l.value) && Blanks(l.after)
    && (l.Named? ==> l.name != [] && TokenBytes(l.name) && Blanks(l.before) && StartsVisibly(l.value) && (l.value == [] ==> l.after == []))
    && (l.Folded? ==> StartsBlank(l.value + l.after))
  }

  function ValueBytes(l: FieldLine): seq<Byte> { l.value + l.after }

  function LineBytes(l: FieldLine): seq<Byte> {
    if l.Named? then l.name + ([':' as int] + (l.before + (ValueBytes(l) + EndBytes(l.end)))) else ValueBytes(l) + EndBytes(l.end)
  }

  function HeaderOf(l: FieldLine): Header { Header(if l.Named? then l.name else [], l.value) }

  lemma EndAt(s: seq<Byte>, i: nat, e: LineEnd)
    requires At(s, i, EndBytes(e))
    ensures IsEol(s[i]) && !TextByte(s[i]) && Eol(s, i) == Ok((), i + |EndBytes(e)|)
  {
    AtIndex(s, i, EndBytes(e), 0);
    if e.CrLf? { AtIndex(s, i, EndBytes(e), 1); }
  }

  lemma LineAt(s: seq<Byte>, i: nat, v: seq<Byte>, e: LineEnd)
    requires At(s, i, v + EndBytes(e)) && TextBytes(v)
    ensures Line(s, i) == Ok(v, i + |v + EndBytes(e)|)
  {
    AtConcat(s, i, v, EndBytes(e));
    EndAt(s, i + |v|, e);
    ClassesAre(v);
    TablesAre(s[i + |v|]);
    SkipPiece(LineByte, s, i, v);
    AtBytes(s, i, v);
  }

  lemma OverAt(c: Class, s: seq<Byte>, i: nat, gap: seq<Byte>)
    requires At(s, i + 1, gap) && AllIn(c, gap) && i + 1 + |gap| < |s| && !In(c, s[i + 1 + |gap|])
    ensures Over(c, s, i) == Ok((), i + 1 + |gap|)
  {
    SkipPiece(c, s, i + 1, gap);
  }

  lemma {:induction false} TrimEndOf(value: seq<Byte>, after: seq<Byte>)
    requires EndsVisibly(value) && Blanks(after)
    ensures TrimEnd(value + after) == value
    decreases |after|
  {
    if after == [] {
      assert value + after == value;
    } else {
      var less := after[..|after| - 1];
      assert (value + after)[..|value + after| - 1] == value + less;
      TrimEndOf(value, less);
    }
  }

  lemma NameAt(s: seq<Byte>, i: nat, first: bool, name: seq<Byte>, colon: nat, before: seq<Byte>, v: nat)
    requires At(s, i, name) && colon == i + |name| && At(s, colon, [':' as int]) && At(s, colon + 1, before) && v == colon + 1 + |before|
    requires name != [] && TokenBytes(name) && Blanks(before) && v < |s| && !BlankByte(s[v])
    ensures !IsEol(s[i]) && Name(s, i, first) == Ok(name, v)
  {
    ClassesAre(name);
    ClassesAre(before);
    AtIndex(s, i, name, 0);
    PrintedWord(Token, s, i, name, COLON);
    OverAt(Blank, s, colon, before);
  }

  lemma ValueStarts(s: seq<Byte>, v: nat, value: seq<Byte>, after: seq<Byte>, e: LineEnd)
    requires At(s, v, value + after + EndBytes(e)) && StartsVisibly(value) && (value == [] ==> after == [])
    ensures v < |s| && !BlankByte(s[v])
  {
    AtConcat(s, v, value + after, EndBytes(e));
    if value == [] { EndAt(s, v, e); } else { AtIndex(s, v, value + after, 0); }
  }

  lemma ValueAt(s: seq<Byte>, i: nat, first: bool, name: seq<Byte>, v: nat, l: FieldLine)
    requires i < |s| && Name(s, i, first) == Ok(name, v) && At(s, v, ValueBytes(l) + EndBytes(l.end))
    requires TextBytes(l.value) && EndsVisibly(l.value) && Blanks(l.after)
    ensures HeaderLine(s, i, first) == Ok(Header(name, l.value), v + |ValueBytes(l) + EndBytes(l.end)|)
  {
    LineAt(s, v, ValueBytes(l), l.end);
    TrimEndOf(l.value, l.after);
  }

  lemma NamedAt(s: seq<Byte>, i: nat, first: bool, l: FieldLine)
    requires l.Named? && ValidLine(l) && At(s, i, LineBytes(l))
    ensures i < |s| && !IsEol(s[i]) && HeaderLine(s, i, first) == Ok(HeaderOf(l), i + |LineBytes(l)|)
  {
    var colon := i + |l.name|;
    var v := colon + 1 + |l.before|;
    var rest := ValueBytes(l) + EndBytes(l.end);
    AtConcat(s, i, l.name, [':' as int] + (l.before + rest));
    AtConcat(s, colon, [':' as int], l.before + rest);
    AtConcat(s, colon + 1, l.before, rest);
    ValueStarts(s, v, l.value, l.after, l.end);
    NameAt(s, i, first, l.name, colon, l.before, v);
    ValueAt(s, i, first, l.name, v, l);
  }

  lemma FoldedAt(s: seq<Byte>, i: nat, l: FieldLine)
    requires l.Folded? && ValidLine(l) && At(s, i, LineBytes(l))
    ensures i < |s| && !IsEol(s[i]) && HeaderLine(s, i, false) == Ok(HeaderOf(l), i + |LineBytes(l)|)
  {
    AtConcat(s, i, ValueBytes(l), EndBytes(l.end));
    AtIndex(s, i, ValueBytes(l), 0);
    ValueAt(s, i, false, [], i, l);
  }

  // ---------------------------------------------------------------- headers

  /** The first line cannot be folded. */
  ghost predicate ValidLines(ls: seq<FieldLine>, first: bool) {
    (forall i :: 0 <= i < |ls| ==> ValidLine(ls[i])) && (first && ls != [] ==> ls[0].Named?)
  }

  function HeadersBytes(ls: seq<FieldLine>, last: LineEnd): seq<Byte> {
    if ls == [] then EndBytes(last) else LineBytes(ls[0]) + HeadersBytes(ls[1..], last)
  }

  function HeadersOf(ls: seq<FieldLine>): seq<Header> {
    if ls == [] then [] else [HeaderOf(ls[0])] + HeadersOf(ls[1..])
  }

  lemma HeaderLineAt(s: seq<Byte>, i: nat, first: bool, l: FieldLine)
    requires ValidLine(l) && (first ==> l.Named?) && At(s, i, LineBytes(l))
    ensures i < |s| && !IsEol(s[i]) && HeaderLine(s, i, first) == Ok(HeaderOf(l), i + |LineBytes(l)|)
  {
    if l.Named? { NamedAt(s, i, first, l); } else { FoldedAt(s, i, l); }
  }

  lemma HeadersStep(s: seq<Byte>, i: nat, first: bool, l: FieldLine, next: nat, rest: Parsed<seq<Header>>)
    requires ValidLine(l) && (first ==> l.Named?) && At(s, i, LineBytes(l)) && next == i + |LineBytes(l)|
    requires rest == Headers(s, next, false)
    ensures Headers(s, i, first) == Cons(HeaderOf(l), rest)
  {
    HeaderLineAt(s, i, first, l);
    HeadersCons(s, i, first, HeaderOf(l), next, rest);
  }

  lemma SplitLine(s: seq<Byte>, i: nat, ls: seq<FieldLine>, last: LineEnd, next: nat)
    requires ls != [] && At(s, i, HeadersBytes(ls, last)) && next == i + |LineBytes(ls[0])|
    ensures At(s, i, LineBytes(ls[0])) && At(s, next, HeadersBytes(ls[1..], last))
    ensures i + |HeadersBytes(ls, last)| == next + |HeadersBytes(ls[1..], last)|
  {
    AtConcat(s, i, LineBytes(ls[0]), HeadersBytes(ls[1..], last));
  }

  /** Headers of the grammar are parsed to their names and values. */
  lemma {:induction false} HeadersAt(s: seq<Byte>, i: nat, first: bool, ls: seq<FieldLine>, last: LineEnd) returns (r: Parsed<seq<Header>>)
    requires ValidLines(ls, first) && At(s, i, HeadersBytes(ls, last))
    ensures r == Headers(s, i, first) && r == Ok(HeadersOf(ls), i + |HeadersBytes(ls, last)|)
    decreases |ls|
  {
    if ls == [] {
      EndAt(s, i, last);
      r := Headers(s, i, first);
    } else {
      var next := i + |LineBytes(ls[0])|;
      SplitLine(s, i, ls, last, next);
      var rest := HeadersAt(s, next, false, ls[1..], last);
      HeadersStep(s, i, first, ls[0], next, rest);
      r := Cons(HeaderOf(ls[0]), rest);
    }
  }

  // ---------------------------------------------------------------- requests

  /** A request, perhaps after an empty line; the spaces between its fields are any number but none. */
  datatype RequestText = RequestText(lead: Option<LineEnd>, verb: seq<Byte>, gap: seq<Byte>, path: seq<Byte>, gap': seq<Byte>,
                                     minor: nat, end: LineEnd, lines: seq<FieldLine>, last: LineEnd)

  ghost predicate ValidField(s: seq<Byte>, gap: seq<Byte>) { s != [] && gap != [] && Spaces(gap) }

  ghost predicate ValidTarget(t: RequestText) {
    ValidField(t.verb, t.gap) && TokenBytes(t.verb) && ValidField(t.path, t.gap') && VisibleBytes(t.path)
  }

  ghost predicate ValidRequest(t: RequestText) { ValidTarget(t) && t.minor < 10 && ValidLines(t.lines, true) }

  function LeadBytes(lead: Option<LineEnd>): seq<Byte> { if lead.Some? then EndBytes(lead.value) else [] }

  function TextOf(text: string): (r: seq<Byte>)
    requires forall i :: 0 <= i < |text| ==> text[i] < 128 as char
    ensures |r| == |text| && forall i :: 0 <= i < |r| ==> r[i] == text[i] as int
  {
    seq(|text|, i requires 0 <= i < |text| => text[i] as int)
  }

  function DigitByte(n: nat): Byte
    requires n < 10
  {
    DIGITS[n] as int
  }

  lemma DigitIs(n: nat)
    requires n < 10
    ensures DigitByte(n) == '0' as int + n
  {
  }

  function VersionBytes(minor: nat): seq<Byte>
    requires minor < 10
  {
    TextOf(VERSION) + [DigitByte(minor)]
  }

  function VersionEnd(minor: nat, e: LineEnd): seq<Byte>
    requires minor < 10
  {
    VersionBytes(minor) + EndBytes(e)
  }

  function TargetBytes(t: RequestText): seq<Byte> { t.verb + (t.gap + (t.path + t.gap')) }

  function FirstLine(t: RequestText): seq<Byte>
    requires t.minor < 10
  {
    TargetBytes(t) + VersionEnd(t.minor, t.end)
  }

  function RequestBytes(t: RequestText): seq<Byte>
    requires t.minor < 10
  {
    LeadBytes(t.lead) + (FirstLine(t) + HeadersBytes(t.lines, t.last))
  }

  function RequestOf(t: RequestText): Request { Request(t.verb, t.path, 1, t.minor, HeadersOf(t.lines)) }

  lemma GapAt(s: seq<Byte>, i: nat, gap: seq<Byte>, k: nat)
    requires At(s, i, gap) && Spaces(gap) && gap != [] && k == i + |gap| && k < |s| && !SpaceByte(s[k])
    ensures s[i] == SP && Over(Space, s, i) == Ok((), k)
  {
    AtIndex(s, i, gap, 0);
    assert [SP] + gap[1..] == gap;
    AtConcat(s, i, [SP], gap[1..]);
    ClassesAre(gap);
    OverAt(Space, s, i, gap[1..]);
  }

  lemma FieldAt(c: Class, s: seq<Byte>, i: nat, w: seq<Byte>, j: nat, gap: seq<Byte>, k: nat)
    requires At(s, i, w) && AllIn(c, w) && !In(c, SP) && j == i + |w|
    requires At(s, j, gap) && Spaces(gap) && gap != [] && k == j + |gap| && k < |s| && !SpaceByte(s[k])
    ensures Field(c, s, i) == Ok(w, k)
  {
    GapAt(s, j, gap, k);
    PrintedWord(c, s, i, w, SP);
  }

  lemma VersionAt(s: seq<Byte>, i: nat, minor: nat)
    requires minor < 10 && At(s, i, VersionBytes(minor)) && i + 8 < |s|
    ensures !SpaceByte(s[i]) && Version(s, i) == Ok(minor, i + 8)
  {
    AtConcat(s, i, TextOf(VERSION), [DigitByte(minor)]);
    AtIndex(s, i + 7, [DigitByte(minor)], 0);
    DigitIs(minor);
    assert TextOf(VERSION) == HTTP_1_DOT;
    AtBytes(s, i, HTTP_1_DOT);
    AtIndex(s, i, HTTP_1_DOT, 0);
  }

  lemma VersionEndAt(s: seq<Byte>, i: nat, minor: nat, e: LineEnd)
    requires minor < 10 && At(s, i, VersionEnd(minor, e))
    ensures i < |s| && !SpaceByte(s[i]) && VersionLine(s, i) == Ok(minor, i + |VersionEnd(minor, e)|)
  {
    AtConcat(s, i, VersionBytes(minor), EndBytes(e));
    EndAt(s, i + 8, e);
    VersionAt(s, i, minor);
  }

  lemma TargetFields(s: seq<Byte>, i: nat, t: RequestText, j: nat, k: nat, l: nat, end: nat)
    requires At(s, i, t.verb) && j == i + |t.verb| && At(s, j, t.gap) && k == j + |t.gap|
    requires At(s, k, t.path) && l == k + |t.path| && At(s, l, t.gap') && end == l + |t.gap'|
    requires ValidTarget(t) && end < |s| && !SpaceByte(s[end])
    ensures !IsEol(s[i]) && Field(Token, s, i) == Ok(t.verb, k) && Field(PathByte, s, k) == Ok(t.path, end)
  {
    ClassesAre(t.verb);
    ClassesAre(t.path);
    AtIndex(s, i, t.verb, 0);
    AtIndex(s, k, t.path, 0);
    FieldAt(Token, s, i, t.verb, j, t.gap, k);
    FieldAt(PathByte, s, k, t.path, l, t.gap', end);
  }

  lemma TargetAt(s: seq<Byte>, i: nat, t: RequestText)
    requires ValidTarget(t) && At(s, i, TargetBytes(t)) && i + |TargetBytes(t)| < |s| && !SpaceByte(s[i + |TargetBytes(t)|])
    ensures !IsEol(s[i]) && ParseTarget(s, i) == Ok(Target(t.verb, t.path), i + |TargetBytes(t)|)
  {
    var j := i + |t.verb|;
    var k := j + |t.gap|;
    var l := k + |t.path|;
    AtConcat(s, i, t.verb, t.gap + (t.path + t.gap'));
    AtConcat(s, j, t.gap, t.path + t.gap');
    AtConcat(s, k, t.path, t.gap');
    TargetFields(s, i, t, j, k, l, l + |t.gap'|);
  }

  lemma FirstLineAt(s: seq<Byte>, i: nat, t: RequestText)
    requires ValidTarget(t) && t.minor < 10 && At(s, i, FirstLine(t))
    ensures i < |s| && !IsEol(s[i]) && RequestLine(s, i) == Ok(Request(t.verb, t.path, 1, t.minor, []), i + |FirstLine(t)|)
  {
    AtConcat(s, i, TargetBytes(t), VersionEnd(t.minor, t.end));
    VersionEndAt(s, i + |TargetBytes(t)|, t.minor, t.end);
    TargetAt(s, i, t);
  }

  lemma LeadAt(s: seq<Byte>, lead: Option<LineEnd>)
    requires At(s, 0, LeadBytes(lead)) && |LeadBytes(lead)| < |s| && !IsEol(s[|LeadBytes(lead)|])
    ensures LeadingLine(s) == Ok((), |LeadBytes(lead)|)
  {
    if lead.Some? { EndAt(s, 0, lead.value); }
  }

  lemma RequestIs(s: seq<Byte>, i: nat, line: Request, j: nat, hs: seq<Header>, next: nat)
    requires LeadingLine(s) == Ok((), i) && RequestLine(s, i) == Ok(line, j) && Headers(s, j, true) == Ok(hs, next)
    ensures ParseRequest(s) == Ok(line.(headers := hs), next)
  {
  }

  lemma SplitThree(s: seq<Byte>, a: seq<Byte>, b: seq<Byte>, c: seq<Byte>, i: nat, j: nat)
    requires At(s, 0, a + (b + c)) && i == |a| && j == i + |b|
    ensures At(s, 0, a) && At(s, i, b) && At(s, j, c) && |a + (b + c)| == j + |c|
  {
    AtConcat(s, 0, a, b + c);
    AtConcat(s, i, b, c);
  }

  lemma JoinThree(s: seq<Byte>, a: seq<Byte>, b: seq<Byte>, c: seq<Byte>, i: nat, j: nat)
    requires At(s, 0, a) && At(s, i, b) && At(s, j, c) && i == |a| && j == i + |b|
    ensures At(s, 0, a + (b + c)) && |a + (b + c)| == j + |c|
  {
    AtJoin(s, i, b, c);
    AtJoin(s, 0, a, b + c);
  }

  lemma SplitRequest(s: seq<Byte>, t: RequestText, i: nat, j: nat)
    requires t.minor < 10 && At(s, 0, RequestBytes(t)) && i == |LeadBytes(t.lead)| && j == i + |FirstLine(t)|
    ensures At(s, 0, LeadBytes(t.lead)) && At(s, i, FirstLine(t)) && At(s, j, HeadersBytes(t.lines, t.last))
    ensures |RequestBytes(t)| == j + |HeadersBytes(t.lines, t.last)|
  {
    SplitThree(s, LeadBytes(t.lead), FirstLine(t), HeadersBytes(t.lines, t.last), i, j);
  }

  lemma RequestLinesAt(s: seq<Byte>, t: RequestText, i: nat, j: nat)
    requires ValidRequest(t) && At(s, 0, RequestBytes(t)) && i == |LeadBytes(t.lead)| && j == i + |FirstLine(t)|
    ensures LeadingLine(s) == Ok((), i) && RequestLine(s, i) == Ok(Request(t.verb, t.path, 1, t.minor, []), j)
    ensures At(s, j, HeadersBytes(t.lines, t.last)) && |RequestBytes(t)| == j + |HeadersBytes(t.lines, t.last)|
  {
    SplitRequest(s, t, i, j);
    FirstLineAt(s, i, t);
    LeadAt(s, t.lead);
  }

  /** A request of the grammar is parsed to its fields, and up to its end, whatever follows. */
  lemma RequestIsParsed(s: seq<Byte>, t: RequestText)
    requires ValidRequest(t) && At(s, 0, RequestBytes(t))
    ensures ParseRequest(s) == Ok(RequestOf(t), |RequestBytes(t)|)
  {
    var i := |LeadBytes(t.lead)|;
    var j := i + |FirstLine(t)|;
    RequestLinesAt(s, t, i, j);
    var hs := HeadersAt(s, j, true, t.lines, t.last);
    RequestIs(s, i, Request(t.verb, t.path, 1, t.minor, []), j, hs.value, hs.next);
  }

  // ---------------------------------------------------------------- responses

  /** A response; spaces stand before its status and before its message, if it has one. */
  datatype ResponseText = ResponseText(minor: nat, gap: seq<Byte>, hundreds: nat, tens: nat, ones: nat,
                                       space: seq<Byte>, message: seq<Byte>, end: LineEnd, lines: seq<FieldLine>, last: LineEnd)

  ghost predicate ValidMessage(space: seq<Byte>, message: seq<Byte>) {
    Spaces(space) && TextBytes(message) && (message != [] ==> !SpaceByte(message[0]) && space != [])
  }

  predicate ValidDigits(t: ResponseText) { t.minor < 10 && t.hundreds < 10 && t.tens < 10 && t.ones < 10 }

  ghost predicate ValidResponse(t: ResponseText) {
    ValidDigits(t) && t.gap != [] && Spaces(t.gap) && ValidMessage(t.space, t.message) && ValidLines(t.lines, true)
  }

  function StatusBytes(t: ResponseText): seq<Byte>
    requires ValidDigits(t)
  {
    [DigitByte(t.hundreds), DigitByte(t.tens), DigitByte(t.ones)]
  }

  function MessageEnd(t: ResponseText): seq<Byte> { t.space + t.message + EndBytes(t.end) }

  function FirstFields(t: ResponseText): seq<Byte>
    requires ValidDigits(t)
  {
    VersionBytes(t.minor) + (t.gap + StatusBytes(t))
  }

  function ResponseBytes(t: ResponseText): seq<Byte>
    requires ValidDigits(t)
  {
    FirstFields(t) + (MessageEnd(t) + HeadersBytes(t.lines, t.last))
  }

  function StatusOf(t: ResponseText): nat { 100 * t.hundreds + 10 * t.tens + t.ones }

  function ResponseOf(t: ResponseText): Response { Response(1, t.minor, StatusOf(t), t.message, HeadersOf(t.lines)) }

  lemma {:induction false} TrimSpacesOf(space: seq<Byte>, message: seq<Byte>)
    requires Spaces(space) && (message != [] ==> !SpaceByte(message[0]))
    ensures TrimSpaces(space + message) == message
    decreases |space|
  {
    if space == [] {
      assert space + message == message;
    } else {
      assert (space + message)[1..] == space[1..] + message;
      TrimSpacesOf(space[1..], message);
    }
  }

  lemma MessageAt(s: seq<Byte>, i: nat, t: ResponseText)
    requires ValidMessage(t.space, t.message) && At(s, i, MessageEnd(t))
    ensures Message(s, i) == Ok(t.message, i + |MessageEnd(t)|)
  {
    LineAt(s, i, t.space + t.message, t.end);
    TrimSpacesOf(t.space, t.message);
  }

  lemma StatusAt(s: seq<Byte>, i: nat, t: ResponseText)
    requires ValidDigits(t) && At(s, i, StatusBytes(t)) && i + 3 < |s|
    ensures !SpaceByte(s[i]) && Status(s, i) == Ok(StatusOf(t), i + 3)
  {
    AtIndex(s, i, StatusBytes(t), 0);
    AtIndex(s, i, StatusBytes(t), 1);
    AtIndex(s, i, StatusBytes(t), 2);
    DigitIs(t.hundreds);
    DigitIs(t.tens);
    DigitIs(t.ones);
  }

  lemma FirstFieldsAt(s: seq<Byte>, t: ResponseText, i: nat)
    requires ValidDigits(t) && t.gap != [] && Spaces(t.gap) && At(s, 0, FirstFields(t)) && i == |FirstFields(t)| && i < |s|
    ensures VersionField(s) == Ok(t.minor, i - 3) && Status(s, i - 3) == Ok(StatusOf(t), i)
  {
    AtConcat(s, 0, VersionBytes(t.minor), t.gap + StatusBytes(t));
    AtConcat(s, 8, t.gap, StatusBytes(t));
    StatusAt(s, i - 3, t);
    GapAt(s, 8, t.gap, i - 3);
    VersionAt(s, 0, t.minor);
  }

  lemma SplitResponse(s: seq<Byte>, t: ResponseText, i: nat, j: nat)
    requires ValidDigits(t) && At(s, 0, ResponseBytes(t)) && i == |FirstFields(t)| && j == i + |MessageEnd(t)|
    ensures At(s, 0, FirstFields(t)) && At(s, i, MessageEnd(t)) && At(s, j, HeadersBytes(t.lines, t.last))
    ensures |ResponseBytes(t)| == j + |HeadersBytes(t.lines, t.last)|
  {
    SplitThree(s, FirstFields(t), MessageEnd(t), HeadersBytes(t.lines, t.last), i, j);
  }

  lemma StatusLineAt(s: seq<Byte>, t: ResponseText, i: nat)
    requires ValidResponse(t) && At(s, 0, FirstFields(t)) && i == |FirstFields(t)| && At(s, i, MessageEnd(t))
    ensures StatusLine(s) == Ok(Response(1, t.minor, StatusOf(t), t.message, []), i + |MessageEnd(t)|)
  {
    FirstFieldsAt(s, t, i);
    MessageAt(s, i, t);
  }

  /** A response of the grammar is parsed to its fields, and up to its end, whatever follows. */
  lemma ResponseIsParsed(s: seq<Byte>, t: ResponseText)
    requires ValidResponse(t) && At(s, 0, ResponseBytes(t))
    ensures ParseResponse(s) == Ok(ResponseOf(t), |ResponseBytes(t)|)
  {
    var i := |FirstFields(t)|;
    var j := i + |MessageEnd(t)|;
    SplitResponse(s, t, i, j);
    StatusLineAt(s, t, i);
    var hs := HeadersAt(s, j, true, t.lines, t.last);
    ResponseParts(s, Response(1, t.minor, StatusOf(t), t.message, []), j, hs);
  }

  // ---------------------------------------------------------------- nothing else is accepted

  lemma AtSlice(s: seq<Byte>, i: nat, j: nat)
    requires i <= j <= |s|
    ensures At(s, i, s[i..j]) && Bytes(s, i, j) == s[i..j]
  {
    BytesIs(s, i, j);
  }

  lemma FindEnd(s: seq<Byte>, i: nat) returns (e: LineEnd)
    requires i <= |s| && Eol(s, i).Ok?
    ensures At(s, i, EndBytes(e)) && Eol(s, i).next == i + |EndBytes(e)|
  {
    e := if s[i] == LF then Lf else CrLf;
  }

  lemma FindRun(c: Class, s: seq<Byte>, i: nat, j: nat) returns (piece: seq<Byte>)
    requires i <= |s| && j == Skip(c, s, i)
    ensures At(s, i, piece) && j == i + |piece| && AllIn(c, piece) && piece == Bytes(s, i, j)
    ensures j < |s| ==> !In(c, s[j])
  {
    SkippedIn(c, s, i);
    AtSlice(s, i, j);
    piece := s[i..j];
  }

  lemma FindText(s: seq<Byte>, i: nat) returns (v: seq<Byte>, e: LineEnd)
    requires i <= |s| && Line(s, i).Ok?
    ensures TextBytes(v) && At(s, i, v + EndBytes(e)) && Line(s, i) == Ok(v, i + |v + EndBytes(e)|)
  {
    var j := Skip(LineByte, s, i);
    v := FindRun(LineByte, s, i, j);
    ClassesAre(v);
    e := FindEnd(s, j);
    AtJoin(s, i, v, EndBytes(e));
  }

  lemma {:induction false} FindTrimmed(v: seq<Byte>) returns (value: seq<Byte>, after: seq<Byte>)
    ensures v == value + after && EndsVisibly(value) && Blanks(after) && TrimEnd(v) == value
  {
    if |v| > 0 && BlankByte(v[|v| - 1]) {
      value, after := FindTrimmed(v[..|v| - 1]);
      after := after + [v[|v| - 1]];
    } else {
      value, after := v, [];
    }
  }

  lemma {:induction false} FindSpaces(v: seq<Byte>) returns (space: seq<Byte>, message: seq<Byte>)
    ensures v == space + message && Spaces(space) && (message != [] ==> !SpaceByte(message[0])) && TrimSpaces(v) == message
  {
    if |v| > 0 && SpaceByte(v[0]) {
      space, message := FindSpaces(v[1..]);
      space := [v[0]] + space;
    } else {
      space, message := [], v;
    }
  }

  lemma FindWord(c: Class, s: seq<Byte>, i: nat, stop: Byte) returns (w: seq<Byte>)
    requires i <= |s| && Word(c, s, i, stop).Ok?
    ensures At(s, i, w) && AllIn(c, w) && Word(c, s, i, stop) == Ok(w, i + |w|) && At(s, i + |w|, [stop])
  {
    w := FindRun(c, s, i, Skip(c, s, i));
  }

  lemma FindOver(c: Class, s: seq<Byte>, i: nat) returns (gap: seq<Byte>)
    requires i < |s| && Over(c, s, i).Ok?
    ensures At(s, i + 1, gap) && AllIn(c, gap) && Over(c, s, i).next == i + 1 + |gap| && !In(c, s[i + 1 + |gap|])
  {
    gap := FindRun(c, s, i + 1, Skip(c, s, i + 1));
  }

  lemma FindName(s: seq<Byte>, i: nat, v: nat) returns (name: seq<Byte>, before: seq<Byte>)
    requires i < |s| && Name(s, i, true).Ok? && v == Name(s, i, true).next
    ensures name != [] && TokenBytes(name) && Blanks(before) && v < |s| && !BlankByte(s[v]) && Name(s, i, true).value == name
    ensures At(s, i, name) && At(s, i + |name|, [':' as int]) && At(s, i + |name| + 1, before) && v == i + |name| + 1 + |before|
  {
    name := FindWord(Token, s, i, COLON);
    before := FindOver(Blank, s, i + |name|);
    ClassesAre(name);
    ClassesAre(before);
  }

  lemma JoinNamed(s: seq<Byte>, i: nat, l: FieldLine, v: nat)
    requires l.Named? && At(s, i, l.name) && At(s, i + |l.name|, [':' as int]) && At(s, i + |l.name| + 1, l.before)
    requires v == i + |l.name| + 1 + |l.before| && At(s, v, ValueBytes(l) + EndBytes(l.end))
    ensures At(s, i, LineBytes(l)) && i + |LineBytes(l)| == v + |ValueBytes(l) + EndBytes(l.end)|
  {
    var rest := ValueBytes(l) + EndBytes(l.end);
    AtJoin(s, i + |l.name| + 1, l.before, rest);
    AtJoin(s, i + |l.name|, [':' as int], l.before + rest);
    AtJoin(s, i, l.name, [':' as int] + (l.before + rest));
  }

  lemma FindNamed(s: seq<Byte>, i: nat) returns (l: FieldLine)
    requires i < |s| && HeaderLine(s, i, true).Ok?
    ensures l.Named? && ValidLine(l) && At(s, i, LineBytes(l)) && HeaderLine(s, i, true).next == i + |LineBytes(l)|
  {
    var v := Name(s, i, true).next;
    var name, before := FindName(s, i, v);
    var text, e := FindText(s, v);
    var value, after := FindTrimmed(text);
    l := NamedLine(s, v, name, before, text, value, after, e);
    JoinNamed(s, i, l, v);
  }

  /** An empty value keeps no blanks: they all stand before it. */
  lemma NamedLine(s: seq<Byte>, v: nat, name: seq<Byte>, before: seq<Byte>, text: seq<Byte>, value: seq<Byte>, after: seq<Byte>, e: LineEnd)
    returns (l: FieldLine)
    requires v < |s| && !BlankByte(s[v]) && TextBytes(text) && At(s, v, text + EndBytes(e)) && text == value + after
    requires EndsVisibly(value) && Blanks(after) && name != [] && TokenBytes(name) && Blanks(before)
    ensures ValidLine(l) && l == Named(name, before, value, after, e)
  {
    l := Named(name, before, value, after, e);
    AtConcat(s, v, text, EndBytes(e));
    if text != [] { AtIndex(s, v, text, 0); }
    forall k | 0 <= k < |value| ensures TextByte(value[k]) { assert text[k] == value[k]; }
  }

  lemma FindFolded(s: seq<Byte>, i: nat) returns (l: FieldLine)
    requires i < |s| && BlankByte(s[i]) && HeaderLine(s, i, false).Ok?
    ensures l.Folded? && ValidLine(l) && At(s, i, LineBytes(l)) && HeaderLine(s, i, false).next == i + |LineBytes(l)|
  {
    var text, e := FindText(s, i);
    var value, after := FindTrimmed(text);
    l := FoldedLine(s, i, text, value, after, e);
  }

  lemma FoldedLine(s: seq<Byte>, i: nat, text: seq<Byte>, value: seq<Byte>, after: seq<Byte>, e: LineEnd) returns (l: FieldLine)
    requires i < |s| && BlankByte(s[i]) && TextBytes(text) && At(s, i, text + EndBytes(e)) && text == value + after
    requires EndsVisibly(value) && Blanks(after)
    ensures ValidLine(l) && l == Folded(value, after, e)
  {
    l := Folded(value, after, e);
    AtConcat(s, i, text, EndBytes(e));
    if text == [] { EndAt(s, i, e); } else { AtIndex(s, i, text, 0); }
    forall k | 0 <= k < |value| ensures TextByte(value[k]) { assert text[k] == value[k]; }
  }

  lemma FindLine(s: seq<Byte>, i: nat, first: bool) returns (l: FieldLine)
    requires i < |s| && HeaderLine(s, i, first).Ok?
    ensures ValidLine(l) && (first ==> l.Named?) && At(s, i, LineBytes(l)) && HeaderLine(s, i, first).next == i + |LineBytes(l)|
  {
    if !first && BlankByte(s[i]) { l := FindFolded(s, i); } else { l := FindNamed(s, i); }
  }

  lemma JoinLine(s: seq<Byte>, i: nat, l: FieldLine, next: nat, ls: seq<FieldLine>, last: LineEnd)
    requires At(s, i, LineBytes(l)) && next == i + |LineBytes(l)| && At(s, next, HeadersBytes(ls, last))
    ensures At(s, i, HeadersBytes([l] + ls, last)) && i + |HeadersBytes([l] + ls, last)| == next + |HeadersBytes(ls, last)|
  {
    assert ([l] + ls)[1..] == ls;
    AtJoin(s, i, LineBytes(l), HeadersBytes(ls, last));
  }

  /** What is accepted as headers is headers of the grammar. */
  lemma {:induction false} FindHeaders(s: seq<Byte>, i: nat, first: bool) returns (ls: seq<FieldLine>, last: LineEnd)
    requires i <= |s| && Headers(s, i, first).Ok?
    ensures ValidLines(ls, first) && At(s, i, HeadersBytes(ls, last)) && Headers(s, i, first).next == i + |HeadersBytes(ls, last)|
    decreases |s| - i
  {
    if IsEol(s[i]) {
      last := FindEnd(s, i);
      ls := [];
    } else {
      var next := HeaderLine(s, i, first).next;
      var l := FindLine(s, i, first);
      var more;
      more, last := FindHeaders(s, next, false);
      ls := [l] + more;
      JoinLine(s, i, l, next, more, last);
    }
  }

  lemma FindGap(s: seq<Byte>, i: nat, k: nat) returns (gap: seq<Byte>)
    requires i < |s| && s[i] == SP && Over(Space, s, i) == Ok((), k)
    ensures At(s, i, gap) && Spaces(gap) && gap != [] && k == i + |gap|
  {
    gap := FindRun(Space, s, i + 1, k);
    ClassesAre(gap);
    AtJoin(s, i, [SP], gap);
    gap := [SP] + gap;
  }

  lemma FindField(c: Class, s: seq<Byte>, i: nat) returns (w: seq<Byte>, gap: seq<Byte>)
    requires i <= |s| && Field(c, s, i).Ok?
    ensures At(s, i, w + gap) && AllIn(c, w) && Spaces(gap) && gap != [] && Field(c, s, i) == Ok(w, i + |w + gap|)
  {
    w := FindWord(c, s, i, SP);
    gap := FindGap(s, i + |w|, Field(c, s, i).next);
    AtJoin(s, i, w, gap);
  }

  lemma FindVersion(s: seq<Byte>, i: nat) returns (minor: nat)
    requires i <= |s| && Version(s, i).Ok?
    ensures minor < 10 && At(s, i, VersionBytes(minor)) && Version(s, i) == Ok(minor, i + 8) && |VersionBytes(minor)| == 8
  {
    minor := s[i + 7] - ZERO;
    AtSlice(s, i, i + 7);
    DigitIs(minor);
    assert TextOf(VERSION) == HTTP_1_DOT;
    AtJoin(s, i, TextOf(VERSION), [DigitByte(minor)]);
  }

  lemma JoinFour(s: seq<Byte>, i: nat, a: seq<Byte>, b: seq<Byte>, c: seq<Byte>, d: seq<Byte>)
    requires At(s, i, a + b) && At(s, i + |a + b|, c + d)
    ensures At(s, i, a + (b + (c + d))) && |a + (b + (c + d))| == |a + b| + |c + d|
  {
    AtJoin(s, i, a + b, c + d);
    assert a + b + (c + d) == a + (b + (c + d));
  }

  lemma FindTarget(s: seq<Byte>, i: nat) returns (verb: seq<Byte>, gap: seq<Byte>, path: seq<Byte>, gap': seq<Byte>)
    requires i <= |s| && ParseTarget(s, i).Ok?
    ensures ValidField(verb, gap) && TokenBytes(verb) && ValidField(path, gap') && VisibleBytes(path)
    ensures At(s, i, verb + (gap + (path + gap'))) && ParseTarget(s, i).next == i + |verb + (gap + (path + gap'))|
  {
    verb, gap := FindField(Token, s, i);
    path, gap' := FindField(PathByte, s, i + |verb + gap|);
    ClassesAre(verb);
    ClassesAre(path);
    JoinFour(s, i, verb, gap, path, gap');
  }

  lemma FindVersionEnd(s: seq<Byte>, i: nat) returns (minor: nat, e: LineEnd)
    requires i <= |s| && VersionLine(s, i).Ok?
    ensures minor < 10 && At(s, i, VersionEnd(minor, e)) && VersionLine(s, i).next == i + |VersionEnd(minor, e)|
  {
    minor := FindVersion(s, i);
    e := FindEnd(s, i + 8);
    AtJoin(s, i, VersionBytes(minor), EndBytes(e));
  }

  lemma FindLead(s: seq<Byte>) returns (lead: Option<LineEnd>)
    requires LeadingLine(s).Ok?
    ensures At(s, 0, LeadBytes(lead)) && LeadingLine(s).next == |LeadBytes(lead)|
  {
    if IsEol(s[0]) {
      var e := FindEnd(s, 0);
      lead := Some(e);
    } else {
      lead := None;
    }
  }

  lemma FindFirstLine(s: seq<Byte>, i: nat) returns (t: RequestText)
    requires i <= |s| && RequestLine(s, i).Ok?
    ensures ValidTarget(t) && t.minor < 10 && At(s, i, FirstLine(t)) && RequestLine(s, i).next == i + |FirstLine(t)|
  {
    var verb, gap, path, gap' := FindTarget(s, i);
    var j := ParseTarget(s, i).next;
    var minor, e := FindVersionEnd(s, j);
    t := RequestText(None, verb, gap, path, gap', minor, e, [], Lf);
    AtJoin(s, i, TargetBytes(t), VersionEnd(minor, e));
  }

  /** What is accepted as a request begins with a request of the grammar. */
  lemma FindRequest(s: seq<Byte>) returns (t: RequestText)
    requires ParseRequest(s).Ok?
    ensures ValidRequest(t) && At(s, 0, RequestBytes(t))
  {
    var lead := FindLead(s);
    var i := LeadingLine(s).next;
    var line := FindFirstLine(s, i);
    var j := RequestLine(s, i).next;
    var ls, last := FindHeaders(s, j, true);
    t := line.(lead := lead, lines := ls, last := last);
    JoinThree(s, LeadBytes(lead), FirstLine(line), HeadersBytes(ls, last), i, j);
    assert FirstLine(t) == FirstLine(line);
  }

  lemma FindStatus(s: seq<Byte>, i: nat) returns (hundreds: nat, tens: nat, ones: nat)
    requires i <= |s| && Status(s, i).Ok?
    ensures hundreds < 10 && tens < 10 && ones < 10 && At(s, i, [DigitByte(hundreds), DigitByte(tens), DigitByte(ones)])
  {
    hundreds, tens, ones := s[i] - ZERO, s[i + 1] - ZERO, s[i + 2] - ZERO;
    DigitIs(hundreds);
    DigitIs(tens);
    DigitIs(ones);
  }

  lemma FindMessage(s: seq<Byte>, i: nat) returns (space: seq<Byte>, message: seq<Byte>, e: LineEnd)
    requires i <= |s| && Message(s, i).Ok?
    ensures ValidMessage(space, message) && At(s, i, space + message + EndBytes(e)) && Message(s, i).next == i + |space + message + EndBytes(e)|
  {
    var text;
    text, e := FindText(s, i);
    space, message := FindSpaces(text);
    forall k | 0 <= k < |message| ensures TextByte(message[k]) { assert text[|space| + k] == message[k]; }
  }

  lemma FindFirstFields(s: seq<Byte>, j: nat) returns (minor: nat, gap: seq<Byte>, hundreds: nat, tens: nat, ones: nat)
    requires VersionField(s).Ok? && j == VersionField(s).next && Status(s, j).Ok?
    ensures minor < 10 && gap != [] && Spaces(gap) && hundreds < 10 && tens < 10 && ones < 10
    ensures At(s, 0, VersionBytes(minor) + (gap + [DigitByte(hundreds), DigitByte(tens), DigitByte(ones)])) && j == 8 + |gap|
  {
    minor := FindVersion(s, 0);
    gap := FindGap(s, 8, j);
    hundreds, tens, ones := FindStatus(s, j);
    JoinThree(s, VersionBytes(minor), gap, [DigitByte(hundreds), DigitByte(tens), DigitByte(ones)], 8, j);
  }

  lemma FindResponse(s: seq<Byte>) returns (t: ResponseText)
    requires ParseResponse(s).Ok?
    ensures ValidResponse(t) && At(s, 0, ResponseBytes(t))
  {
    var j := VersionField(s).next;
    var minor, gap, hundreds, tens, ones := FindFirstFields(s, j);
    var space, message, e := FindMessage(s, j + 3);
    var k := StatusLine(s).next;
    var ls, last := FindHeaders(s, k, true);
    t := ResponseText(minor, gap, hundreds, tens, ones, space, message, e, ls, last);
    JoinThree(s, FirstFields(t), MessageEnd(t), HeadersBytes(ls, last), j + 3, k);
  }

  lemma AtStart(s: seq<Byte>, piece: seq<Byte>)
    ensures At(s, 0, piece) <==> piece <= s
  {
  }

  ghost predicate BeginsWithRequest(s: seq<Byte>, t: RequestText) { ValidRequest(t) && RequestBytes(t) <= s }

  ghost predicate BeginsWithResponse(s: seq<Byte>, t: ResponseText) { ValidResponse(t) && ResponseBytes(t) <= s }

  ghost predicate BeginsWithHeaders(s: seq<Byte>, ls: seq<FieldLine>, last: LineEnd) { ValidLines(ls, true) && HeadersBytes(ls, last) <= s }

  /** The parser accepts exactly what begins with a request of the grammar, and then delivers its fields. */
  lemma RequestGrammar(s: seq<Byte>)
    ensures ParseRequest(s).Ok? <==> exists t :: BeginsWithRequest(s, t)
    ensures forall t :: BeginsWithRequest(s, t) ==> ParseRequest(s) == Ok(RequestOf(t), |RequestBytes(t)|)
  {
    if ParseRequest(s).Ok? {
      var t := FindRequest(s);
      AtStart(s, RequestBytes(t));
      assert BeginsWithRequest(s, t);
    }
    forall t | BeginsWithRequest(s, t) ensures ParseRequest(s) == Ok(RequestOf(t), |RequestBytes(t)|) {
      AtStart(s, RequestBytes(t));
      RequestIsParsed(s, t);
    }
  }

  /** The same for responses. */
  lemma ResponseGrammar(s: seq<Byte>)
    ensures ParseResponse(s).Ok? <==> exists t :: BeginsWithResponse(s, t)
    ensures forall t :: BeginsWithResponse(s, t) ==> ParseResponse(s) == Ok(ResponseOf(t), |ResponseBytes(t)|)
  {
    if ParseResponse(s).Ok? {
      var t := FindResponse(s);
      AtStart(s, ResponseBytes(t));
      assert BeginsWithResponse(s, t);
    }
    forall t | BeginsWithResponse(s, t) ensures ParseResponse(s) == Ok(ResponseOf(t), |ResponseBytes(t)|) {
      AtStart(s, ResponseBytes(t));
      ResponseIsParsed(s, t);
    }
  }

  /** And for headers alone. */
  lemma HeadersGrammar(s: seq<Byte>)
    ensures Headers(s, 0, true).Ok? <==> exists ls, last :: BeginsWithHeaders(s, ls, last)
    ensures forall ls, last :: BeginsWithHeaders(s, ls, last) ==> Headers(s, 0, true) == Ok(HeadersOf(ls), |HeadersBytes(ls, last)|)
  {
    if Headers(s, 0, true).Ok? {
      var ls, last := FindHeaders(s, 0, true);
      AtStart(s, HeadersBytes(ls, last));
      assert BeginsWithHeaders(s, ls, last);
    }
    forall ls, last | BeginsWithHeaders(s, ls, last) ensures Headers(s, 0, true) == Ok(HeadersOf(ls), |HeadersBytes(ls, last)|) {
      AtStart(s, HeadersBytes(ls, last));
      var r := HeadersAt(s, 0, true, ls, last);
    }
  }

  // ---------------------------------------------------------------- what the printers write

  function OneSpace(): seq<Byte> { [' ' as int] }

  function LineFor(h: Header): FieldLine { Named(h.name, OneSpace(), h.value, [], CrLf) }

  function LinesFor(hs: seq<Header>): (ls: seq<FieldLine>)
    ensures |ls| == |hs| && forall i :: 0 <= i < |ls| ==> ls[i] == LineFor(hs[i])
  {
    if hs == [] then [] else [LineFor(hs[0])] + LinesFor(hs[1..])
  }

  lemma LineIsPrinted(h: Header)
    requires WellFormedHeader(h)
    ensures ValidLine(LineFor(h)) && LineBytes(LineFor(h)) == PrintHeader(h) && HeaderOf(LineFor(h)) == h
  {
    ClassesAre(h.name);
    ClassesAre(h.value);
    JoinedLine(h.name, h.value);
  }

  lemma JoinedLine(name: seq<Byte>, value: seq<Byte>)
    ensures name + ([':' as int] + (OneSpace() + (value + [] + CRLF))) == name + [COLON, SP] + value + CRLF
  {
  }

  lemma {:induction false} LinesArePrinted(hs: seq<Header>)
    requires WellFormedHeaders(hs)
    ensures ValidLines(LinesFor(hs), true) && HeadersBytes(LinesFor(hs), CrLf) == PrintHeaders(hs) + CRLF && HeadersOf(LinesFor(hs)) == hs
  {
    if hs != [] {
      LineIsPrinted(hs[0]);
      LinesArePrinted(hs[1..]);
      var ls := LinesFor(hs);
      assert ls[1..] == LinesFor(hs[1..]);
      Regrouped(PrintHeader(hs[0]), PrintHeaders(hs[1..]), CRLF);
      assert hs == [hs[0]] + hs[1..];
    }
  }

  lemma Regrouped(a: seq<Byte>, b: seq<Byte>, c: seq<Byte>)
    ensures a + (b + c) == a + b + c
  {
  }

  lemma VersionIsPrinted(minor: int)
    requires 0 <= minor <= 9
    ensures VersionBytes(minor) == PrintVersion(1, minor)
  {
    DigitIs(minor);
    assert TextOf(VERSION) == HTTP_1_DOT;
  }

  /** One space between fields and before values, and CRLF at the end of every line. */
  function RequestFor(r: Request): RequestText
    requires 0 <= r.minor
  {
    RequestText(None, r.verb, OneSpace(), r.path, OneSpace(), r.minor, CrLf, LinesFor(r.headers), CrLf)
  }

  lemma JoinedRequest(a: seq<Byte>, b: seq<Byte>, c: seq<Byte>, headers: seq<Byte>)
    ensures [] + (a + (OneSpace() + (b + OneSpace())) + (c + CRLF) + (headers + CRLF)) == PrintMessage(a, b, c, headers)
  {
  }

  lemma ValidRequestFor(r: Request)
    requires WellFormedRequest(r)
    ensures ValidRequest(RequestFor(r))
  {
    ClassesAre(r.verb);
    ClassesAre(r.path);
    LinesArePrinted(r.headers);
  }

  /** A well-formed request is printed strictly by the grammar. */
  lemma RequestIsPrinted(r: Request)
    requires WellFormedRequest(r)
    ensures var t := RequestFor(r); ValidRequest(t) && RequestBytes(t) == PrintRequest(r) && RequestOf(t) == r
  {
    ValidRequestFor(r);
    LinesArePrinted(r.headers);
    VersionIsPrinted(r.minor);
    JoinedRequest(r.verb, r.path, PrintVersion(1, r.minor), PrintHeaders(r.headers));
  }

  function ResponseFor(r: Response): ResponseText
    requires 0 <= r.minor && 0 <= r.status
  {
    ResponseText(r.minor, OneSpace(), r.status / 100, r.status / 10 % 10, r.status % 10, OneSpace(), r.message, CrLf, LinesFor(r.headers), CrLf)
  }

  lemma JoinedResponse(a: seq<Byte>, b: seq<Byte>, c: seq<Byte>, headers: seq<Byte>)
    ensures a + (OneSpace() + b) + (OneSpace() + c + CRLF + (headers + CRLF)) == PrintMessage(a, b, c, headers)
  {
  }

  lemma StatusIsPrinted(n: int)
    requires 100 <= n <= 999
    ensures [DigitByte(n / 100), DigitByte(n / 10 % 10), DigitByte(n % 10)] == Decimal(n) && 100 * (n / 100) + 10 * (n / 10 % 10) + n % 10 == n
  {
    DecimalDigits(n);
    DigitIs(n / 100);
    DigitIs(n / 10 % 10);
    DigitIs(n % 10);
  }

  lemma ValidResponseFor(r: Response)
    requires WellFormedResponse(r)
    ensures ValidResponse(ResponseFor(r))
  {
    ClassesAre(r.message);
    LinesArePrinted(r.headers);
  }

  /** The same for a response. */
  lemma ResponseIsPrinted(r: Response)
    requires WellFormedResponse(r)
    ensures var t := ResponseFor(r); ValidResponse(t) && ResponseBytes(t) == PrintResponse(r) && ResponseOf(t) == r
  {
    ValidResponseFor(r);
    LinesArePrinted(r.headers);
    VersionIsPrinted(r.minor);
    StatusIsPrinted(r.status);
    JoinedResponse(PrintVersion(1, r.minor), Decimal(r.status), r.message, PrintHeaders(r.headers));
  }
}
