/**
  The request and response parser, and the printers it undoes (sections 3.1 and 3.2 of RFC 7230).

  Positions are offsets into the buffer.  The functions say what each parser returns; the methods
  follow the source's loops.
 */
module HttpParser {
  import opened ByteTypes

  const TAB: Byte := 9
  const SP: Byte := 32
  const COLON: Byte := 58
  const DEL: Byte := 127
  const HTTP_SLASH: seq<Byte> := ['H' as int, 'T' as int, 'T' as int, 'P' as int, '/' as int]
  const HTTP_1_DOT: seq<Byte> := HTTP_SLASH + ['1' as int, '.' as int]

  datatype Header = Header(name: seq<Byte>, value: seq<Byte>)
  datatype Request = Request(verb: seq<Byte>, path: seq<Byte>, major: int, minor: int, headers: seq<Header>)
  datatype Response = Response(major: int, minor: int, status: int, message: seq<Byte>, headers: seq<Header>)

  /** `Incomplete` and `Malformed` are the return codes -2 and -1. */
  datatype Parsed<+T> = Ok(value: T, next: nat) | Incomplete | Malformed {
    predicate IsFailure() { !Ok? }
    function PropagateFailure<U>(): Parsed<U>
      requires IsFailure()
    {
      if Incomplete? then Incomplete else Malformed
    }
    function Extract(): (T, nat)
      requires Ok?
    {
      (value, next)
    }
  }

  // ---------------------------------------------------------------- character classes

  datatype Class = Token | PathByte | LineByte | Space | Blank

  predicate TokenChar(b: Byte) {
    || '0' as int <= b <= '9' as int || 'A' as int <= b <= 'Z' as int || '^' as int <= b <= 'z' as int
    || b == '!' as int || '#' as int <= b <= '\'' as int || b == '*' as int || b == '+' as int
    || b == '-' as int || b == '.' as int || b == '|' as int || b == '~' as int
  }

  predicate In(c: Class, b: Byte) {
    match c
    case Token => TokenChar(b)
    case PathByte => b > SP && b != DEL
    case LineByte => (b >= SP || b == TAB) && b != DEL
    case Space => b == SP
    case Blank => b == SP || b == TAB
  }

  predicate AllIn(c: Class, s: seq<Byte>) { forall i :: 0 <= i < |s| ==> In(c, s[i]) }

  predicate PrintableAscii(b: Byte) { 32 <= b < 127 }

  /** The first position from `i` on whose byte is not in the class, or the end. */
  function Skip(c: Class, s: seq<Byte>, i: nat): (j: nat)
    requires i <= |s|
    ensures i <= j <= |s|
    decreases |s| - i
  {
    if i < |s| && In(c, s[i]) then Skip(c, s, i + 1) else i
  }

  lemma {:induction false} SkipIs(c: Class, s: seq<Byte>, i: nat, j: nat)
    requires i <= j <= |s|
    ensures Skip(c, s, i) == j <==> (forall k :: i <= k < j ==> In(c, s[k])) && (j < |s| ==> !In(c, s[j]))
    decreases j - i
  {
    if i < j { SkipIs(c, s, i + 1, j); }
  }

  /** The bytes from `i` up to `j`. */
  function Bytes(s: seq<Byte>, i: nat, j: nat): (r: seq<Byte>)
    requires i <= j <= |s|
    decreases j - i
  {
    if i == j then [] else [s[i]] + Bytes(s, i + 1, j)
  }

  lemma {:induction false} BytesIs(s: seq<Byte>, i: nat, j: nat)
    requires i <= j <= |s|
    ensures Bytes(s, i, j) == s[i..j]
    decreases j - i
  {
    if i < j { BytesIs(s, i + 1, j); }
  }

  // ---------------------------------------------------------------- the pieces of a message

  /** CRLF or LF. */
  function Eol(s: seq<Byte>, i: nat): (r: Parsed<()>)
    requires i <= |s|
    ensures r.Ok? ==> i < r.next <= |s|
  {
    if i == |s| then Incomplete
    else if s[i] == LF then Ok((), i + 1)
    else if s[i] != CR then Malformed
    else if i + 1 == |s| then Incomplete
    else if s[i + 1] == LF then Ok((), i + 2)
    else Malformed
  }

  /** A run of bytes of the class, ended by `stop`. */
  function Word(c: Class, s: seq<Byte>, i: nat, stop: Byte): (r: Parsed<seq<Byte>>)
    requires i <= |s|
    ensures r.Ok? ==> i <= r.next < |s|
  {
    var j := Skip(c, s, i);
    if j == |s| then Incomplete else if s[j] == stop then Ok(Bytes(s, i, j), j) else Malformed
  }

  /** Steps over the byte at `i` and what follows it in the class; the buffer must go on. */
  function Over(c: Class, s: seq<Byte>, i: nat): (r: Parsed<()>)
    requires i < |s|
    ensures r.Ok? ==> i < r.next < |s|
  {
    var j := Skip(c, s, i + 1);
    if j == |s| then Incomplete else Ok((), j)
  }

  /** `get_token_to_eol`. */
  function Line(s: seq<Byte>, i: nat): (r: Parsed<seq<Byte>>)
    requires i <= |s|
    ensures r.Ok? ==> i < r.next <= |s|
  {
    var j := Skip(LineByte, s, i);
    var (_, next) :- Eol(s, j);
    Ok(Bytes(s, i, j), next)
  }

  predicate Digit(b: Byte) { '0' as int <= b <= '9' as int }

  /** `parse_http_version`. */
  function Version(s: seq<Byte>, i: nat): (r: Parsed<int>)
    requires i <= |s|
    ensures r.Ok? ==> i < r.next < |s|
  {
    if |s| - i < 9 then Incomplete
    else if Bytes(s, i, i + 7) == HTTP_1_DOT && Digit(s[i + 7]) then Ok(s[i + 7] - ZERO, i + 8)
    else Malformed
  }

  function TrimEnd(v: seq<Byte>): seq<Byte> {
    if |v| > 0 && In(Blank, v[|v| - 1]) then TrimEnd(v[..|v| - 1]) else v
  }

  function TrimSpaces(v: seq<Byte>): seq<Byte> {
    if |v| > 0 && v[0] == SP then TrimSpaces(v[1..]) else v
  }

  /** The name and the blanks before the value; a folded line has no name. */
  function Name(s: seq<Byte>, i: nat, first: bool): (r: Parsed<seq<Byte>>)
    requires i < |s|
    ensures r.Ok? ==> i <= r.next <= |s|
  {
    if !first && In(Blank, s[i]) then Ok([], i)
    else
      var (name, colon) :- Word(Token, s, i, COLON);
      if name == [] then Malformed
      else
        var (_, v) :- Over(Blank, s, colon);
        Ok(name, v)
  }

  function HeaderLine(s: seq<Byte>, i: nat, first: bool): (r: Parsed<Header>)
    requires i < |s|
    ensures r.Ok? ==> i < r.next <= |s|
  {
    var (name, v) :- Name(s, i, first);
    var (value, next) :- Line(s, v);
    Ok(Header(name, TrimEnd(value)), next)
  }

  predicate IsEol(b: Byte) { b == CR || b == LF }

  function Cons(h: Header, rest: Parsed<seq<Header>>): Parsed<seq<Header>> {
    if rest.Ok? then Ok([h] + rest.value, rest.next) else rest
  }

  /** `parse_headers_impl`. */
  function Headers(s: seq<Byte>, i: nat, first: bool): (r: Parsed<seq<Header>>)
    requires i <= |s|
    ensures r.Ok? ==> i < r.next <= |s|
    decreases |s| - i
  {
    if i == |s| then Incomplete
    else if IsEol(s[i]) then
      var (_, next) :- Eol(s, i);
      Ok([], next)
    else
      var (h, next) :- HeaderLine(s, i, first);
      Cons(h, Headers(s, next, false))
  }

  /** The empty line some clients send first. */
  function LeadingLine(s: seq<Byte>): (r: Parsed<()>)
    ensures r.Ok? ==> r.next <= |s|
  {
    if s == [] then Incomplete else if IsEol(s[0]) then Eol(s, 0) else Ok((), 0)
  }

  /** A word and the spaces after it. */
  function Field(c: Class, s: seq<Byte>, i: nat): (r: Parsed<seq<Byte>>)
    requires i <= |s|
    ensures r.Ok? ==> i < r.next < |s|
  {
    var (word, j) :- Word(c, s, i, SP);
    var (_, next) :- Over(Space, s, j);
    Ok(word, next)
  }

  datatype Target = Target(verb: seq<Byte>, path: seq<Byte>)

  function ParseTarget(s: seq<Byte>, i: nat): (r: Parsed<Target>)
    requires i <= |s|
    ensures r.Ok? ==> i < r.next < |s|
  {
    var (verb, j) :- Field(Token, s, i);
    var (path, next) :- Field(PathByte, s, j);
    if verb == [] || path == [] then Malformed else Ok(Target(verb, path), next)
  }

  function VersionLine(s: seq<Byte>, i: nat): (r: Parsed<int>)
    requires i <= |s|
    ensures r.Ok? ==> i < r.next <= |s|
  {
    var (minor, j) :- Version(s, i);
    var (_, next) :- Eol(s, j);
    Ok(minor, next)
  }

  function RequestLine(s: seq<Byte>, i: nat): (r: Parsed<Request>)
    requires i <= |s|
    ensures r.Ok? ==> i < r.next <= |s|
  {
    var (t, j) :- ParseTarget(s, i);
    var (minor, next) :- VersionLine(s, j);
    Ok(Request(t.verb, t.path, 1, minor, []), next)
  }

  function RequestAt(s: seq<Byte>, i: nat): (r: Parsed<Request>)
    requires i <= |s|
    ensures r.Ok? ==> i < r.next <= |s|
  {
    var (r, j) :- RequestLine(s, i);
    var (hs, next) :- Headers(s, j, true);
    Ok(r.(headers := hs), next)
  }

  /** `Request::parse` with `last_len` zero. */
  function ParseRequest(s: seq<Byte>): (r: Parsed<Request>)
    ensures r.Ok? ==> r.next <= |s|
  {
    var (_, i) :- LeadingLine(s);
    RequestAt(s, i)
  }

  /** Three digits and one more byte. */
  function Status(s: seq<Byte>, i: nat): (r: Parsed<int>)
    requires i <= |s|
    ensures r.Ok? ==> i < r.next < |s|
  {
    if |s| - i < 4 then Incomplete
    else if Digit(s[i]) && Digit(s[i + 1]) && Digit(s[i + 2])
    then Ok(100 * (s[i] - ZERO) + 10 * (s[i + 1] - ZERO) + (s[i + 2] - ZERO), i + 3)
    else Malformed
  }

  function Message(s: seq<Byte>, i: nat): (r: Parsed<seq<Byte>>)
    requires i <= |s|
    ensures r.Ok? ==> i < r.next <= |s|
  {
    var (msg, next) :- Line(s, i);
    if msg == [] || msg[0] == SP then Ok(TrimSpaces(msg), next) else Malformed
  }

  function VersionField(s: seq<Byte>): (r: Parsed<int>)
    ensures r.Ok? ==> r.next < |s|
  {
    var (minor, i) :- Version(s, 0);
    if s[i] != SP then Malformed
    else
      var (_, next) :- Over(Space, s, i);
      Ok(minor, next)
  }

  function StatusLine(s: seq<Byte>): (r: Parsed<Response>)
    ensures r.Ok? ==> r.next <= |s|
  {
    var (minor, i) :- VersionField(s);
    var (status, j) :- Status(s, i);
    var (message, next) :- Message(s, j);
    Ok(Response(1, minor, status, message, []), next)
  }

  /** `Response::parse` with `last_len` zero. */
  function ParseResponse(s: seq<Byte>): (r: Parsed<Response>)
    ensures r.Ok? ==> r.next <= |s|
  {
    var (r, j) :- StatusLine(s);
    var (hs, next) :- Headers(s, j, true);
    Ok(r.(headers := hs), next)
  }

  // ---------------------------------------------------------------- prefix stability

  /**
    `r` is what is said of the first bytes and `extended` what is said of more: a verdict stays, and
    what is accepted up to position `n` was accepted before.
   */
  ghost predicate Stable<T>(r: Parsed<T>, extended: Parsed<T>, n: int) {
    (!r.Incomplete? ==> extended == r) && (extended.Ok? && extended.next <= n ==> extended == r)
  }

  lemma SkipStable(c: Class, s: seq<Byte>, t: seq<Byte>, i: nat)
    requires i <= |s|
    ensures Skip(c, s, i) < |s| || Skip(c, s + t, i) < |s| ==> Skip(c, s + t, i) == Skip(c, s, i)
  {
    var j := Skip(c, s, i);
    SkipIs(c, s, i, j);
    SkipIs(c, s + t, i, j);
    SkipIs(c, s + t, i, Skip(c, s + t, i));
  }

  lemma BytesStable(s: seq<Byte>, t: seq<Byte>, i: nat, j: nat)
    requires i <= j <= |s|
    ensures Bytes(s + t, i, j) == Bytes(s, i, j)
  {
    BytesIs(s, i, j);
    BytesIs(s + t, i, j);
  }

  lemma WordStable(c: Class, s: seq<Byte>, t: seq<Byte>, i: nat, stop: Byte)
    requires i <= |s|
    ensures Stable(Word(c, s, i, stop), Word(c, s + t, i, stop), |s| - 1)
  {
    SkipStable(c, s, t, i);
    BytesStable(s, t, i, Skip(c, s, i));
  }

  lemma OverStable(c: Class, s: seq<Byte>, t: seq<Byte>, i: nat)
    requires i < |s|
    ensures Stable(Over(c, s, i), Over(c, s + t, i), |s| - 1)
  {
    SkipStable(c, s, t, i + 1);
  }

  lemma LineStable(s: seq<Byte>, t: seq<Byte>, i: nat)
    requires i <= |s|
    ensures Stable(Line(s, i), Line(s + t, i), |s|)
  {
    SkipStable(LineByte, s, t, i);
    BytesStable(s, t, i, Skip(LineByte, s, i));
  }

  lemma VersionStable(s: seq<Byte>, t: seq<Byte>, i: nat)
    requires i <= |s|
    ensures Stable(Version(s, i), Version(s + t, i), |s| - 1)
  {
    if |s| - i >= 9 { BytesStable(s, t, i, i + 7); }
  }

  lemma HeaderLineStable(s: seq<Byte>, t: seq<Byte>, i: nat, first: bool)
    requires i < |s|
    ensures Stable(HeaderLine(s, i, first), HeaderLine(s + t, i, first), |s|)
  {
    WordStable(Token, s, t, i, COLON);
    var w := Word(Token, s, i, COLON);
    if w.Ok? { OverStable(Blank, s, t, w.next); }
    var n := Name(s, i, first);
    if n.Ok? { LineStable(s, t, n.next); }
  }

  lemma {:induction false} HeadersStable(s: seq<Byte>, t: seq<Byte>, i: nat, first: bool)
    requires i <= |s|
    ensures Stable(Headers(s, i, first), Headers(s + t, i, first), |s|)
    decreases |s| - i
  {
    if i < |s| && !IsEol(s[i]) {
      HeaderLineStable(s, t, i, first);
      var h := HeaderLine(s, i, first);
      if h.Ok? { HeadersStable(s, t, h.next, false); }
    }
  }

  lemma FieldStable(c: Class, s: seq<Byte>, t: seq<Byte>, i: nat)
    requires i <= |s|
    ensures Stable(Field(c, s, i), Field(c, s + t, i), |s| - 1)
  {
    WordStable(c, s, t, i, SP);
    var w := Word(c, s, i, SP);
    if w.Ok? { OverStable(Space, s, t, w.next); }
  }

  lemma TargetStable(s: seq<Byte>, t: seq<Byte>, i: nat)
    requires i <= |s|
    ensures Stable(ParseTarget(s, i), ParseTarget(s + t, i), |s| - 1)
  {
    FieldStable(Token, s, t, i);
    var verb := Field(Token, s, i);
    if verb.Ok? { FieldStable(PathByte, s, t, verb.next); }
  }

  lemma VersionLineStable(s: seq<Byte>, t: seq<Byte>, i: nat)
    requires i <= |s|
    ensures Stable(VersionLine(s, i), VersionLine(s + t, i), |s|)
  {
    VersionStable(s, t, i);
  }

  lemma RequestLineStable(s: seq<Byte>, t: seq<Byte>, i: nat)
    requires i <= |s|
    ensures Stable(RequestLine(s, i), RequestLine(s + t, i), |s|)
  {
    TargetStable(s, t, i);
    var target := ParseTarget(s, i);
    if target.Ok? { VersionLineStable(s, t, target.next); }
  }

  lemma RequestAtStable(s: seq<Byte>, t: seq<Byte>, i: nat)
    requires i <= |s|
    ensures Stable(RequestAt(s, i), RequestAt(s + t, i), |s|)
  {
    RequestLineStable(s, t, i);
    var r := RequestLine(s, i);
    if r.Ok? { HeadersStable(s, t, r.next, true); }
  }

  /** A verdict on a request never changes when more bytes arrive. */
  lemma RequestStable(s: seq<Byte>, t: seq<Byte>)
    ensures Stable(ParseRequest(s), ParseRequest(s + t), |s|)
  {
    LeadingLineStable(s, t);
    var l := LeadingLine(s);
    if l.Ok? { RequestAtStable(s, t, l.next); }
  }

  lemma LeadingLineStable(s: seq<Byte>, t: seq<Byte>)
    ensures Stable(LeadingLine(s), LeadingLine(s + t), |s| - 1)
  {
  }

  lemma VersionFieldStable(s: seq<Byte>, t: seq<Byte>)
    ensures Stable(VersionField(s), VersionField(s + t), |s| - 1)
  {
    VersionStable(s, t, 0);
    var v := Version(s, 0);
    if v.Ok? { OverStable(Space, s, t, v.next); }
  }

  lemma StatusStable(s: seq<Byte>, t: seq<Byte>, i: nat)
    requires i <= |s|
    ensures Stable(Status(s, i), Status(s + t, i), |s| - 1)
  {
  }

  lemma MessageStable(s: seq<Byte>, t: seq<Byte>, i: nat)
    requires i <= |s|
    ensures Stable(Message(s, i), Message(s + t, i), |s|)
  {
    LineStable(s, t, i);
  }

  lemma StatusLineStable(s: seq<Byte>, t: seq<Byte>)
    ensures Stable(StatusLine(s), StatusLine(s + t), |s|)
  {
    VersionFieldStable(s, t);
    var f := VersionField(s);
    if f.Ok? {
      StatusStable(s, t, f.next);
      var c := Status(s, f.next);
      if c.Ok? { MessageStable(s, t, c.next); }
    }
  }

  /** A verdict on a response never changes when more bytes arrive. */
  lemma ResponseStable(s: seq<Byte>, t: seq<Byte>)
    ensures Stable(ParseResponse(s), ParseResponse(s + t), |s|)
  {
    StatusLineStable(s, t);
    var r := StatusLine(s);
    if r.Ok? { HeadersStable(s, t, r.next, true); }
  }

  /** An accepted request is accepted, with the same fields, from the arrival of its last byte on and not before. */
  lemma RequestAccepted(s: seq<Byte>, k: nat)
    requires ParseRequest(s).Ok? && k <= |s|
    ensures ParseRequest(s[..k]) == if k < ParseRequest(s).next then Incomplete else ParseRequest(s)
  {
    assert s == s[..k] + s[k..];
    RequestStable(s[..k], s[k..]);
  }

  /** An accepted response is accepted, with the same fields, from the arrival of its last byte on and not before. */
  lemma ResponseAccepted(s: seq<Byte>, k: nat)
    requires ParseResponse(s).Ok? && k <= |s|
    ensures ParseResponse(s[..k]) == if k < ParseResponse(s).next then Incomplete else ParseResponse(s)
  {
    assert s == s[..k] + s[k..];
    ResponseStable(s[..k], s[k..]);
  }

  // ---------------------------------------------------------------- the printers

  /** How an integer is printed. */
  function Decimal(n: int): seq<Byte>
    decreases if n < 0 then 1 - n else n
  {
    if n < 0 then ['-' as int] + Decimal(-n)
    else if n < 10 then [ZERO + n]
    else Decimal(n / 10) + [ZERO + n % 10]
  }

  function PrintHeader(h: Header): seq<Byte> { h.name + [COLON, SP] + h.value + CRLF }

  function PrintHeaders(hs: seq<Header>): seq<Byte> {
    if hs == [] then [] else PrintHeader(hs[0]) + PrintHeaders(hs[1..])
  }

  function PrintVersion(major: int, minor: int): seq<Byte> { HTTP_SLASH + Decimal(major) + ['.' as int] + Decimal(minor) }

  /** Three fields on the first line, then the headers and an empty line. */
  function PrintMessage(a: seq<Byte>, b: seq<Byte>, c: seq<Byte>, headers: seq<Byte>): seq<Byte> {
    a + [SP] + b + [SP] + c + CRLF + headers + CRLF
  }

  function PrintRequest(r: Request): seq<Byte> {
    PrintMessage(r.verb, r.path, PrintVersion(r.major, r.minor), PrintHeaders(r.headers))
  }

  function PrintResponse(r: Response): seq<Byte> {
    PrintMessage(PrintVersion(r.major, r.minor), Decimal(r.status), r.message, PrintHeaders(r.headers))
  }

  // ---------------------------------------------------------------- which messages survive

  predicate NoBlankAtEnd(v: seq<Byte>) { |v| > 0 ==> !In(Blank, v[|v| - 1]) }
  predicate NoBlankAtStart(v: seq<Byte>) { |v| > 0 ==> !In(Blank, v[0]) }

  /** A header as the parser delivers it; a folded line has no name. */
  predicate ParsedHeader(h: Header) {
    AllIn(Token, h.name) && AllIn(LineByte, h.value) && NoBlankAtEnd(h.value) && (h.name != [] ==> NoBlankAtStart(h.value))
  }

  predicate WellFormedHeader(h: Header) {
    h.name != [] && AllIn(Token, h.name) && AllIn(LineByte, h.value) && NoBlankAtStart(h.value) && NoBlankAtEnd(h.value)
  }

  predicate ParsedHeaders(hs: seq<Header>) { forall i :: 0 <= i < |hs| ==> ParsedHeader(hs[i]) }
  predicate WellFormedHeaders(hs: seq<Header>) { forall i :: 0 <= i < |hs| ==> WellFormedHeader(hs[i]) }

  predicate WellFormedTarget(r: Request) {
    r.verb != [] && AllIn(Token, r.verb) && r.path != [] && AllIn(PathByte, r.path) && r.major == 1 && 0 <= r.minor <= 9
  }

  predicate WellFormedRequest(r: Request) { WellFormedTarget(r) && WellFormedHeaders(r.headers) }

  predicate WellFormedStatusLine(r: Response) {
    && r.major == 1 && 0 <= r.minor <= 9
    && AllIn(LineByte, r.message) && (|r.message| > 0 ==> r.message[0] != SP)
  }

  predicate WellFormedResponse(r: Response) {
    WellFormedStatusLine(r) && 100 <= r.status <= 999 && WellFormedHeaders(r.headers)
  }

  // ---------------------------------------------------------------- parsing what was printed

  ghost predicate At(s: seq<Byte>, i: nat, piece: seq<Byte>) {
    i + |piece| <= |s| && forall k :: 0 <= k < |piece| ==> piece[k] == s[i + k]
  }

  lemma AtBytes(s: seq<Byte>, i: nat, piece: seq<Byte>)
    requires At(s, i, piece)
    ensures Bytes(s, i, i + |piece|) == piece
  {
    BytesIs(s, i, i + |piece|);
  }

  lemma AtConcat(s: seq<Byte>, i: nat, a: seq<Byte>, b: seq<Byte>)
    requires At(s, i, a + b)
    ensures At(s, i, a) && At(s, i + |a|, b)
  {
    forall k | 0 <= k < |a| ensures a[k] == s[i + k] { assert (a + b)[k] == a[k]; }
    forall k | 0 <= k < |b| ensures b[k] == s[i + |a| + k] { assert (a + b)[|a| + k] == b[k]; }
  }

  lemma AtIndex(s: seq<Byte>, i: nat, piece: seq<Byte>, k: nat)
    requires At(s, i, piece) && k < |piece|
    ensures s[i + k] == piece[k]
  {
  }

  lemma SkipPiece(c: Class, s: seq<Byte>, i: nat, piece: seq<Byte>)
    requires At(s, i, piece) && AllIn(c, piece) && i + |piece| < |s| && !In(c, s[i + |piece|])
    ensures Skip(c, s, i) == i + |piece|
  {
    forall k | i <= k < i + |piece| ensures In(c, s[k]) { AtIndex(s, i, piece, k - i); }
    SkipIs(c, s, i, i + |piece|);
  }

  lemma {:induction false} TrimEndIs(v: seq<Byte>)
    ensures NoBlankAtEnd(TrimEnd(v)) && TrimEnd(v) <= v
    ensures NoBlankAtEnd(v) ==> TrimEnd(v) == v
  {
    if |v| > 0 && In(Blank, v[|v| - 1]) { TrimEndIs(v[..|v| - 1]); }
  }

  lemma PrintedEol(s: seq<Byte>, i: nat)
    requires At(s, i, CRLF)
    ensures IsEol(s[i]) && s[i] == CR && Eol(s, i) == Ok((), i + 2)
  {
    AtIndex(s, i, CRLF, 0);
    AtIndex(s, i, CRLF, 1);
  }

  lemma PrintedLine(s: seq<Byte>, i: nat, v: seq<Byte>)
    requires At(s, i, v) && At(s, i + |v|, CRLF) && AllIn(LineByte, v)
    ensures Line(s, i) == Ok(v, i + |v| + 2)
  {
    PrintedEol(s, i + |v|);
    SkipPiece(LineByte, s, i, v);
    AtBytes(s, i, v);
  }

  lemma PrintedWord(c: Class, s: seq<Byte>, i: nat, w: seq<Byte>, stop: Byte)
    requires At(s, i, w) && At(s, i + |w|, [stop]) && AllIn(c, w) && !In(c, stop)
    ensures Word(c, s, i, stop) == Ok(w, i + |w|)
  {
    AtIndex(s, i + |w|, [stop], 0);
    SkipPiece(c, s, i, w);
    AtBytes(s, i, w);
  }

  /** A separator, then something that does not go on with the class. */
  lemma PrintedOver(c: Class, s: seq<Byte>, i: nat, sep: Byte)
    requires i + 2 < |s| && s[i + 1] == sep && In(c, sep) && !In(c, s[i + 2])
    ensures Over(c, s, i) == Ok((), i + 2)
  {
    SkipIs(c, s, i + 1, i + 2);
  }

  lemma PrintedName(s: seq<Byte>, i: nat, name: seq<Byte>, first: bool)
    requires At(s, i, name) && At(s, i + |name|, [COLON, SP]) && name != [] && AllIn(Token, name)
    requires i + |name| + 2 < |s| && !In(Blank, s[i + |name| + 2])
    ensures !IsEol(s[i]) && Name(s, i, first) == Ok(name, i + |name| + 2)
  {
    var colon := i + |name|;
    AtIndex(s, i, name, 0);
    AtIndex(s, colon, [COLON, SP], 0);
    AtIndex(s, colon, [COLON, SP], 1);
    PrintedWord(Token, s, i, name, COLON);
    PrintedOver(Blank, s, colon, SP);
  }

  lemma SplitHeader(s: seq<Byte>, i: nat, h: Header)
    requires At(s, i, PrintHeader(h))
    ensures At(s, i, h.name) && At(s, i + |h.name|, [COLON, SP])
    ensures At(s, i + |h.name| + 2, h.value) && At(s, i + |h.name| + 2 + |h.value|, CRLF)
  {
    AtConcat(s, i, h.name + [COLON, SP] + h.value, CRLF);
    AtConcat(s, i, h.name + [COLON, SP], h.value);
    AtConcat(s, i, h.name, [COLON, SP]);
  }

  lemma PrintedNameAndValue(s: seq<Byte>, i: nat, name: seq<Byte>, v: nat, value: seq<Byte>, first: bool)
    requires At(s, i, name) && At(s, i + |name|, [COLON, SP]) && v == i + |name| + 2 && At(s, v, value) && At(s, v + |value|, CRLF)
    requires name != [] && AllIn(Token, name) && AllIn(LineByte, value) && NoBlankAtStart(value)
    ensures !IsEol(s[i]) && Name(s, i, first) == Ok(name, v) && Line(s, v) == Ok(value, v + |value| + 2)
  {
    ValueStart(s, v, value);
    PrintedName(s, i, name, first);
    PrintedLine(s, v, value);
  }

  lemma PrintedHeaderPieces(s: seq<Byte>, i: nat, h: Header, first: bool)
    requires At(s, i, h.name) && At(s, i + |h.name|, [COLON, SP])
    requires At(s, i + |h.name| + 2, h.value) && At(s, i + |h.name| + 2 + |h.value|, CRLF)
    requires WellFormedHeader(h)
    ensures !IsEol(s[i]) && HeaderLine(s, i, first) == Ok(h, i + |h.name| + |h.value| + 4)
  {
    var v := i + |h.name| + 2;
    PrintedNameAndValue(s, i, h.name, v, h.value, first);
    TrimEndIs(h.value);
    HeaderParts(s, i, first, h.name, v, h.value, v + |h.value| + 2);
  }

  lemma ValueStart(s: seq<Byte>, v: nat, value: seq<Byte>)
    requires At(s, v, value) && At(s, v + |value|, CRLF) && NoBlankAtStart(value)
    ensures v < |s| && !In(Blank, s[v])
  {
    if |value| > 0 { AtIndex(s, v, value, 0); } else { PrintedEol(s, v); }
  }

  lemma HeaderParts(s: seq<Byte>, i: nat, first: bool, name: seq<Byte>, v: nat, value: seq<Byte>, next: nat)
    requires i < |s| && v <= |s| && Name(s, i, first) == Ok(name, v) && Line(s, v) == Ok(value, next) && TrimEnd(value) == value
    ensures HeaderLine(s, i, first) == Ok(Header(name, value), next)
  {
  }

  lemma PrintedHeader(s: seq<Byte>, i: nat, h: Header, first: bool)
    requires At(s, i, PrintHeader(h)) && WellFormedHeader(h)
    ensures i < |s| && !IsEol(s[i]) && HeaderLine(s, i, first) == Ok(h, i + |PrintHeader(h)|)
  {
    SplitHeader(s, i, h);
    PrintedHeaderPieces(s, i, h, first);
  }

  lemma NamelessHeader(s: seq<Byte>, i: nat, h: Header, first: bool)
    requires At(s, i, PrintHeader(h)) && h.name == []
    ensures i < |s| && !IsEol(s[i]) && HeaderLine(s, i, first).Malformed?
  {
    AtIndex(s, i, PrintHeader(h), 0);
  }

  lemma PrintHeadersCons(hs: seq<Header>)
    requires hs != []
    ensures PrintHeaders(hs) == PrintHeader(hs[0]) + PrintHeaders(hs[1..])
  {
  }

  lemma SplitTwo(s: seq<Byte>, i: nat, all: seq<Byte>, a: seq<Byte>, b: seq<Byte>)
    requires all == a + b && At(s, i, all) && At(s, i + |all|, CRLF)
    ensures At(s, i, a) && At(s, i + |a|, b) && At(s, i + |a| + |b|, CRLF)
  {
    AtConcat(s, i, a, b);
  }

  lemma SplitHeaders(s: seq<Byte>, i: nat, hs: seq<Header>)
    requires At(s, i, PrintHeaders(hs)) && At(s, i + |PrintHeaders(hs)|, CRLF) && hs != []
    ensures At(s, i, PrintHeader(hs[0]))
    ensures var next := i + |PrintHeader(hs[0])|;
            At(s, next, PrintHeaders(hs[1..])) && At(s, next + |PrintHeaders(hs[1..])|, CRLF)
  {
    PrintHeadersCons(hs);
    SplitTwo(s, i, PrintHeaders(hs), PrintHeader(hs[0]), PrintHeaders(hs[1..]));
  }

  /** What parsing the printed headers gives. */
  function Expected(hs: seq<Header>, i: nat): Parsed<seq<Header>> {
    if WellFormedHeaders(hs) then Ok(hs, i + |PrintHeaders(hs)| + 2) else Malformed
  }

  lemma WellFormedCons(hs: seq<Header>)
    requires |hs| > 0 && WellFormedHeader(hs[0])
    ensures WellFormedHeaders(hs) <==> WellFormedHeaders(hs[1..])
  {
    assert hs == [hs[0]] + hs[1..];
  }

  lemma ExpectedCons(hs: seq<Header>, i: nat, next: nat)
    requires |hs| > 0 && WellFormedHeader(hs[0]) && next == i + |PrintHeader(hs[0])|
    ensures Expected(hs, i) == Cons(hs[0], Expected(hs[1..], next))
  {
    WellFormedCons(hs);
    PrintHeadersCons(hs);
    assert hs == [hs[0]] + hs[1..];
  }

  lemma NamelessExpected(hs: seq<Header>, i: nat)
    requires |hs| > 0 && hs[0].name == []
    ensures Expected(hs, i) == Malformed
  {
    assert !WellFormedHeader(hs[0]);
  }

  lemma ParsedTail(hs: seq<Header>)
    requires |hs| > 0 && ParsedHeaders(hs)
    ensures ParsedHeaders(hs[1..])
    ensures WellFormedHeader(hs[0]) <==> hs[0].name != []
  {
  }

  lemma HeadersCons(s: seq<Byte>, i: nat, first: bool, h: Header, next: nat, rest: Parsed<seq<Header>>)
    requires i < |s| && !IsEol(s[i]) && HeaderLine(s, i, first) == Ok(h, next) && rest == Headers(s, next, false)
    ensures Headers(s, i, first) == Cons(h, rest)
  {
  }

  lemma NamelessFirst(s: seq<Byte>, i: nat, h: Header, first: bool)
    requires At(s, i, PrintHeader(h)) && h.name == []
    ensures Headers(s, i, first) == Malformed
  {
    NamelessHeader(s, i, h, first);
  }

  lemma PrintedStep(s: seq<Byte>, i: nat, h: Header, first: bool, next: nat, rest: Parsed<seq<Header>>)
    requires At(s, i, PrintHeader(h)) && WellFormedHeader(h) && next == i + |PrintHeader(h)| <= |s|
    requires rest == Headers(s, next, false)
    ensures Headers(s, i, first) == Cons(h, rest)
  {
    PrintedHeader(s, i, h, first);
    HeadersCons(s, i, first, h, next, rest);
  }

  lemma {:induction false} PrintedMore(s: seq<Byte>, i: nat, hs: seq<Header>, next: nat) returns (r: Parsed<seq<Header>>)
    requires |hs| > 0 && At(s, i, PrintHeaders(hs)) && At(s, i + |PrintHeaders(hs)|, CRLF) && ParsedHeaders(hs) && next == i + |PrintHeader(hs[0])|
    ensures At(s, i, PrintHeader(hs[0])) && ParsedHeader(hs[0]) && next <= |s|
    ensures r == Headers(s, next, false) && r == Expected(hs[1..], next)
    decreases |hs|, 0
  {
    SplitHeaders(s, i, hs);
    ParsedTail(hs);
    r := PrintedHeaders(s, next, hs[1..], false);
  }

  /** Headers as the parser delivers them come back exactly when each has a name. */
  lemma {:induction false} PrintedHeaders(s: seq<Byte>, i: nat, hs: seq<Header>, first: bool) returns (r: Parsed<seq<Header>>)
    requires At(s, i, PrintHeaders(hs)) && At(s, i + |PrintHeaders(hs)|, CRLF) && ParsedHeaders(hs)
    ensures r == Headers(s, i, first) && r == Expected(hs, i)
    decreases |hs|, 1
  {
    if |hs| == 0 {
      PrintedEol(s, i);
      r := Headers(s, i, first);
    } else {
      var next := i + |PrintHeader(hs[0])|;
      var rest := PrintedMore(s, i, hs, next);
      r := PrintedTop(s, i, hs, first, next, rest);
    }
  }

  lemma PrintedTop(s: seq<Byte>, i: nat, hs: seq<Header>, first: bool, next: nat, rest: Parsed<seq<Header>>) returns (r: Parsed<seq<Header>>)
    requires |hs| > 0 && At(s, i, PrintHeader(hs[0])) && ParsedHeader(hs[0]) && next == i + |PrintHeader(hs[0])| <= |s|
    requires rest == Headers(s, next, false) && rest == Expected(hs[1..], next)
    ensures r == Headers(s, i, first) && r == Expected(hs, i)
  {
    if hs[0].name == [] {
      NamelessFirst(s, i, hs[0], first);
      NamelessExpected(hs, i);
      r := Malformed;
    } else {
      PrintedStep(s, i, hs[0], first, next, rest);
      ExpectedCons(hs, i, next);
      r := Cons(hs[0], rest);
    }
  }

  lemma PrintedField(c: Class, s: seq<Byte>, i: nat, w: seq<Byte>)
    requires At(s, i, w) && At(s, i + |w|, [SP]) && AllIn(c, w) && !In(c, SP)
    requires i + |w| + 1 < |s| && s[i + |w| + 1] != SP
    ensures Field(c, s, i) == Ok(w, i + |w| + 1)
  {
    PrintedWord(c, s, i, w, SP);
  }

  lemma PrintedVersion(s: seq<Byte>, i: nat, minor: int)
    requires At(s, i, PrintVersion(1, minor)) && 0 <= minor <= 9 && i + 8 < |s|
    ensures s[i] != SP && Version(s, i) == Ok(minor, i + 8)
  {
    assert PrintVersion(1, minor) == HTTP_1_DOT + [ZERO + minor];
    AtConcat(s, i, HTTP_1_DOT, [ZERO + minor]);
    AtIndex(s, i + 7, [ZERO + minor], 0);
    AtBytes(s, i, HTTP_1_DOT);
    AtIndex(s, i, HTTP_1_DOT, 0);
  }

  /** The pieces of a printed message, in place. */
  ghost predicate Pieces(s: seq<Byte>, a: seq<Byte>, b: seq<Byte>, c: seq<Byte>, headers: seq<Byte>) {
    var i := |a| + |b| + |c| + 2;
    && Fields(s, a, b, c) && At(s, i, CRLF)
    && At(s, i + 2, headers) && At(s, i + 2 + |headers|, CRLF)
    && |s| == i + |headers| + 4
  }

  ghost predicate Fields(s: seq<Byte>, a: seq<Byte>, b: seq<Byte>, c: seq<Byte>) {
    && At(s, 0, a) && At(s, |a|, [SP])
    && At(s, |a| + 1, b) && At(s, |a| + 1 + |b|, [SP])
    && At(s, |a| + |b| + 2, c)
  }

  lemma WholeAt(s: seq<Byte>)
    ensures At(s, 0, s)
  {
  }

  lemma VersionLength(minor: int)
    requires 0 <= minor <= 9
    ensures |PrintVersion(1, minor)| == 8
  {
  }

  lemma SplitFields(s: seq<Byte>, line: seq<Byte>, a: seq<Byte>, b: seq<Byte>, c: seq<Byte>)
    requires line == a + [SP] + b + [SP] + c && At(s, 0, line)
    ensures Fields(s, a, b, c)
  {
    AtConcat(s, 0, a + [SP] + b + [SP], c);
    AtConcat(s, 0, a + [SP] + b, [SP]);
    AtConcat(s, 0, a + [SP], b);
    AtConcat(s, 0, a, [SP]);
  }

  lemma SplitLines(s: seq<Byte>, line: seq<Byte>, headers: seq<Byte>)
    requires At(s, 0, line + CRLF + headers + CRLF)
    ensures At(s, 0, line) && At(s, |line|, CRLF) && At(s, |line| + 2, headers) && At(s, |line| + 2 + |headers|, CRLF)
  {
    AtConcat(s, 0, line + CRLF + headers, CRLF);
    AtConcat(s, 0, line + CRLF, headers);
    AtConcat(s, 0, line, CRLF);
  }

  lemma JoinPieces(s: seq<Byte>, i: nat, a: seq<Byte>, b: seq<Byte>, c: seq<Byte>, headers: seq<Byte>)
    requires Fields(s, a, b, c) && i == |a| + |b| + |c| + 2
    requires At(s, i, CRLF) && At(s, i + 2, headers) && At(s, i + 2 + |headers|, CRLF) && |s| == i + |headers| + 4
    ensures Pieces(s, a, b, c, headers)
  {
  }

  lemma LineLength(a: seq<Byte>, b: seq<Byte>, c: seq<Byte>)
    ensures |a + [SP] + b + [SP] + c| == |a| + |b| + |c| + 2
  {
  }

  lemma SplitPieces(s: seq<Byte>, line: seq<Byte>, a: seq<Byte>, b: seq<Byte>, c: seq<Byte>, headers: seq<Byte>)
    requires At(s, 0, line + CRLF + headers + CRLF) && |s| == |line| + |headers| + 4
    requires line == a + [SP] + b + [SP] + c
    ensures Pieces(s, a, b, c, headers)
  {
    SplitLines(s, line, headers);
    SplitFields(s, line, a, b, c);
    LineLength(a, b, c);
    JoinPieces(s, |line|, a, b, c, headers);
  }

  lemma Split(a: seq<Byte>, b: seq<Byte>, c: seq<Byte>, headers: seq<Byte>)
    ensures Pieces(PrintMessage(a, b, c, headers), a, b, c, headers)
  {
    WholeAt(PrintMessage(a, b, c, headers));
    SplitPieces(PrintMessage(a, b, c, headers), a + [SP] + b + [SP] + c, a, b, c, headers);
  }

  /** The same, with the positions named: where the second and the third field begin, and where the line ends. */
  ghost predicate Placed(s: seq<Byte>, a: seq<Byte>, p: nat, b: seq<Byte>, q: nat, c: seq<Byte>, end: nat, headers: seq<Byte>) {
    p > 0 && q > 0 && At(s, 0, a) && At(s, p - 1, [SP]) && At(s, p, b) && At(s, q - 1, [SP]) && At(s, q, c) && At(s, end, CRLF)
    && PlacedHeaders(s, end + 2, headers)
  }

  ghost predicate PlacedHeaders(s: seq<Byte>, i: nat, headers: seq<Byte>) {
    At(s, i, headers) && At(s, i + |headers|, CRLF) && |s| == i + |headers| + 2
  }

  lemma PlacePieces(s: seq<Byte>, a: seq<Byte>, p: nat, b: seq<Byte>, q: nat, c: seq<Byte>, end: nat, headers: seq<Byte>)
    requires Pieces(s, a, b, c, headers) && p == |a| + 1 && q == |a| + |b| + 2 && end == |a| + |b| + |c| + 2
    ensures Placed(s, a, p, b, q, c, end, headers)
  {
  }

  /** The outcome of the headers of a printed message. */
  lemma LastHeaders(s: seq<Byte>, i: nat, hs: seq<Header>, printed: seq<Byte>) returns (r: Parsed<seq<Header>>)
    requires printed == PrintHeaders(hs) && PlacedHeaders(s, i, printed) && ParsedHeaders(hs)
    ensures r == Headers(s, i, true) && r == if WellFormedHeaders(hs) then Ok(hs, |s|) else Malformed
  {
    r := PrintedHeaders(s, i, hs, true);
  }

  lemma PrintedTarget(s: seq<Byte>, verb: seq<Byte>, p: nat, path: seq<Byte>, q: nat)
    requires p == |verb| + 1 && q == p + |path| + 1 && q < |s| && s[q] != SP
    requires At(s, 0, verb) && At(s, p - 1, [SP]) && verb != [] && AllIn(Token, verb)
    requires At(s, p, path) && At(s, q - 1, [SP]) && path != [] && AllIn(PathByte, path)
    ensures LeadingLine(s) == Ok((), 0)
    ensures ParseTarget(s, 0) == Ok(Target(verb, path), q)
  {
    AtIndex(s, 0, verb, 0);
    AtIndex(s, p, path, 0);
    PrintedField(Token, s, 0, verb);
    PrintedField(PathByte, s, p, path);
  }

  lemma PrintedVersionEnd(s: seq<Byte>, i: nat, version: seq<Byte>, minor: int, end: nat)
    requires version == PrintVersion(1, minor) && 0 <= minor <= 9 && At(s, i, version) && end == i + 8 && At(s, end, CRLF)
    ensures i < |s| && s[i] != SP && Version(s, i) == Ok(minor, end) && Eol(s, end) == Ok((), end + 2)
  {
    PrintedEol(s, end);
    PrintedVersion(s, i, minor);
  }

  lemma RequestLineParts(s: seq<Byte>, verb: seq<Byte>, path: seq<Byte>, minor: int, i: nat, end: nat)
    requires ParseTarget(s, 0) == Ok(Target(verb, path), i) && i <= |s| && Version(s, i) == Ok(minor, end) && end <= |s|
    requires Eol(s, end) == Ok((), end + 2)
    ensures RequestLine(s, 0) == Ok(Request(verb, path, 1, minor, []), end + 2)
  {
  }

  lemma PrintedRequestLine(s: seq<Byte>, r: Request, p: nat, q: nat, version: seq<Byte>, end: nat)
    requires p == |r.verb| + 1 && q == p + |r.path| + 1 && end == q + 8 && version == PrintVersion(1, r.minor) && WellFormedTarget(r)
    requires At(s, 0, r.verb) && At(s, p - 1, [SP]) && At(s, p, r.path) && At(s, q - 1, [SP]) && At(s, q, version) && At(s, end, CRLF)
    ensures LeadingLine(s) == Ok((), 0)
    ensures RequestLine(s, 0) == Ok(r.(headers := []), end + 2)
  {
    PrintedVersionEnd(s, q, version, r.minor, end);
    PrintedTarget(s, r.verb, p, r.path, q);
    RequestLineParts(s, r.verb, r.path, r.minor, q, end);
  }

  lemma RequestParts(s: seq<Byte>, line: Request, i: nat, hs: Parsed<seq<Header>>)
    requires LeadingLine(s) == Ok((), 0) && RequestLine(s, 0) == Ok(line, i) && hs == Headers(s, i, true)
    ensures ParseRequest(s) == if hs.Ok? then Ok(line.(headers := hs.value), hs.next) else hs.PropagateFailure()
  {
  }

  lemma PrintedRequest(s: seq<Byte>, r: Request, version: seq<Byte>, headers: seq<Byte>)
    requires Pieces(s, r.verb, r.path, version, headers) && version == PrintVersion(1, r.minor) && headers == PrintHeaders(r.headers)
    requires WellFormedTarget(r) && ParsedHeaders(r.headers)
    ensures ParseRequest(s) == if WellFormedHeaders(r.headers) then Ok(r, |s|) else Malformed
  {
    VersionLength(r.minor);
    var p, q, end := |r.verb| + 1, |r.verb| + |r.path| + 2, |r.verb| + |r.path| + 10;
    PlacePieces(s, r.verb, p, r.path, q, version, end, headers);
    PlacedRequest(s, r, p, q, version, end, headers);
  }

  lemma PlacedRequest(s: seq<Byte>, r: Request, p: nat, q: nat, version: seq<Byte>, end: nat, headers: seq<Byte>)
    requires Placed(s, r.verb, p, r.path, q, version, end, headers) && p == |r.verb| + 1 && q == p + |r.path| + 1 && end == q + 8
    requires version == PrintVersion(1, r.minor) && headers == PrintHeaders(r.headers) && WellFormedTarget(r) && ParsedHeaders(r.headers)
    ensures ParseRequest(s) == if WellFormedHeaders(r.headers) then Ok(r, |s|) else Malformed
  {
    PrintedRequestLine(s, r, p, q, version, end);
    RequestHeaders(s, r, end + 2, headers);
  }

  lemma RequestHeaders(s: seq<Byte>, r: Request, i: nat, headers: seq<Byte>)
    requires LeadingLine(s) == Ok((), 0) && RequestLine(s, 0) == Ok(r.(headers := []), i)
    requires headers == PrintHeaders(r.headers) && PlacedHeaders(s, i, headers) && ParsedHeaders(r.headers)
    ensures ParseRequest(s) == if WellFormedHeaders(r.headers) then Ok(r, |s|) else Malformed
  {
    var hs := LastHeaders(s, i, r.headers, headers);
    RequestParts(s, r.(headers := []), i, hs);
  }

  // ---------------------------------------------------------------- what the parser delivers

  lemma SkippedIn(c: Class, s: seq<Byte>, i: nat)
    requires i <= |s|
    ensures AllIn(c, Bytes(s, i, Skip(c, s, i)))
    ensures Skip(c, s, i) < |s| ==> !In(c, s[Skip(c, s, i)])
  {
    var j := Skip(c, s, i);
    SkipIs(c, s, i, j);
    BytesIs(s, i, j);
  }

  lemma NameParsed(s: seq<Byte>, i: nat, first: bool)
    requires i < |s| && Name(s, i, first).Ok?
    ensures var r := Name(s, i, first); AllIn(Token, r.value) && (r.value != [] ==> r.next < |s| && !In(Blank, s[r.next]))
  {
    SkippedIn(Token, s, i);
    var w := Word(Token, s, i, COLON);
    if w.Ok? { SkippedIn(Blank, s, w.next + 1); }
  }

  lemma HeaderLineParsed(s: seq<Byte>, i: nat, first: bool)
    requires i < |s| && HeaderLine(s, i, first).Ok?
    ensures ParsedHeader(HeaderLine(s, i, first).value)
  {
    NameParsed(s, i, first);
    var v := Name(s, i, first).next;
    SkippedIn(LineByte, s, v);
    TrimEndIs(Line(s, v).value);
  }

  lemma {:induction false} HeadersParsed(s: seq<Byte>, i: nat, first: bool)
    requires i <= |s| && Headers(s, i, first).Ok?
    ensures ParsedHeaders(Headers(s, i, first).value)
    decreases |s| - i
  {
    if !IsEol(s[i]) {
      HeaderLineParsed(s, i, first);
      HeadersParsed(s, HeaderLine(s, i, first).next, false);
    }
  }

  lemma TargetParsed(s: seq<Byte>, i: nat)
    requires i <= |s| && ParseTarget(s, i).Ok?
    ensures var t := ParseTarget(s, i).value; AllIn(Token, t.verb) && AllIn(PathByte, t.path) && t.verb != [] && t.path != []
  {
    SkippedIn(Token, s, i);
    SkippedIn(PathByte, s, Field(Token, s, i).next);
  }

  lemma RequestParsed(s: seq<Byte>)
    requires ParseRequest(s).Ok?
    ensures WellFormedTarget(ParseRequest(s).value) && ParsedHeaders(ParseRequest(s).value.headers)
  {
    var i := LeadingLine(s).next;
    TargetParsed(s, i);
    HeadersParsed(s, RequestLine(s, i).next, true);
  }

  /** Parsing what was printed gives the same request, and ends where it ends, exactly for well-formed requests. */
  lemma RequestRoundTrip(r: Request)
    ensures ParseRequest(PrintRequest(r)) == Ok(r, |PrintRequest(r)|) <==> WellFormedRequest(r)
  {
    if ParseRequest(PrintRequest(r)) == Ok(r, |PrintRequest(r)|) { RequestParsed(PrintRequest(r)); }
    if WellFormedTarget(r) && ParsedHeaders(r.headers) {
      Split(r.verb, r.path, PrintVersion(1, r.minor), PrintHeaders(r.headers));
      PrintedRequest(PrintRequest(r), r, PrintVersion(1, r.minor), PrintHeaders(r.headers));
    }
  }

  // ---------------------------------------------------------------- responses

  lemma AtJoin(s: seq<Byte>, i: nat, a: seq<Byte>, b: seq<Byte>)
    requires At(s, i, a) && At(s, i + |a|, b)
    ensures At(s, i, a + b)
  {
    forall k | 0 <= k < |a| + |b| ensures (a + b)[k] == s[i + k] { assert k >= |a| ==> (a + b)[k] == b[k - |a|]; }
  }

  lemma PrintedVersionField(s: seq<Byte>, minor: int)
    requires At(s, 0, PrintVersion(1, minor)) && 0 <= minor <= 9 && At(s, 8, [SP]) && 9 < |s| && s[9] != SP
    ensures VersionField(s) == Ok(minor, 9)
  {
    PrintedVersion(s, 0, minor);
    AtIndex(s, 8, [SP], 0);
  }

  lemma DecimalDigits(n: int)
    requires 0 <= n <= 999
    ensures n < 10 ==> Decimal(n) == [ZERO + n]
    ensures 10 <= n < 100 ==> Decimal(n) == [ZERO + n / 10, ZERO + n % 10]
    ensures 100 <= n ==> Decimal(n) == [ZERO + n / 100, ZERO + n / 10 % 10, ZERO + n % 10]
  {
    if n >= 10 {
      assert n / 10 < 100 && n / 10 / 10 == n / 100;
      assert n / 10 >= 10 ==> Decimal(n / 10) == [ZERO + n / 10 / 10] + [ZERO + n / 10 % 10];
    }
  }

  lemma StatusDigits(s: seq<Byte>, i: nat, digits: seq<Byte>)
    requires At(s, i, digits) && At(s, i + |digits|, [SP]) && i + |digits| + 3 <= |s|
    requires 0 < |digits| <= 3 && forall k :: 0 <= k < |digits| ==> Digit(digits[k])
    ensures s[i] != SP
    ensures |digits| < 3 ==> Status(s, i) == Malformed
    ensures |digits| == 3 ==>
      Status(s, i) == Ok(100 * (digits[0] - ZERO) + 10 * (digits[1] - ZERO) + (digits[2] - ZERO), i + 3)
  {
    AtIndex(s, i, digits, 0);
    if |digits| > 1 { AtIndex(s, i, digits, 1); }
    if |digits| > 2 { AtIndex(s, i, digits, 2); }
    AtIndex(s, i + |digits|, [SP], 0);
  }

  lemma PrintedStatus(s: seq<Byte>, i: nat, n: int)
    requires 0 <= n <= 999 && At(s, i, Decimal(n)) && At(s, i + |Decimal(n)|, [SP]) && i + |Decimal(n)| + 3 <= |s|
    ensures i < |s| && s[i] != SP
    ensures Status(s, i) == if n >= 100 then Ok(n, i + 3) else Malformed
    ensures n >= 100 ==> |Decimal(n)| == 3
  {
    DecimalDigits(n);
    StatusDigits(s, i, Decimal(n));
  }

  lemma PrintedMessage(s: seq<Byte>, i: nat, m: seq<Byte>)
    requires At(s, i, [SP]) && At(s, i + 1, m) && At(s, i + 1 + |m|, CRLF)
    requires AllIn(LineByte, m) && (|m| > 0 ==> m[0] != SP)
    ensures Message(s, i) == Ok(m, i + |m| + 3)
  {
    AtJoin(s, i, [SP], m);
    PrintedLine(s, i, [SP] + m);
    assert ([SP] + m)[1..] == m && TrimSpaces(m) == m;
  }

  lemma StatusParts(s: seq<Byte>, minor: int, status: Parsed<int>, message: Parsed<seq<Byte>>)
    requires VersionField(s) == Ok(minor, 9) && status == Status(s, 9)
    requires status.Ok? ==> message == Message(s, status.next)
    ensures status.Malformed? ==> StatusLine(s) == Malformed
    ensures status.Ok? && message.Ok? ==> StatusLine(s) == Ok(Response(1, minor, status.value, message.value, []), message.next)
  {
  }

  /** What the first two fields of a printed response parse to. */
  lemma StatusFields(s: seq<Byte>, minor: int, status: int, version: seq<Byte>, digits: seq<Byte>, q: nat)
    requires 0 <= minor <= 9 && 0 <= status <= 999 && version == PrintVersion(1, minor) && digits == Decimal(status)
    requires At(s, 0, version) && At(s, 8, [SP]) && At(s, 9, digits) && q == |digits| + 10 && At(s, q - 1, [SP]) && q + 2 <= |s|
    ensures VersionField(s) == Ok(minor, 9)
    ensures Status(s, 9) == if status >= 100 then Ok(status, 12) else Malformed
    ensures status >= 100 ==> q == 13
  {
    PrintedStatus(s, 9, status);
    PrintedVersionField(s, minor);
  }

  lemma MessageField(s: seq<Byte>, minor: int, status: int, message: seq<Byte>, end: nat)
    requires VersionField(s) == Ok(minor, 9) && Status(s, 9) == Ok(status, 12)
    requires At(s, 12, [SP]) && At(s, 13, message) && end == 13 + |message| && At(s, end, CRLF)
    requires AllIn(LineByte, message) && (|message| > 0 ==> message[0] != SP)
    ensures StatusLine(s) == Ok(Response(1, minor, status, message, []), end + 2)
  {
    PrintedMessage(s, 12, message);
    StatusParts(s, minor, Ok(status, 12), Ok(message, end + 2));
  }

  lemma BadStatus(s: seq<Byte>, minor: int)
    requires VersionField(s) == Ok(minor, 9) && Status(s, 9) == Malformed
    ensures ParseResponse(s) == Malformed
  {
    StatusParts(s, minor, Malformed, Malformed);
  }

  lemma GoodStatus(s: seq<Byte>, r: Response, end: nat, headers: seq<Byte>)
    requires VersionField(s) == Ok(r.minor, 9) && Status(s, 9) == Ok(r.status, 12) && WellFormedStatusLine(r)
    requires At(s, 12, [SP]) && At(s, 13, r.message) && end == 13 + |r.message| && At(s, end, CRLF)
    requires headers == PrintHeaders(r.headers) && PlacedHeaders(s, end + 2, headers) && ParsedHeaders(r.headers)
    ensures ParseResponse(s) == if WellFormedHeaders(r.headers) then Ok(r, |s|) else Malformed
  {
    MessageField(s, r.minor, r.status, r.message, end);
    var hs := LastHeaders(s, end + 2, r.headers, headers);
    ResponseParts(s, r.(headers := []), end + 2, hs);
  }

  lemma PlacedResponse(s: seq<Byte>, r: Response, version: seq<Byte>, digits: seq<Byte>, q: nat, end: nat, headers: seq<Byte>)
    requires Placed(s, version, 9, digits, q, r.message, end, headers) && q == |digits| + 10 && end == q + |r.message|
    requires version == PrintVersion(1, r.minor) && digits == Decimal(r.status) && headers == PrintHeaders(r.headers)
    requires WellFormedStatusLine(r) && 0 <= r.status <= 999 && ParsedHeaders(r.headers)
    ensures ParseResponse(s) == if r.status >= 100 && WellFormedHeaders(r.headers) then Ok(r, |s|) else Malformed
  {
    StatusFields(s, r.minor, r.status, version, digits, q);
    if r.status >= 100 {
      GoodStatus(s, r, end, headers);
    } else {
      BadStatus(s, r.minor);
    }
  }

  lemma PrintedResponse(s: seq<Byte>, r: Response, version: seq<Byte>, digits: seq<Byte>, headers: seq<Byte>)
    requires Pieces(s, version, digits, r.message, headers)
    requires version == PrintVersion(1, r.minor) && digits == Decimal(r.status) && headers == PrintHeaders(r.headers)
    requires WellFormedStatusLine(r) && 0 <= r.status <= 999 && ParsedHeaders(r.headers)
    ensures ParseResponse(s) == if r.status >= 100 && WellFormedHeaders(r.headers) then Ok(r, |s|) else Malformed
  {
    VersionLength(r.minor);
    var q := |digits| + 10;
    PlacePieces(s, version, 9, digits, q, r.message, q + |r.message|, headers);
    PlacedResponse(s, r, version, digits, q, q + |r.message|, headers);
  }

  lemma ResponseParts(s: seq<Byte>, line: Response, i: nat, hs: Parsed<seq<Header>>)
    requires StatusLine(s) == Ok(line, i) && hs == Headers(s, i, true)
    ensures ParseResponse(s) == if hs.Ok? then Ok(line.(headers := hs.value), hs.next) else hs.PropagateFailure()
  {
  }

  lemma {:induction false} TrimSpacesIn(v: seq<Byte>)
    requires AllIn(LineByte, v)
    ensures AllIn(LineByte, TrimSpaces(v)) && (|TrimSpaces(v)| > 0 ==> TrimSpaces(v)[0] != SP)
  {
    if |v| > 0 && v[0] == SP { TrimSpacesIn(v[1..]); }
  }

  lemma StatusLineParsed(s: seq<Byte>)
    requires StatusLine(s).Ok?
    ensures WellFormedStatusLine(StatusLine(s).value) && 0 <= StatusLine(s).value.status <= 999
  {
    var i := Status(s, VersionField(s).next).next;
    SkippedIn(LineByte, s, i);
    TrimSpacesIn(Line(s, i).value);
  }

  lemma ResponseParsed(s: seq<Byte>)
    requires ParseResponse(s).Ok?
    ensures var r := ParseResponse(s).value; WellFormedStatusLine(r) && 0 <= r.status <= 999 && ParsedHeaders(r.headers)
  {
    StatusLineParsed(s);
    HeadersParsed(s, StatusLine(s).next, true);
  }

  /** Parsing what was printed gives the same response, and ends where it ends, exactly for well-formed responses. */
  lemma ResponseRoundTrip(r: Response)
    ensures ParseResponse(PrintResponse(r)) == Ok(r, |PrintResponse(r)|) <==> WellFormedResponse(r)
  {
    if ParseResponse(PrintResponse(r)) == Ok(r, |PrintResponse(r)|) { ResponseParsed(PrintResponse(r)); }
    if WellFormedStatusLine(r) && 0 <= r.status <= 999 && ParsedHeaders(r.headers) {
      Split(PrintVersion(1, r.minor), Decimal(r.status), r.message, PrintHeaders(r.headers));
      PrintedResponse(PrintResponse(r), r, PrintVersion(1, r.minor), Decimal(r.status), PrintHeaders(r.headers));
    }
  }

  // ---------------------------------------------------------------- the source's loops

  /** `parse_token`, and the loop that finds the end of the path. */
  method ScanWord(c: Class, s: seq<Byte>, i: nat, stop: Byte) returns (r: Parsed<seq<Byte>>)
    requires i <= |s| && !In(c, stop)
    ensures r == Word(c, s, i, stop)
  {
    if i == |s| { return Incomplete; }
    var p := i;
    while s[p] != stop
      invariant i <= p < |s| && Skip(c, s, i) == Skip(c, s, p)
      decreases |s| - p
    {
      if !In(c, s[p]) { return Malformed; }
      p := p + 1;
      if p == |s| { return Incomplete; }
    }
    BytesIs(s, i, p);
    r := Ok(s[i..p], p);
  }

  method ScanOver(c: Class, s: seq<Byte>, i: nat) returns (r: Parsed<()>)
    requires i < |s|
    ensures r == Over(c, s, i)
  {
    var p := i + 1;
    while p < |s| && In(c, s[p])
      invariant i < p <= |s| && Skip(c, s, i + 1) == Skip(c, s, p)
      decreases |s| - p
    {
      p := p + 1;
    }
    r := if p == |s| then Incomplete else Ok((), p);
  }

  /** A control character other than a tab. */
  predicate Ctl(b: Byte) { (b < SP && b != TAB) || b == DEL }

  /** Eight bytes at a time while there are eight left; `found` when it stopped at a control character. */
  method ScanByEights(s: seq<Byte>, i: nat) returns (p: nat, found: bool)
    requires i <= |s|
    ensures i <= p <= |s| && Skip(LineByte, s, i) == Skip(LineByte, s, p)
    ensures found ==> p < |s| && Ctl(s[p])
    ensures !found ==> |s| - p < 8
  {
    p, found := i, false;
    while |s| - p >= 8 && !found
      invariant i <= p <= |s| && Skip(LineByte, s, i) == Skip(LineByte, s, p)
      invariant found ==> p < |s| && Ctl(s[p])
      decreases |s| - p, if found then 0 else 1
    {
      ghost var before := p;
      var k := 0;
      while k < 8 && PrintableAscii(s[p])
        invariant 0 <= k <= 8 && p == before + k && before + 8 <= |s| && Skip(LineByte, s, i) == Skip(LineByte, s, p)
      {
        p, k := p + 1, k + 1;
      }
      if k < 8 {
        if Ctl(s[p]) { found := true; } else { p := p + 1; }
      }
    }
  }

  /** `get_token_to_eol`: the fast scan agrees with the plain one. */
  method GetTokenToEol(s: seq<Byte>, i: nat) returns (r: Parsed<seq<Byte>>)
    requires i <= |s|
    ensures r == Line(s, i)
  {
    var p, found := ScanByEights(s, i);
    while !found
      invariant i <= p <= |s| && Skip(LineByte, s, i) == Skip(LineByte, s, p)
      invariant found ==> p < |s| && Ctl(s[p])
      decreases |s| - p, if found then 0 else 1
    {
      if p == |s| { return Incomplete; }
      if !PrintableAscii(s[p]) && Ctl(s[p]) { found := true; } else { p := p + 1; }
    }
    BytesIs(s, i, p);
    if s[p] == CR {
      if p + 1 == |s| { return Incomplete; }
      return if s[p + 1] == LF then Ok(s[i..p], p + 2) else Malformed;
    }
    r := if s[p] == LF then Ok(s[i..p], p + 1) else Malformed;
  }

  method TrimBlanksAtEnd(v: seq<Byte>) returns (r: seq<Byte>)
    ensures r == TrimEnd(v)
  {
    var end := |v|;
    assert v[..end] == v;
    while end != 0 && In(Blank, v[end - 1])
      invariant end <= |v| && TrimEnd(v) == TrimEnd(v[..end])
    {
      assert v[..end][..end - 1] == v[..end - 1];
      end := end - 1;
    }
    r := v[..end];
  }

  method ParseName(s: seq<Byte>, i: nat, first: bool) returns (r: Parsed<seq<Byte>>)
    requires i < |s|
    ensures r == Name(s, i, first)
  {
    if !first && In(Blank, s[i]) { return Ok([], i); }
    var name := ScanWord(Token, s, i, COLON);
    if !name.Ok? { return name; }
    if |name.value| == 0 { return Malformed; }
    var over := ScanOver(Blank, s, name.next);
    r := if over.Ok? then Ok(name.value, over.next) else over.PropagateFailure();
  }

  function Append(hs: seq<Header>, rest: Parsed<seq<Header>>): Parsed<seq<Header>> {
    if rest.Ok? then Ok(hs + rest.value, rest.next) else rest
  }

  lemma AppendCons(hs: seq<Header>, h: Header, rest: Parsed<seq<Header>>)
    ensures Append(hs, Cons(h, rest)) == Append(hs + [h], rest)
  {
    if rest.Ok? { assert hs + ([h] + rest.value) == hs + [h] + rest.value; }
  }

  method ParseHeaderLine(s: seq<Byte>, i: nat, first: bool) returns (r: Parsed<Header>)
    requires i < |s|
    ensures r == HeaderLine(s, i, first)
  {
    var name := ParseName(s, i, first);
    if !name.Ok? { return name.PropagateFailure(); }
    var value := GetTokenToEol(s, name.next);
    if !value.Ok? { return value.PropagateFailure(); }
    var trimmed := TrimBlanksAtEnd(value.value);
    r := Ok(Header(name.value, trimmed), value.next);
  }

  method ParseEol(s: seq<Byte>, i: nat) returns (r: Parsed<()>)
    requires i < |s| && IsEol(s[i])
    ensures r == Eol(s, i)
  {
    if s[i] == LF { return Ok((), i + 1); }
    if i + 1 == |s| { return Incomplete; }
    r := if s[i + 1] == LF then Ok((), i + 2) else Malformed;
  }

  /** `parse_headers_impl`. */
  method ParseHeaders(s: seq<Byte>, i: nat) returns (r: Parsed<seq<Header>>)
    requires i <= |s|
    ensures r == Headers(s, i, true)
  {
    var hs: seq<Header> := [];
    var p := i;
    assert Headers(s, i, true).Ok? ==> [] + Headers(s, i, true).value == Headers(s, i, true).value;
    while true
      invariant i <= p <= |s| && Headers(s, i, true) == Append(hs, Headers(s, p, hs == []))
      decreases |s| - p
    {
      if p == |s| { return Incomplete; }
      if IsEol(s[p]) {
        var end := ParseEol(s, p);
        assert hs + [] == hs;
        return if end.Ok? then Ok(hs, end.next) else end.PropagateFailure();
      }
      var h := ParseHeaderLine(s, p, hs == []);
      if !h.Ok? { return h.PropagateFailure(); }
      AppendCons(hs, h.value, Headers(s, h.next, false));
      hs, p := hs + [h.value], h.next;
    }
  }

  method ParseField(c: Class, s: seq<Byte>, i: nat) returns (r: Parsed<seq<Byte>>)
    requires i <= |s| && !In(c, SP)
    ensures r == Field(c, s, i)
  {
    var word := ScanWord(c, s, i, SP);
    if !word.Ok? { return word; }
    var over := ScanOver(Space, s, word.next);
    r := if over.Ok? then Ok(word.value, over.next) else over.PropagateFailure();
  }

  method ParseRequestLine(s: seq<Byte>, i: nat) returns (r: Parsed<Request>)
    requires i <= |s|
    ensures r == RequestLine(s, i)
  {
    var verb := ParseField(Token, s, i);
    if !verb.Ok? { return verb.PropagateFailure(); }
    var path := ParseField(PathByte, s, verb.next);
    if !path.Ok? { return path.PropagateFailure(); }
    if |verb.value| == 0 || |path.value| == 0 { return Malformed; }
    var version := Version(s, path.next);
    if !version.Ok? { return version.PropagateFailure(); }
    if !IsEol(s[version.next]) { return Malformed; }
    var end := ParseEol(s, version.next);
    if !end.Ok? { return end.PropagateFailure(); }
    r := Ok(Request(verb.value, path.value, 1, version.value, []), end.next);
  }

  /** `Request::parse`, after its fields have been reset. */
  method RequestParse(s: seq<Byte>) returns (r: Parsed<Request>)
    ensures r == ParseRequest(s)
  {
    if |s| == 0 { return Incomplete; }
    var i := 0;
    if IsEol(s[0]) {
      var skipped := ParseEol(s, 0);
      if !skipped.Ok? { return skipped.PropagateFailure(); }
      i := skipped.next;
    }
    var line := ParseRequestLine(s, i);
    if !line.Ok? { return line; }
    var hs := ParseHeaders(s, line.next);
    if !hs.Ok? { return hs.PropagateFailure(); }
    r := Ok(line.value.(headers := hs.value), hs.next);
  }

  /** The spaces before the reason phrase. */
  method TrimSpacesAtStart(v: seq<Byte>) returns (r: seq<Byte>)
    ensures r == TrimSpaces(v)
  {
    r := v;
    while |r| > 0 && r[0] == SP
      invariant TrimSpaces(v) == TrimSpaces(r)
    {
      r := r[1..];
    }
  }

  method ParseStatusLine(s: seq<Byte>) returns (r: Parsed<Response>)
    ensures r == StatusLine(s)
  {
    var version := Version(s, 0);
    if !version.Ok? { return version.PropagateFailure(); }
    if s[version.next] != SP { return Malformed; }
    var over := ScanOver(Space, s, version.next);
    if !over.Ok? { return over.PropagateFailure(); }
    var status := Status(s, over.next);
    if !status.Ok? { return status.PropagateFailure(); }
    var line := GetTokenToEol(s, status.next);
    if !line.Ok? { return line.PropagateFailure(); }
    if |line.value| > 0 && line.value[0] != SP { return Malformed; }
    var message := TrimSpacesAtStart(line.value);
    r := Ok(Response(1, version.value, status.value, message, []), line.next);
  }

  /** `Response::parse`, after its fields have been reset. */
  method ResponseParse(s: seq<Byte>) returns (r: Parsed<Response>)
    ensures r == ParseResponse(s)
  {
    var line := ParseStatusLine(s);
    if !line.Ok? { return line; }
    var hs := ParseHeaders(s, line.next);
    if !hs.Ok? { return hs.PropagateFailure(); }
    r := Ok(line.value.(headers := hs.value), hs.next);
  }
}
