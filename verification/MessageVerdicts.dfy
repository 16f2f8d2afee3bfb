/**
  What the parser says of bytes that do not begin with a message: `Incomplete` exactly for what can still become
  a message, and for beginnings whose fault is looked for later; `Malformed` for the rest.
 */
module MessageVerdicts {
  import opened ByteTypes
  import opened HttpParser
  import opened MessageGrammar
  import opened Wrappers

  // ---------------------------------------------------------------- headers that go on

  lemma NameStable(s: seq<Byte>, t: seq<Byte>, i: nat, first: bool)
    requires i < |s| && Name(s, i, first).Ok?
    ensures Name(s + t, i, first) == Name(s, i, first)
  {
    WordStable(Token, s, t, i, COLON);
    var w := Word(Token, s, i, COLON);
    if w.Ok? { OverStable(Blank, s, t, w.next); }
  }

  lemma AtPrefix(s: seq<Byte>, t: seq<Byte>, i: nat, piece: seq<Byte>)
    requires At(s, i, piece)
    ensures At(s + t, i, piece)
  {
    forall k | 0 <= k < |piece| ensures piece[k] == (s + t)[i + k] { assert (s + t)[i + k] == s[i + k]; }
  }

  lemma AtEnd(s: seq<Byte>, t: seq<Byte>, i: nat)
    requires i == |s|
    ensures At(s + t, i, t)
  {
  }

  function TwoEnds(): seq<Byte> { EndBytes(CrLf) + EndBytes(CrLf) }

  lemma HeaderLineIs(s: seq<Byte>, i: nat, first: bool, name: seq<Byte>, v: nat, text: seq<Byte>, next: nat)
    requires i < |s| && Name(s, i, first) == Ok(name, v) && Line(s, v) == Ok(text, next)
    ensures HeaderLine(s, i, first) == Ok(Header(name, TrimEnd(text)), next)
  {
  }

  lemma EmptyLine(s: seq<Byte>, i: nat, first: bool) returns (r: Parsed<seq<Header>>)
    requires At(s, i, EndBytes(CrLf))
    ensures r == Headers(s, i, first) && r.Ok?
  {
    EndAt(s, i, CrLf);
    r := Headers(s, i, first);
  }

  /** A line, then the empty line that ends the headers. */
  lemma LastLine(s: seq<Byte>, i: nat, first: bool, name: seq<Byte>, v: nat, text: seq<Byte>, next: nat)
    requires i < |s| && !IsEol(s[i]) && Name(s, i, first) == Ok(name, v) && TextBytes(text)
    requires At(s, v, text + EndBytes(CrLf)) && next == v + |text| + 2 && At(s, next, EndBytes(CrLf))
    ensures Headers(s, i, first).Ok?
  {
    LineAt(s, v, text, CrLf);
    HeaderLineIs(s, i, first, name, v, text, next);
    var rest := EmptyLine(s, next, false);
    HeadersCons(s, i, first, Header(name, TrimEnd(text)), next, rest);
  }

  lemma EmptyLastLine(s: seq<Byte>, i: nat, first: bool, name: seq<Byte>, v: nat)
    requires i < |s| && !IsEol(s[i]) && Name(s, i, first) == Ok(name, v) && At(s, v, TwoEnds())
    ensures Headers(s, i, first).Ok?
  {
    AtConcat(s, v, EndBytes(CrLf), EndBytes(CrLf));
    assert [] + EndBytes(CrLf) == EndBytes(CrLf);
    LastLine(s, i, first, name, v, [], v + 2);
  }

  lemma NameThenEnds(s: seq<Byte>, i: nat, first: bool, name: seq<Byte>, colon: nat, before: seq<Byte>, v: nat)
    requires At(s, i, name) && colon == i + |name| && At(s, colon, [':' as int]) && At(s, colon + 1, before) && v == colon + 1 + |before|
    requires name != [] && AllIn(Token, name) && AllIn(Blank, before) && At(s, v, TwoEnds())
    ensures Headers(s, i, first).Ok?
  {
    ClassesAre(name);
    ClassesAre(before);
    AtIndex(s, v, TwoEnds(), 0);
    NameAt(s, i, first, name, colon, before, v);
    EmptyLastLine(s, i, first, name, v);
  }

  /** A name without its colon. */
  lemma CompleteName(s: seq<Byte>, i: nat, first: bool) returns (t: seq<Byte>)
    requires i < |s| && Skip(Token, s, i) == |s|
    ensures Headers(s + t, i, first).Ok?
  {
    t := [':' as int] + TwoEnds();
    var name := FindRun(Token, s, i, |s|);
    AtPrefix(s, t, i, name);
    AtEnd(s, t, |s|);
    AtConcat(s + t, |s|, [':' as int], TwoEnds());
    NameThenEnds(s + t, i, first, name, |s|, [], |s| + 1);
  }

  /** A name with its colon, and blanks. */
  lemma CompleteBlanks(s: seq<Byte>, i: nat, first: bool, name: seq<Byte>, colon: nat) returns (t: seq<Byte>)
    requires i < |s| && Word(Token, s, i, COLON) == Ok(name, colon) && name != [] && Skip(Blank, s, colon + 1) == |s|
    ensures Headers(s + t, i, first).Ok?
  {
    t := TwoEnds();
    var word := FindWord(Token, s, i, COLON);
    var before := FindRun(Blank, s, colon + 1, |s|);
    AtPrefix(s, t, i, name);
    AtPrefix(s, t, colon, [':' as int]);
    AtPrefix(s, t, colon + 1, before);
    AtEnd(s, t, |s|);
    NameThenEnds(s + t, i, first, name, colon, before, |s|);
  }

  lemma MissingEnds(s: seq<Byte>, j: nat) returns (t: seq<Byte>)
    requires j <= |s| && Eol(s, j).Incomplete?
    ensures At(s + t, j, EndBytes(CrLf)) && At(s + t, j + 2, EndBytes(CrLf))
  {
    t := if j == |s| then TwoEnds() else ['\n' as int] + EndBytes(CrLf);
  }

  /** Text that a line end must follow: what is missing of it, and of the empty line after it. */
  lemma CompleteText(s: seq<Byte>, v: nat, text: seq<Byte>) returns (t: seq<Byte>)
    requires v <= |s| && Line(s, v).Incomplete? && text == Bytes(s, v, Skip(LineByte, s, v))
    ensures TextBytes(text) && At(s + t, v, text + EndBytes(CrLf)) && At(s + t, v + |text| + 2, EndBytes(CrLf))
  {
    var j := Skip(LineByte, s, v);
    var piece := FindRun(LineByte, s, v, j);
    ClassesAre(text);
    t := MissingEnds(s, j);
    AtPrefix(s, t, v, text);
    AtJoin(s + t, v, text, EndBytes(CrLf));
  }

  lemma CompleteValue(s: seq<Byte>, i: nat, first: bool, name: seq<Byte>, v: nat) returns (t: seq<Byte>)
    requires i < |s| && !IsEol(s[i]) && Name(s, i, first) == Ok(name, v) && Line(s, v).Incomplete?
    ensures Headers(s + t, i, first).Ok?
  {
    var text := Bytes(s, v, Skip(LineByte, s, v));
    t := CompleteText(s, v, text);
    NameStable(s, t, i, first);
    LastLine(s + t, i, first, name, v, text, v + |text| + 2);
  }

  lemma CompleteLine(s: seq<Byte>, i: nat, first: bool) returns (t: seq<Byte>)
    requires i < |s| && !IsEol(s[i]) && HeaderLine(s, i, first).Incomplete?
    ensures Headers(s + t, i, first).Ok?
  {
    var n := Name(s, i, first);
    if n.Ok? {
      t := CompleteValue(s, i, first, n.value, n.next);
    } else {
      var w := Word(Token, s, i, COLON);
      if w.Ok? { t := CompleteBlanks(s, i, first, w.value, w.next); } else { t := CompleteName(s, i, first); }
    }
  }

  lemma CompleteEnd(s: seq<Byte>, i: nat, first: bool) returns (t: seq<Byte>)
    requires i <= |s| && (i < |s| ==> IsEol(s[i]) && Eol(s, i).Incomplete?)
    ensures Headers(s + t, i, first).Ok?
  {
    t := if i == |s| then EndBytes(CrLf) else ['\n' as int];
    assert At(s + t, i, EndBytes(CrLf));
    EndAt(s + t, i, CrLf);
  }

  lemma HeadersGoOn(s: seq<Byte>, t: seq<Byte>, i: nat, first: bool)
    requires i < |s| && !IsEol(s[i]) && HeaderLine(s, i, first).Ok? && Headers(s + t, HeaderLine(s, i, first).next, false).Ok?
    ensures Headers(s + t, i, first).Ok?
  {
    var h := HeaderLine(s, i, first);
    HeaderLineStable(s, t, i, first);
    HeadersCons(s + t, i, first, h.value, h.next, Headers(s + t, h.next, false));
  }

  /** Incomplete headers can be completed. */
  lemma {:induction false} CompleteHeaders(s: seq<Byte>, i: nat, first: bool) returns (t: seq<Byte>)
    requires i <= |s| && Headers(s, i, first).Incomplete?
    ensures Headers(s + t, i, first).Ok?
    decreases |s| - i
  {
    if i == |s| || IsEol(s[i]) {
      t := CompleteEnd(s, i, first);
    } else {
      var h := HeaderLine(s, i, first);
      if h.Ok? {
        t := CompleteHeaders(s, h.next, false);
        HeadersGoOn(s, t, i, first);
      } else {
        t := CompleteLine(s, i, first);
      }
    }
  }

  /** The bytes are the beginning, but not the whole, of headers of the grammar. */
  ghost predicate UnfinishedHeaders(s: seq<Byte>, ls: seq<FieldLine>, last: LineEnd) { ValidLines(ls, true) && s < HeadersBytes(ls, last) }

  lemma ProperPrefix(s: seq<Byte>, t: seq<Byte>, whole: seq<Byte>)
    requires whole <= s + t && |s| < |whole|
    ensures s < whole
  {
    assert (s + t)[..|s|] == s && whole[..|s|] == (s + t)[..|s|];
  }

  lemma PrefixOf(s: seq<Byte>, whole: seq<Byte>)
    requires s < whole
    ensures whole == s + whole[|s|..]
  {
  }

  /** Headers are found incomplete exactly if they can still be finished; so they are found malformed as soon as they cannot. */
  lemma HeadersVerdict(s: seq<Byte>)
    ensures Headers(s, 0, true).Incomplete? <==> exists ls, last :: UnfinishedHeaders(s, ls, last)
  {
    if Headers(s, 0, true).Incomplete? {
      var t := CompleteHeaders(s, 0, true);
      var ls, last := FindHeaders(s + t, 0, true);
      AtStart(s + t, HeadersBytes(ls, last));
      HeadersStable(s, t, 0, true);
      ProperPrefix(s, t, HeadersBytes(ls, last));
      assert UnfinishedHeaders(s, ls, last);
    }
    forall ls, last | UnfinishedHeaders(s, ls, last) ensures Headers(s, 0, true).Incomplete? {
      var whole := HeadersBytes(ls, last);
      PrefixOf(s, whole);
      AtStart(whole, whole);
      var r := HeadersAt(whole, 0, true, ls, last);
      HeadersStable(s, whole[|s|..], 0, true);
    }
  }

  // ---------------------------------------------------------------- requests

  /** The bytes are the beginning, but not the whole, of a request of the grammar. */
  ghost predicate UnfinishedRequest(s: seq<Byte>, t: RequestText) { ValidRequest(t) && s < RequestBytes(t) }

  /** There is no verb, which is looked for only after the spaces behind the path. */
  ghost predicate NoVerb(s: seq<Byte>, lead: Option<LineEnd>, gap: seq<Byte>, path: seq<Byte>, gap': seq<Byte>) {
    && gap != [] && Spaces(gap) && VisibleBytes(path) && Spaces(gap') && (path == [] ==> gap' == [])
    && s == LeadBytes(lead) + (gap + (path + gap'))
  }

  /** Fewer than nine bytes stand where the version should be; it is not looked at before. */
  ghost predicate ShortVersion(s: seq<Byte>, t: RequestText, v: seq<Byte>) {
    ValidTarget(t) && 0 < |v| < 9 && !SpaceByte(v[0]) && s == LeadBytes(t.lead) + (TargetBytes(t) + v)
  }

  ghost predicate CanGoOn(s: seq<Byte>) { exists t :: UnfinishedRequest(s, t) }

  ghost predicate LacksVerb(s: seq<Byte>) { exists lead, gap, path, gap' :: NoVerb(s, lead, gap, path, gap') }

  ghost predicate LacksVersion(s: seq<Byte>) { exists t, v :: ShortVersion(s, t, v) }

  function Shortest(lead: Option<LineEnd>, verb: seq<Byte>, gap: seq<Byte>, path: seq<Byte>, gap': seq<Byte>): RequestText {
    RequestText(lead, verb, gap, path, gap', 0, CrLf, [], CrLf)
  }

  function Verb(): seq<Byte> { ['A' as int] }

  function Root(): seq<Byte> { ['/' as int] }

  lemma PrefixGoesOn(s: seq<Byte>, t: RequestText, piece: seq<Byte>)
    requires ValidTarget(t) && t.minor == 0 && t.lines == [] && piece <= TargetBytes(t) && s == LeadBytes(t.lead) + piece
    ensures CanGoOn(s)
  {
    var more := TargetBytes(t)[|piece|..];
    assert TargetBytes(t) == piece + more;
    LeadPrefix(LeadBytes(t.lead), piece, more, VersionEnd(t.minor, t.end), HeadersBytes(t.lines, t.last));
    assert UnfinishedRequest(s, t);
  }

  lemma LeadPrefix(lead: seq<Byte>, piece: seq<Byte>, more: seq<Byte>, version: seq<Byte>, headers: seq<Byte>)
    requires headers != []
    ensures lead + piece < lead + (piece + more + version + headers)
  {
    assert lead + (piece + more + version + headers) == lead + piece + (more + version + headers);
  }

  lemma TokensGoOn(s: seq<Byte>, lead: Option<LineEnd>, verb: seq<Byte>)
    requires TokenBytes(verb) && s == LeadBytes(lead) + verb
    ensures CanGoOn(s)
  {
    TablesAre('A' as int);
    PrefixGoesOn(s, Shortest(lead, if verb == [] then Verb() else verb, OneSpace(), Root(), OneSpace()), verb);
  }

  lemma GapGoesOn(s: seq<Byte>, lead: Option<LineEnd>, verb: seq<Byte>, gap: seq<Byte>)
    requires TokenBytes(verb) && gap != [] && Spaces(gap) && s == LeadBytes(lead) + (verb + gap)
    ensures CanGoOn(s) || LacksVerb(s)
  {
    if verb == [] {
      assert verb + gap == gap + ([] + []);
      assert NoVerb(s, lead, gap, [], []);
    } else {
      var t := Shortest(lead, verb, gap, Root(), OneSpace());
      assert TargetBytes(t) == verb + gap + (Root() + OneSpace());
      PrefixGoesOn(s, t, verb + gap);
    }
  }

  lemma PathGoesOn(s: seq<Byte>, lead: Option<LineEnd>, verb: seq<Byte>, gap: seq<Byte>, path: seq<Byte>, gap': seq<Byte>)
    requires TokenBytes(verb) && gap != [] && Spaces(gap) && path != [] && VisibleBytes(path) && Spaces(gap')
    requires s == LeadBytes(lead) + (verb + (gap + (path + gap')))
    ensures CanGoOn(s) || LacksVerb(s)
  {
    if verb == [] {
      assert verb + (gap + (path + gap')) == gap + (path + gap');
      assert NoVerb(s, lead, gap, path, gap');
    } else {
      var t := Shortest(lead, verb, gap, path, if gap' == [] then OneSpace() else gap');
      assert gap' == [] ==> TargetBytes(t) == verb + (gap + (path + gap')) + OneSpace();
      PrefixGoesOn(s, t, verb + (gap + (path + gap')));
    }
  }

  lemma Whole(s: seq<Byte>, lead: seq<Byte>, i: nat, piece: seq<Byte>)
    requires At(s, 0, lead) && i == |lead| && At(s, i, piece) && |s| == i + |piece|
    ensures s == lead + piece
  {
    AtJoin(s, 0, lead, piece);
  }

  lemma IncompletePath(s: seq<Byte>, lead: Option<LineEnd>, i: nat, verb: seq<Byte>, gap: seq<Byte>, k: nat)
    requires At(s, 0, LeadBytes(lead)) && i == |LeadBytes(lead)| && At(s, i, verb + gap) && k == i + |verb + gap|
    requires TokenBytes(verb) && gap != [] && Spaces(gap) && k < |s| && !SpaceByte(s[k]) && Field(PathByte, s, k).Incomplete?
    ensures CanGoOn(s) || LacksVerb(s)
  {
    var path, gap' := FindPath(s, k);
    JoinFour(s, i, verb, gap, path, gap');
    Whole(s, LeadBytes(lead), i, verb + (gap + (path + gap')));
    PathGoesOn(s, lead, verb, gap, path, gap');
  }

  lemma FindPath(s: seq<Byte>, k: nat) returns (path: seq<Byte>, gap': seq<Byte>)
    requires k < |s| && !SpaceByte(s[k]) && Field(PathByte, s, k).Incomplete?
    ensures path != [] && VisibleBytes(path) && Spaces(gap') && At(s, k, path + gap') && |s| == k + |path + gap'|
  {
    var l := Skip(PathByte, s, k);
    path := FindRun(PathByte, s, k, l);
    ClassesAre(path);
    if l == |s| {
      gap' := [];
      assert path + gap' == path;
    } else {
      gap' := FindLastGap(s, l);
      AtJoin(s, k, path, gap');
    }
  }

  lemma FindLastGap(s: seq<Byte>, j: nat) returns (gap: seq<Byte>)
    requires j < |s| && s[j] == SP && Over(Space, s, j).Incomplete?
    ensures gap != [] && Spaces(gap) && At(s, j, gap) && |s| == j + |gap|
  {
    gap := FindRun(Space, s, j + 1, |s|);
    ClassesAre(gap);
    AtJoin(s, j, [SP], gap);
    gap := [SP] + gap;
  }

  lemma IncompleteVerb(s: seq<Byte>, lead: Option<LineEnd>, i: nat)
    requires At(s, 0, LeadBytes(lead)) && i == |LeadBytes(lead)| && Field(Token, s, i).Incomplete?
    ensures CanGoOn(s) || LacksVerb(s)
  {
    var j := Skip(Token, s, i);
    var verb := FindRun(Token, s, i, j);
    ClassesAre(verb);
    if j == |s| {
      Whole(s, LeadBytes(lead), i, verb);
      TokensGoOn(s, lead, verb);
    } else {
      var gap := FindLastGap(s, j);
      AtJoin(s, i, verb, gap);
      Whole(s, LeadBytes(lead), i, verb + gap);
      GapGoesOn(s, lead, verb, gap);
    }
  }

  lemma FieldStops(c: Class, s: seq<Byte>, i: nat)
    requires i <= |s| && Field(c, s, i).Ok?
    ensures !SpaceByte(s[Field(c, s, i).next])
  {
    var w := FindWord(c, s, i, SP);
    var gap := FindOver(Space, s, i + |w|);
  }

  lemma FindVerb(s: seq<Byte>, i: nat, k: nat) returns (verb: seq<Byte>, gap: seq<Byte>)
    requires i <= |s| && Field(Token, s, i).Ok? && k == Field(Token, s, i).next
    ensures TokenBytes(verb) && gap != [] && Spaces(gap) && At(s, i, verb + gap) && k == i + |verb + gap| && !SpaceByte(s[k])
  {
    verb, gap := FindField(Token, s, i);
    ClassesAre(verb);
    FieldStops(Token, s, i);
  }

  lemma IncompleteTarget(s: seq<Byte>, lead: Option<LineEnd>, i: nat)
    requires At(s, 0, LeadBytes(lead)) && i == |LeadBytes(lead)| && ParseTarget(s, i).Incomplete?
    ensures CanGoOn(s) || LacksVerb(s)
  {
    if Field(Token, s, i).Ok? {
      var k := Field(Token, s, i).next;
      var verb, gap := FindVerb(s, i, k);
      IncompletePath(s, lead, i, verb, gap, k);
    } else {
      IncompleteVerb(s, lead, i);
    }
  }

  lemma IncompleteLead(s: seq<Byte>)
    requires LeadingLine(s).Incomplete?
    ensures CanGoOn(s)
  {
    if s == [] {
      assert s == LeadBytes(None) + [];
      TokensGoOn(s, None, []);
    } else {
      var t := Shortest(Some(CrLf), Verb(), OneSpace(), Root(), OneSpace());
      TablesAre('A' as int);
      assert s < EndBytes(CrLf) + (FirstLine(t) + HeadersBytes(t.lines, t.last));
      assert UnfinishedRequest(s, t);
    }
  }

  lemma FindPlacedTarget(s: seq<Byte>, lead: Option<LineEnd>, i: nat) returns (t: RequestText)
    requires i <= |s| && ParseTarget(s, i).Ok?
    ensures ValidTarget(t) && t.lead == lead && t.lines == [] && t.end == CrLf && t.minor < 10
    ensures At(s, i, TargetBytes(t)) && ParseTarget(s, i).next == i + |TargetBytes(t)|
  {
    var verb, gap, path, gap' := FindTarget(s, i);
    t := Shortest(lead, verb, gap, path, gap');
  }

  lemma TargetStops(s: seq<Byte>, i: nat)
    requires i <= |s| && ParseTarget(s, i).Ok?
    ensures !SpaceByte(s[ParseTarget(s, i).next])
  {
    FieldStops(PathByte, s, Field(Token, s, i).next);
  }

  lemma IncompleteVersion(s: seq<Byte>, t: RequestText, i: nat, j: nat)
    requires At(s, 0, LeadBytes(t.lead)) && i == |LeadBytes(t.lead)| && At(s, i, TargetBytes(t)) && j == i + |TargetBytes(t)|
    requires ValidTarget(t) && j < |s| && !SpaceByte(s[j]) && |s| - j < 9
    ensures LacksVersion(s)
  {
    var v := s[j..];
    AtJoin(s, i, TargetBytes(t), v);
    Whole(s, LeadBytes(t.lead), i, TargetBytes(t) + v);
    assert ShortVersion(s, t, v);
  }

  lemma FirstLinePrefix(lead: seq<Byte>, target: seq<Byte>, version: seq<Byte>, headers: seq<Byte>)
    ensures lead + (target + (version + [CR])) < lead + (target + (version + EndBytes(CrLf)) + headers)
  {
    assert lead + (target + (version + EndBytes(CrLf)) + headers) == lead + (target + (version + [CR])) + ([LF] + headers);
  }

  lemma WholeOfThree(s: seq<Byte>, lead: seq<Byte>, i: nat, target: seq<Byte>, j: nat, version: seq<Byte>)
    requires At(s, 0, lead) && i == |lead| && At(s, i, target) && j == i + |target| && At(s, j, version)
    requires |s| == j + |version| + 1 && s[|s| - 1] == CR
    ensures s == lead + (target + (version + [CR]))
  {
    AtJoin(s, j, version, [CR]);
    AtJoin(s, i, target, version + [CR]);
    Whole(s, lead, i, target + (version + [CR]));
  }

  /** The line feed of the first line is missing. */
  lemma IncompleteFirstLine(s: seq<Byte>, t: RequestText, i: nat, j: nat)
    requires At(s, 0, LeadBytes(t.lead)) && i == |LeadBytes(t.lead)| && At(s, i, TargetBytes(t)) && j == i + |TargetBytes(t)|
    requires ValidTarget(t) && t.lines == [] && t.end == CrLf && t.minor < 10
    requires At(s, j, VersionBytes(t.minor)) && |s| == j + 9 && s[j + 8] == CR
    ensures CanGoOn(s)
  {
    WholeOfThree(s, LeadBytes(t.lead), i, TargetBytes(t), j, VersionBytes(t.minor));
    FirstLinePrefix(LeadBytes(t.lead), TargetBytes(t), VersionBytes(t.minor), HeadersBytes(t.lines, t.last));
    assert UnfinishedRequest(s, t);
  }

  lemma IncompleteVersionLine(s: seq<Byte>, lead: Option<LineEnd>, i: nat, j: nat)
    requires At(s, 0, LeadBytes(lead)) && i == |LeadBytes(lead)| && ParseTarget(s, i).Ok? && j == ParseTarget(s, i).next
    requires VersionLine(s, j).Incomplete?
    ensures CanGoOn(s) || LacksVersion(s)
  {
    var t := FindPlacedTarget(s, lead, i);
    TargetStops(s, i);
    if Version(s, j).Ok? {
      var minor := FindVersion(s, j);
      IncompleteFirstLine(s, t.(minor := minor), i, j);
    } else {
      IncompleteVersion(s, t, i, j);
    }
  }

  lemma IncompleteHeaders(s: seq<Byte>, i: nat, j: nat)
    requires LeadingLine(s) == Ok((), i) && RequestLine(s, i).Ok? && j == RequestLine(s, i).next && Headers(s, j, true).Incomplete?
    ensures CanGoOn(s)
  {
    var t := CompleteHeaders(s, j, true);
    LeadingLineStable(s, t);
    RequestLineStable(s, t, i);
    RequestGoesOn(s, t);
  }

  lemma RequestGoesOn(s: seq<Byte>, t: seq<Byte>)
    requires !ParseRequest(s).Ok? && ParseRequest(s + t).Ok?
    ensures CanGoOn(s)
  {
    var whole := FindRequest(s + t);
    RequestIsParsed(s + t, whole);
    AtStart(s + t, RequestBytes(whole));
    RequestStable(s, t);
    ProperPrefix(s, t, RequestBytes(whole));
    assert UnfinishedRequest(s, whole);
  }

  lemma IncompleteMeans(s: seq<Byte>)
    requires ParseRequest(s).Incomplete?
    ensures CanGoOn(s) || LacksVerb(s) || LacksVersion(s)
  {
    if LeadingLine(s).Ok? {
      var lead := FindLead(s);
      var i := LeadingLine(s).next;
      if RequestLine(s, i).Ok? {
        IncompleteHeaders(s, i, RequestLine(s, i).next);
      } else if ParseTarget(s, i).Ok? {
        IncompleteVersionLine(s, lead, i, ParseTarget(s, i).next);
      } else {
        IncompleteTarget(s, lead, i);
      }
    } else {
      IncompleteLead(s);
    }
  }

  lemma RequestPrefix(s: seq<Byte>, whole: seq<Byte>)
    requires s < whole && ParseRequest(whole).Ok? && ParseRequest(whole).next == |whole|
    ensures ParseRequest(s).Incomplete?
  {
    assert whole[..|s|] == s;
    RequestAccepted(whole, |s|);
  }

  lemma UnfinishedIsIncomplete(s: seq<Byte>, t: RequestText)
    requires UnfinishedRequest(s, t)
    ensures ParseRequest(s).Incomplete?
  {
    AtStart(RequestBytes(t), RequestBytes(t));
    RequestIsParsed(RequestBytes(t), t);
    RequestPrefix(s, RequestBytes(t));
  }

  lemma IncompleteAt(s: seq<Byte>, i: nat)
    requires LeadingLine(s) == Ok((), i) && RequestLine(s, i).Incomplete?
    ensures ParseRequest(s).Incomplete?
  {
  }

  lemma NoVerbIsIncomplete(s: seq<Byte>, lead: Option<LineEnd>, gap: seq<Byte>, path: seq<Byte>, gap': seq<Byte>)
    requires NoVerb(s, lead, gap, path, gap')
    ensures ParseRequest(s).Incomplete?
  {
    var i := |LeadBytes(lead)|;
    WholeAt(s);
    SplitThree(s, LeadBytes(lead), gap, path + gap', i, i + |gap|);
    AtIndex(s, i, gap, 0);
    LeadAt(s, lead);
    NoVerbTarget(s, i, gap, i + |gap|, path, gap');
    IncompleteAt(s, i);
  }

  lemma NoVerbTarget(s: seq<Byte>, i: nat, gap: seq<Byte>, k: nat, path: seq<Byte>, gap': seq<Byte>)
    requires At(s, i, gap) && k == i + |gap| && At(s, k, path + gap') && |s| == k + |path + gap'|
    requires gap != [] && Spaces(gap) && VisibleBytes(path) && Spaces(gap') && (path == [] ==> gap' == [])
    ensures ParseTarget(s, i).Incomplete?
  {
    AtConcat(s, k, path, gap');
    AtIndex(s, i, gap, 0);
    PrintedWord(Token, s, i, [], SP);
    if path == [] {
      SpacesToEnd(s, i, gap);
    } else {
      AtIndex(s, k, path, 0);
      GapAt(s, i, gap, k);
      PathToEnd(s, k, path, gap');
    }
  }

  lemma SpacesToEnd(s: seq<Byte>, i: nat, gap: seq<Byte>)
    requires At(s, i, gap) && gap != [] && Spaces(gap) && |s| == i + |gap|
    ensures Over(Space, s, i).Incomplete?
  {
    forall k | i + 1 <= k < |s| ensures In(Space, s[k]) { AtIndex(s, i, gap, k - i); }
    SkipIs(Space, s, i + 1, |s|);
  }

  lemma PathToEnd(s: seq<Byte>, k: nat, path: seq<Byte>, gap: seq<Byte>)
    requires At(s, k, path) && VisibleBytes(path) && At(s, k + |path|, gap) && Spaces(gap) && |s| == k + |path| + |gap|
    ensures Field(PathByte, s, k).Incomplete?
  {
    ClassesAre(path);
    if gap == [] {
      forall l | k <= l < |s| ensures In(PathByte, s[l]) { AtIndex(s, k, path, l - k); }
      SkipIs(PathByte, s, k, |s|);
    } else {
      AtIndex(s, k + |path|, gap, 0);
      PrintedWord(PathByte, s, k, path, SP);
      SpacesToEnd(s, k + |path|, gap);
    }
  }

  lemma VersionToCome(s: seq<Byte>, i: nat, j: nat)
    requires i <= |s| && ParseTarget(s, i).Ok? && ParseTarget(s, i).next == j && |s| - j < 9
    ensures RequestLine(s, i).Incomplete?
  {
  }

  lemma ShortVersionIsIncomplete(s: seq<Byte>, t: RequestText, v: seq<Byte>)
    requires ShortVersion(s, t, v)
    ensures ParseRequest(s).Incomplete?
  {
    var i := |LeadBytes(t.lead)|;
    var j := i + |TargetBytes(t)|;
    WholeAt(s);
    SplitThree(s, LeadBytes(t.lead), TargetBytes(t), v, i, j);
    AtIndex(s, j, v, 0);
    TargetAt(s, i, t);
    LeadAt(s, t.lead);
    VersionToCome(s, i, j);
    IncompleteAt(s, i);
  }

  /**
    A request is found incomplete exactly if it can still be finished, or lacks its verb, or fewer than nine bytes
    stand in the place of its version.  Every other beginning that is not a request is found malformed.
   */
  lemma RequestVerdict(s: seq<Byte>)
    ensures ParseRequest(s).Incomplete? <==> CanGoOn(s) || LacksVerb(s) || LacksVersion(s)
  {
    if ParseRequest(s).Incomplete? { IncompleteMeans(s); }
    forall t | UnfinishedRequest(s, t) ensures ParseRequest(s).Incomplete? { UnfinishedIsIncomplete(s, t); }
    forall lead, gap, path, gap' | NoVerb(s, lead, gap, path, gap') ensures ParseRequest(s).Incomplete? {
      NoVerbIsIncomplete(s, lead, gap, path, gap');
    }
    forall t, v | ShortVersion(s, t, v) ensures ParseRequest(s).Incomplete? { ShortVersionIsIncomplete(s, t, v); }
  }

  // ---------------------------------------------------------------- responses

  ghost predicate UnfinishedResponse(s: seq<Byte>, t: ResponseText) { ValidResponse(t) && s < ResponseBytes(t) }

  ghost predicate ValidFields(t: ResponseText) { ValidDigits(t) && t.gap != [] && Spaces(t.gap) }

  /** Fewer than four bytes stand where the status should be; it is not looked at before. */
  ghost predicate ShortStatus(s: seq<Byte>, t: ResponseText, v: seq<Byte>) {
    ValidFields(t) && 0 < |v| < 4 && !SpaceByte(v[0]) && s == VersionBytes(t.minor) + (t.gap + v)
  }

  /** Something other than a space follows the status, which is looked for only after the line end. */
  ghost predicate Garbage(s: seq<Byte>, t: ResponseText, text: seq<Byte>, end: seq<Byte>) {
    ValidFields(t) && text != [] && TextBytes(text) && !SpaceByte(text[0]) && end < EndBytes(CrLf) && s == FirstFields(t) + (text + end)
  }

  ghost predicate ResponseCanGoOn(s: seq<Byte>) { exists t :: UnfinishedResponse(s, t) }

  ghost predicate LacksStatus(s: seq<Byte>) { exists t, v :: ShortStatus(s, t, v) }

  ghost predicate HasGarbage(s: seq<Byte>) { exists t, text, end :: Garbage(s, t, text, end) }

  lemma FindVersionField(s: seq<Byte>, j: nat) returns (t: ResponseText)
    requires VersionField(s).Ok? && j == VersionField(s).next
    ensures ValidFields(t) && t.lines == [] && t.end == CrLf && t.message == [] && t.space == []
    ensures At(s, 0, VersionBytes(t.minor)) && At(s, 8, t.gap) && j == 8 + |t.gap| && !SpaceByte(s[j])
  {
    var minor := FindVersion(s, 0);
    var gap := FindGap(s, 8, j);
    var over := FindOver(Space, s, 8);
    t := ResponseText(minor, gap, 0, 0, 0, [], [], CrLf, [], CrLf);
  }

  lemma IncompleteGap(s: seq<Byte>)
    requires |s| >= 9 && VersionField(s).Incomplete?
    ensures ResponseCanGoOn(s)
  {
    var minor := FindVersion(s, 0);
    var gap := FindLastGap(s, 8);
    var t := ResponseText(minor, gap, 2, 0, 0, [], [], CrLf, [], CrLf);
    Whole(s, VersionBytes(minor), 8, gap);
    StrictPrefix(VersionBytes(minor), gap, StatusBytes(t), MessageEnd(t) + HeadersBytes([], CrLf));
    assert UnfinishedResponse(s, t);
  }

  lemma StrictPrefix(a: seq<Byte>, b: seq<Byte>, c: seq<Byte>, d: seq<Byte>)
    requires c != []
    ensures a + b < a + (b + c) + d
  {
    assert a + (b + c) + d == a + b + (c + d);
  }

  lemma IncompleteStatus(s: seq<Byte>, j: nat)
    requires VersionField(s).Ok? && j == VersionField(s).next && Status(s, j).Incomplete?
    ensures LacksStatus(s)
  {
    var t := FindVersionField(s, j);
    var v := s[j..];
    AtJoin(s, 8, t.gap, v);
    Whole(s, VersionBytes(t.minor), 8, t.gap + v);
    assert ShortStatus(s, t, v);
  }

  lemma FindFields(s: seq<Byte>, j: nat) returns (t: ResponseText)
    requires VersionField(s).Ok? && j == VersionField(s).next && Status(s, j).Ok?
    ensures ValidFields(t) && t.lines == [] && t.end == CrLf && At(s, 0, FirstFields(t)) && j + 3 == |FirstFields(t)|
  {
    var minor, gap, hundreds, tens, ones := FindFirstFields(s, j);
    t := ResponseText(minor, gap, hundreds, tens, ones, [], [], CrLf, [], CrLf);
  }

  lemma FindPartOfLine(s: seq<Byte>, i: nat) returns (text: seq<Byte>, end: seq<Byte>)
    requires i <= |s| && Line(s, i).Incomplete?
    ensures TextBytes(text) && end < EndBytes(CrLf) && At(s, i, text + end) && |s| == i + |text + end|
  {
    var j := Skip(LineByte, s, i);
    text := FindRun(LineByte, s, i, j);
    ClassesAre(text);
    end := s[j..];
    AtJoin(s, i, text, end);
  }

  lemma IncompleteMessage(s: seq<Byte>, j: nat)
    requires VersionField(s).Ok? && j == VersionField(s).next && Status(s, j).Ok? && Line(s, j + 3).Incomplete?
    ensures ResponseCanGoOn(s) || HasGarbage(s)
  {
    var t := FindFields(s, j);
    var text, end := FindPartOfLine(s, j + 3);
    Whole(s, FirstFields(t), j + 3, text + end);
    if text != [] && !SpaceByte(text[0]) {
      assert Garbage(s, t, text, end);
    } else {
      MessageGoesOn(s, t, text, end);
    }
  }

  lemma MessageGoesOn(s: seq<Byte>, t: ResponseText, text: seq<Byte>, end: seq<Byte>)
    requires ValidFields(t) && t.lines == [] && t.end == CrLf && TextBytes(text) && (text != [] ==> SpaceByte(text[0]))
    requires end < EndBytes(CrLf) && s == FirstFields(t) + (text + end)
    ensures ResponseCanGoOn(s)
  {
    var space, message := FindSpaces(text);
    forall k | 0 <= k < |message| ensures TextByte(message[k]) { assert text[|space| + k] == message[k]; }
    var whole := t.(space := space, message := message);
    MessagePrefix(FirstFields(t), text, end, HeadersBytes([], t.last));
    assert ResponseBytes(whole) == FirstFields(t) + (text + EndBytes(CrLf) + HeadersBytes([], t.last));
    assert UnfinishedResponse(s, whole);
  }

  lemma MessagePrefix(a: seq<Byte>, text: seq<Byte>, end: seq<Byte>, headers: seq<Byte>)
    requires end < EndBytes(CrLf)
    ensures a + (text + end) < a + (text + EndBytes(CrLf) + headers)
  {
    var more := EndBytes(CrLf)[|end|..];
    assert EndBytes(CrLf) == end + more;
    assert a + (text + EndBytes(CrLf) + headers) == a + (text + end) + (more + headers);
  }

  lemma IncompleteResponseHeaders(s: seq<Byte>, j: nat)
    requires StatusLine(s).Ok? && j == StatusLine(s).next && Headers(s, j, true).Incomplete?
    ensures ResponseCanGoOn(s)
  {
    var t := CompleteHeaders(s, j, true);
    StatusLineStable(s, t);
    ResponseGoesOn(s, t);
  }

  lemma ResponseGoesOn(s: seq<Byte>, t: seq<Byte>)
    requires !ParseResponse(s).Ok? && ParseResponse(s + t).Ok?
    ensures ResponseCanGoOn(s)
  {
    var whole := FindResponse(s + t);
    ResponseIsParsed(s + t, whole);
    AtStart(s + t, ResponseBytes(whole));
    ResponseStable(s, t);
    ProperPrefix(s, t, ResponseBytes(whole));
    assert UnfinishedResponse(s, whole);
  }

  lemma IncompleteResponseMeans(s: seq<Byte>)
    requires ParseResponse(s).Incomplete? && |s| >= 9
    ensures ResponseCanGoOn(s) || LacksStatus(s) || HasGarbage(s)
  {
    if VersionField(s).Ok? {
      var j := VersionField(s).next;
      if StatusLine(s).Ok? {
        IncompleteResponseHeaders(s, StatusLine(s).next);
      } else if Status(s, j).Ok? {
        IncompleteMessage(s, j);
      } else {
        IncompleteStatus(s, j);
      }
    } else {
      IncompleteGap(s);
    }
  }

  lemma ResponsePrefix(s: seq<Byte>, whole: seq<Byte>)
    requires s < whole && ParseResponse(whole).Ok? && ParseResponse(whole).next == |whole|
    ensures ParseResponse(s).Incomplete?
  {
    assert whole[..|s|] == s;
    ResponseAccepted(whole, |s|);
  }

  lemma UnfinishedResponseIsIncomplete(s: seq<Byte>, t: ResponseText)
    requires UnfinishedResponse(s, t)
    ensures ParseResponse(s).Incomplete?
  {
    AtStart(ResponseBytes(t), ResponseBytes(t));
    ResponseIsParsed(ResponseBytes(t), t);
    ResponsePrefix(s, ResponseBytes(t));
  }

  lemma ShortStatusIsIncomplete(s: seq<Byte>, t: ResponseText, v: seq<Byte>)
    requires ShortStatus(s, t, v)
    ensures ParseResponse(s).Incomplete?
  {
    var j := 8 + |t.gap|;
    WholeAt(s);
    SplitThree(s, VersionBytes(t.minor), t.gap, v, 8, j);
    AtIndex(s, j, v, 0);
    GapAt(s, 8, t.gap, j);
    VersionAt(s, 0, t.minor);
  }

  lemma GarbageIsIncomplete(s: seq<Byte>, t: ResponseText, text: seq<Byte>, end: seq<Byte>)
    requires Garbage(s, t, text, end)
    ensures ParseResponse(s).Incomplete?
  {
    var i := |FirstFields(t)|;
    WholeAt(s);
    AtConcat(s, 0, FirstFields(t), text + end);
    FirstFieldsAt(s, t, i);
    PartOfLine(s, i, text, end);
  }

  lemma PartOfLine(s: seq<Byte>, i: nat, text: seq<Byte>, end: seq<Byte>)
    requires TextBytes(text) && end < EndBytes(CrLf) && At(s, i, text + end) && |s| == i + |text + end|
    ensures Line(s, i).Incomplete?
  {
    var j := i + |text|;
    AtConcat(s, i, text, end);
    ClassesAre(text);
    forall k | i <= k < j ensures In(LineByte, s[k]) { AtIndex(s, i, text, k - i); }
    if end != [] {
      AtIndex(s, j, end, 0);
      assert end[0] == CR;
    }
    SkipIs(LineByte, s, i, j);
  }

  /**
    A response is found incomplete exactly if it can still be finished, or has fewer than nine bytes, or fewer than
    four where its status should be, or garbage after the status in a line that has not ended.
   */
  lemma ResponseVerdict(s: seq<Byte>)
    ensures ParseResponse(s).Incomplete? <==> ResponseCanGoOn(s) || |s| < 9 || LacksStatus(s) || HasGarbage(s)
  {
    if ParseResponse(s).Incomplete? && |s| >= 9 { IncompleteResponseMeans(s); }
    forall t | UnfinishedResponse(s, t) ensures ParseResponse(s).Incomplete? { UnfinishedResponseIsIncomplete(s, t); }
    forall t, v | ShortStatus(s, t, v) ensures ParseResponse(s).Incomplete? { ShortStatusIsIncomplete(s, t, v); }
    forall t, text, end | Garbage(s, t, text, end) ensures ParseResponse(s).Incomplete? { GarbageIsIncomplete(s, t, text, end); }
  }
}
