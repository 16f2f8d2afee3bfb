/**
  `is_complete`: the quick look at the new bytes of a message that was incomplete when it was last parsed.  It looks
  for two line ends in a row, from three bytes before the new ones on, and spares a parse if there are none.
 */
module EarlyExit {
  import opened ByteTypes
  import opened HttpParser
  import opened MessageGrammar

  /** The loop: `count` line ends stand directly before `i`. */
  function Look(s: seq<Byte>, i: nat, count: nat): (r: Parsed<()>)
    requires i <= |s| && count < 2
    decreases |s| - i
  {
    if i == |s| then Incomplete
    else if IsEol(s[i]) then
      var (_, next) :- Eol(s, i);
      if count == 1 then Ok((), next) else Look(s, next, 1)
    else Look(s, i + 1, 0)
  }

  function From(lastLen: nat): nat { if lastLen < 3 then 0 else lastLen - 3 }

  method IsComplete(s: seq<Byte>, lastLen: nat) returns (r: Parsed<()>)
    requires lastLen <= |s|
    ensures r == Look(s, From(lastLen), 0)
  {
    var p, count := if lastLen < 3 then 0 else lastLen - 3, 0;
    while true
      invariant p <= |s| && 0 <= count < 2 && Look(s, From(lastLen), 0) == Look(s, p, count)
      decreases |s| - p
    {
      if p == |s| { return Incomplete; }
      if s[p] == CR {
        p := p + 1;
        if p == |s| { return Incomplete; }
        if s[p] != LF { return Malformed; }
        p, count := p + 1, count + 1;
      } else if s[p] == LF {
        p, count := p + 1, count + 1;
      } else {
        p, count := p + 1, 0;
      }
      if count == 2 { return Ok((), p); }
    }
  }

  // ---------------------------------------------------------------- how a message ends

  /** Every carriage return is followed by a line feed. */
  ghost predicate Paired(s: seq<Byte>) { forall i :: 0 <= i < |s| && s[i] == CR ==> i + 1 < |s| && s[i + 1] == LF }

  predicate NoReturn(s: seq<Byte>) { forall i :: 0 <= i < |s| ==> s[i] != CR }

  lemma PairedConcat(a: seq<Byte>, b: seq<Byte>)
    requires Paired(a) && Paired(b)
    ensures Paired(a + b)
  {
    var s := a + b;
    forall i | 0 <= i < |s| && s[i] == CR ensures i + 1 < |s| && s[i + 1] == LF {
      if i < |a| { assert a[i] == CR; } else { assert b[i - |a|] == CR; }
    }
  }

  lemma TokensPaired(s: seq<Byte>)
    requires TokenBytes(s) || VisibleBytes(s) || TextBytes(s) || Spaces(s) || Blanks(s)
    ensures Paired(s)
  {
    forall i | 0 <= i < |s| ensures s[i] != CR { TablesAre(s[i]); }
  }

  /** The bytes end with two line ends. */
  ghost predicate EndsTwice(s: seq<Byte>, before: seq<Byte>, e: LineEnd, last: LineEnd) { s == before + (EndBytes(e) + EndBytes(last)) }

  ghost predicate WellEnded(s: seq<Byte>) { Paired(s) && exists before, e, last :: EndsTwice(s, before, e, last) }

  lemma LinePaired(l: FieldLine)
    requires ValidLine(l)
    ensures Paired(LineBytes(l))
  {
    TokensPaired(l.value);
    TokensPaired(l.after);
    PairedConcat(l.value, l.after);
    PairedConcat(ValueBytes(l), EndBytes(l.end));
    if l.Named? {
      TokensPaired(l.name);
      TokensPaired(l.before);
      PairedConcat(l.before, ValueBytes(l) + EndBytes(l.end));
      PairedConcat([':' as int], l.before + (ValueBytes(l) + EndBytes(l.end)));
      PairedConcat(l.name, [':' as int] + (l.before + (ValueBytes(l) + EndBytes(l.end))));
    }
  }

  /** A line, as what stands before its end. */
  function Content(l: FieldLine): seq<Byte> {
    if l.Named? then l.name + ([':' as int] + (l.before + ValueBytes(l))) else ValueBytes(l)
  }

  lemma LineEnds(l: FieldLine, before: seq<Byte>, rest: seq<Byte>)
    ensures before + (LineBytes(l) + rest) == before + Content(l) + (EndBytes(l.end) + rest)
  {
    if l.Named? {
      assert LineBytes(l) == Content(l) + EndBytes(l.end);
    }
    assert before + (Content(l) + EndBytes(l.end) + rest) == before + Content(l) + (EndBytes(l.end) + rest);
  }

  lemma {:induction false} HeadersPaired(ls: seq<FieldLine>, last: LineEnd)
    requires forall i :: 0 <= i < |ls| ==> ValidLine(ls[i])
    ensures Paired(HeadersBytes(ls, last))
    decreases |ls|
  {
    if ls != [] {
      LinePaired(ls[0]);
      HeadersPaired(ls[1..], last);
      PairedConcat(LineBytes(ls[0]), HeadersBytes(ls[1..], last));
    }
  }

  lemma NextLine(before: seq<Byte>, end: seq<Byte>, l: FieldLine, rest: seq<Byte>)
    ensures before + (end + (LineBytes(l) + rest)) == before + end + Content(l) + (EndBytes(l.end) + rest)
  {
    LineEnds(l, before + end, rest);
    assert before + (end + (LineBytes(l) + rest)) == before + end + (LineBytes(l) + rest);
  }

  /** Headers after a line end: they end twice. */
  lemma {:induction false} HeadersEnd(before: seq<Byte>, e: LineEnd, ls: seq<FieldLine>, last: LineEnd, whole: seq<Byte>)
    returns (b: seq<Byte>, e': LineEnd)
    requires whole == before + (EndBytes(e) + HeadersBytes(ls, last))
    ensures EndsTwice(whole, b, e', last)
    decreases |ls|
  {
    if ls == [] {
      b, e' := before, e;
    } else {
      NextLine(before, EndBytes(e), ls[0], HeadersBytes(ls[1..], last));
      b, e' := HeadersEnd(before + EndBytes(e) + Content(ls[0]), ls[0].end, ls[1..], last, whole);
    }
  }

  lemma VersionPaired(minor: nat)
    requires minor < 10
    ensures Paired(VersionBytes(minor))
  {
    DigitIs(minor);
    assert TextOf(VERSION) == HTTP_1_DOT;
  }

  lemma TargetPaired(t: RequestText)
    requires ValidTarget(t)
    ensures Paired(TargetBytes(t))
  {
    TokensPaired(t.verb);
    TokensPaired(t.gap);
    TokensPaired(t.path);
    TokensPaired(t.gap');
    PairedConcat(t.path, t.gap');
    PairedConcat(t.gap, t.path + t.gap');
    PairedConcat(t.verb, t.gap + (t.path + t.gap'));
  }

  lemma JoinEnded(front: seq<Byte>, e: LineEnd, ls: seq<FieldLine>, last: LineEnd, whole: seq<Byte>)
    requires Paired(front) && (forall i :: 0 <= i < |ls| ==> ValidLine(ls[i])) && whole == front + (EndBytes(e) + HeadersBytes(ls, last))
    ensures WellEnded(whole)
  {
    HeadersPaired(ls, last);
    var before, e' := HeadersEnd(front, e, ls, last, whole);
    PairedConcat(EndBytes(e), HeadersBytes(ls, last));
    PairedConcat(front, EndBytes(e) + HeadersBytes(ls, last));
  }

  lemma RegroupRequest(lead: seq<Byte>, target: seq<Byte>, version: seq<Byte>, e: seq<Byte>, headers: seq<Byte>)
    ensures lead + (target + (version + e) + headers) == lead + (target + version) + (e + headers)
  {
  }

  lemma RequestEnds(t: RequestText)
    requires ValidRequest(t)
    ensures WellEnded(RequestBytes(t))
  {
    var front := LeadBytes(t.lead) + (TargetBytes(t) + VersionBytes(t.minor));
    TargetPaired(t);
    VersionPaired(t.minor);
    PairedConcat(TargetBytes(t), VersionBytes(t.minor));
    PairedConcat(LeadBytes(t.lead), TargetBytes(t) + VersionBytes(t.minor));
    RegroupRequest(LeadBytes(t.lead), TargetBytes(t), VersionBytes(t.minor), EndBytes(t.end), HeadersBytes(t.lines, t.last));
    JoinEnded(front, t.end, t.lines, t.last, RequestBytes(t));
  }

  lemma FieldsPaired(t: ResponseText)
    requires ValidResponse(t)
    ensures Paired(FirstFields(t)) && Paired(t.space + t.message)
  {
    VersionPaired(t.minor);
    TokensPaired(t.gap);
    DigitIs(t.hundreds);
    DigitIs(t.tens);
    DigitIs(t.ones);
    PairedConcat(t.gap, StatusBytes(t));
    PairedConcat(VersionBytes(t.minor), t.gap + StatusBytes(t));
    TokensPaired(t.space);
    TokensPaired(t.message);
    PairedConcat(t.space, t.message);
  }

  lemma RegroupResponse(fields: seq<Byte>, text: seq<Byte>, e: seq<Byte>, headers: seq<Byte>)
    ensures fields + (text + e + headers) == fields + text + (e + headers)
  {
  }

  lemma ResponseEnds(t: ResponseText)
    requires ValidResponse(t)
    ensures WellEnded(ResponseBytes(t))
  {
    var text := t.space + t.message;
    FieldsPaired(t);
    PairedConcat(FirstFields(t), text);
    RegroupResponse(FirstFields(t), text, EndBytes(t.end), HeadersBytes(t.lines, t.last));
    JoinEnded(FirstFields(t) + text, t.end, t.lines, t.last, ResponseBytes(t));
  }

  // ---------------------------------------------------------------- the look finds the end

  /** Line feeds at `q` and `n - 1`, with nothing but perhaps a carriage return in between. */
  ghost predicate EndsAt(s: seq<Byte>, q: nat, n: nat) {
    q + 1 < n <= |s| && s[q] == LF && s[n - 1] == LF && (n == q + 2 || (n == q + 3 && s[q + 1] == CR))
  }

  lemma {:induction false} LookFinds(s: seq<Byte>, i: nat, count: nat, q: nat, n: nat)
    requires EndsAt(s, q, n) && i <= q && count < 2 && forall k :: 0 <= k < n && s[k] == CR ==> k + 1 < n && s[k + 1] == LF
    ensures Look(s, i, count).Ok?
    decreases q - i
  {
    if IsEol(s[i]) {
      var next := Eol(s, i).next;
      if count == 0 && next <= q { LookFinds(s, next, 1, q, n); }
    } else {
      LookFinds(s, i + 1, 0, q, n);
    }
  }

  lemma WellEndedLook(s: seq<Byte>, whole: seq<Byte>, lastLen: nat)
    requires WellEnded(whole) && whole <= s && lastLen < |whole|
    ensures Look(s, From(lastLen), 0).Ok?
  {
    var before, e, last :| EndsTwice(whole, before, e, last);
    var q, n := |before| + |EndBytes(e)| - 1, |whole|;
    assert EndsAt(whole, q, n);
    assert EndsAt(s, q, n);
    forall k | 0 <= k < n && s[k] == CR ensures k + 1 < n && s[k + 1] == LF { assert whole[k] == CR; }
    LookFinds(s, From(lastLen), 0, q, n);
  }

  lemma LookStable(s: seq<Byte>, t: seq<Byte>, i: nat, count: nat)
    requires i <= |s| && count < 2 && Look(s, i, count).Malformed?
    ensures Look(s + t, i, count).Malformed?
    decreases |s| - i
  {
    if !IsEol(s[i]) {
      LookStable(s, t, i + 1, 0);
    } else if Eol(s, i).Ok? {
      LookStable(s, t, Eol(s, i).next, 1);
    }
  }

  /** A request that was incomplete and is accepted now passes the quick look, which therefore never spares the parse that accepts it. */
  lemma RequestLooksComplete(s: seq<Byte>, lastLen: nat)
    requires lastLen <= |s| && ParseRequest(s[..lastLen]).Incomplete?
    ensures ParseRequest(s).Ok? ==> Look(s, From(lastLen), 0).Ok?
  {
    if ParseRequest(s).Ok? {
      var t := FindRequest(s);
      RequestIsParsed(s, t);
      AtStart(s, RequestBytes(t));
      RequestAccepted(s, lastLen);
      RequestEnds(t);
      WellEndedLook(s, RequestBytes(t), lastLen);
    }
  }

  /** And one that the quick look finds malformed is not accepted whatever follows. */
  lemma RequestLooksMalformed(s: seq<Byte>, t: seq<Byte>, lastLen: nat)
    requires lastLen <= |s| && ParseRequest(s[..lastLen]).Incomplete? && Look(s, From(lastLen), 0).Malformed?
    ensures !ParseRequest(s + t).Ok?
  {
    LookStable(s, t, From(lastLen), 0);
    assert (s + t)[..lastLen] == s[..lastLen];
    RequestLooksComplete(s + t, lastLen);
  }

  lemma ResponseLooksComplete(s: seq<Byte>, lastLen: nat)
    requires lastLen <= |s| && ParseResponse(s[..lastLen]).Incomplete?
    ensures ParseResponse(s).Ok? ==> Look(s, From(lastLen), 0).Ok?
  {
    if ParseResponse(s).Ok? {
      var t := FindResponse(s);
      ResponseIsParsed(s, t);
      AtStart(s, ResponseBytes(t));
      ResponseAccepted(s, lastLen);
      ResponseEnds(t);
      WellEndedLook(s, ResponseBytes(t), lastLen);
    }
  }

  lemma ResponseLooksMalformed(s: seq<Byte>, t: seq<Byte>, lastLen: nat)
    requires lastLen <= |s| && ParseResponse(s[..lastLen]).Incomplete? && Look(s, From(lastLen), 0).Malformed?
    ensures !ParseResponse(s + t).Ok?
  {
    LookStable(s, t, From(lastLen), 0);
    assert (s + t)[..lastLen] == s[..lastLen];
    ResponseLooksComplete(s + t, lastLen);
  }

  // ---------------------------------------------------------------- parsing again

  /** Acceptance is not affected by the quick look, and nothing found malformed can be accepted later. */
  ghost predicate SameAcceptance<T(!new)>(r: Parsed<T>, parse: seq<Byte> -> Parsed<T>, s: seq<Byte>) {
    && (r.Ok? <==> parse(s).Ok?) && (r.Ok? ==> r == parse(s))
    && (r.Malformed? ==> forall t :: !parse(s + t).Ok?)
  }

  /** `Request::parse` with the length of the last attempt, which found the request incomplete; zero for none. */
  method RequestParseAgain(s: seq<Byte>, lastLen: nat) returns (r: Parsed<Request>)
    requires lastLen <= |s| && (lastLen > 0 ==> ParseRequest(s[..lastLen]).Incomplete?)
    ensures SameAcceptance(r, ParseRequest, s)
  {
    if lastLen != 0 {
      var complete := IsComplete(s, lastLen);
      RequestLooksComplete(s, lastLen);
      if !complete.Ok? {
        if complete.Malformed? { forall t ensures !ParseRequest(s + t).Ok? { RequestLooksMalformed(s, t, lastLen); } }
        return complete.PropagateFailure();
      }
    }
    r := RequestParse(s);
    forall t ensures r.Malformed? ==> !ParseRequest(s + t).Ok? { RequestStable(s, t); }
  }

  /** The same for `Response::parse`. */
  method ResponseParseAgain(s: seq<Byte>, lastLen: nat) returns (r: Parsed<Response>)
    requires lastLen <= |s| && (lastLen > 0 ==> ParseResponse(s[..lastLen]).Incomplete?)
    ensures SameAcceptance(r, ParseResponse, s)
  {
    if lastLen != 0 {
      var complete := IsComplete(s, lastLen);
      ResponseLooksComplete(s, lastLen);
      if !complete.Ok? {
        if complete.Malformed? { forall t ensures !ParseResponse(s + t).Ok? { ResponseLooksMalformed(s, t, lastLen); } }
        return complete.PropagateFailure();
      }
    }
    r := ResponseParse(s);
    forall t ensures r.Malformed? ==> !ParseResponse(s + t).Ok? { ResponseStable(s, t); }
  }
}
