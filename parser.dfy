/** ParseWebSocketSpeechResult: the line-oriented parser of the text messages
    the Speech Service sends back (headers at fixed line positions, then a
    JSON body). */
module Parser {
  import opened Common
  import opened Text

  datatype SpeechMessagePath = TurnStart | SpeechStartDetected | SpeechHypothesis | SpeechEndDetected | SpeechPhrase

  /** The deserialised JSON body; every field may be missing (null). */
  datatype RecognitionContent = RecognitionContent(text: Option<string>, displayText: Option<string>, recognitionStatus: Option<string>)

  /** A parsed message. `path` is None while no recognised path was seen:
      the enum's default value is not part of this model. */
  datatype SpeechServiceResult = SpeechServiceResult(
    requestId: Option<string>,
    contentType: Option<string>,
    charSet: Option<string>,
    path: Option<SpeechMessagePath>,
    result: Option<RecognitionContent>)

  const EmptyResult: SpeechServiceResult := SpeechServiceResult(None, None, None, None, None)

  /** The path values the parser knows, after trimming and lower-casing. */
  function PathOf(p: string): (r: Option<SpeechMessagePath>)
    ensures p == "turn.start" ==> r == Some(TurnStart)
    ensures p == "speech.startdetected" ==> r == Some(SpeechStartDetected)
    ensures p == "speech.hypothesis" ==> r == Some(SpeechHypothesis)
    ensures p == "speech.enddetected" || p == "turn.end" <==> r == Some(SpeechEndDetected)
    ensures p == "speech.phrase" <==> r == Some(SpeechPhrase)
    ensures r.None? <==> p !in ["turn.start", "speech.startdetected", "speech.hypothesis", "speech.enddetected", "speech.phrase", "turn.end"]
  {
    if p == "turn.start" then Some(TurnStart)
    else if p == "speech.startdetected" then Some(SpeechStartDetected)
    else if p == "speech.hypothesis" then Some(SpeechHypothesis)
    else if p == "speech.enddetected" then Some(SpeechEndDetected)
    else if p == "speech.phrase" then Some(SpeechPhrase)
    else if p == "turn.end" then Some(SpeechEndDetected)
    else None
  }

  predicate IsSemicolon(c: char) { c == ';' }

  /** Line 0: `x-requestid` matched on the first 11 characters, the value
      after the separator. Substring throws on a shorter line. */
  function RequestIdField(t: string): (r: Outcome<Option<string>>)
  {
    if t == "" then Returned(None)
    else if |t| < 11 then Thrown
    else if AsciiLower(t[..11]) != "x-requestid" then Returned(None)
    else if |t| < 12 then Thrown
    else Returned(Some(t[12..]))
  }

  /** Line 1: `content-type` on the text before the first `;`, then `charset`
      on the text after it, each trimmed. */
  function ContentTypeField(t: string): (r: Outcome<(Option<string>, Option<string>)>)
  {
    if t == "" then Returned((None, None))
    else
      var pieces := Split(t, IsSemicolon);
      var a := Trim(pieces[0]);
      if |a| < 12 then Thrown
      else if AsciiLower(a[..12]) != "content-type" then Returned((None, None))
      else if |a| < 13 then Thrown
      else if |pieces| == 1 then Returned((Some(a[13..]), None))
      else
        var b := Trim(pieces[1]);
        if |b| < 7 then Thrown
        else if AsciiLower(b[..7]) != "charset" then Returned((Some(a[13..]), None))
        else if |b| < 8 then Thrown
        else Returned((Some(a[13..]), Some(b[8..])))
  }

  /** Line 2: `path` on the first four characters, the rest trimmed,
      lower-cased and mapped to the enum. */
  function PathField(t: string): (r: Outcome<Option<SpeechMessagePath>>)
  {
    if t == "" then Returned(None)
    else if |t| < 4 then Thrown
    else if AsciiLower(t[..4]) != "path" then Returned(None)
    else if |t| < 5 then Thrown
    else Returned(PathOf(AsciiLower(Trim(t[5..]))))
  }

  /** The loop state between two lines. */
  datatype ParseState = ParseState(wssr: SpeechServiceResult, isBodyStarted: bool, bodyJson: string)

  const Start: ParseState := ParseState(EmptyResult, false, "")

  predicate IsBraceLine(t: string) { t != "" && t[0] == '{' }

  /** One iteration of the loop on the trimmed line `t` at raw index `index`. */
  function StepLine(st: ParseState, index: nat, t: string, nl: NewLine): Outcome<ParseState> {
    if t == "" then Returned(st)
    else if index == 0 then
      match RequestIdField(t)
      case Thrown => Thrown
      case Returned(v) => Returned(if v.Some? then st.(wssr := st.wssr.(requestId := v)) else st)
    else if index == 1 then
      match ContentTypeField(t)
      case Thrown => Thrown
      case Returned((ct, cs)) =>
        var w := if ct.Some? then st.wssr.(contentType := ct) else st.wssr;
        Returned(st.(wssr := if cs.Some? then w.(charSet := cs) else w))
    else if index == 2 then
      match PathField(t)
      case Thrown => Thrown
      case Returned(p) => Returned(if p.Some? then st.(wssr := st.wssr.(path := p)) else st)
    else if !st.isBodyStarted then
      Returned(if IsBraceLine(t) then st.(isBodyStarted := true, bodyJson := st.bodyJson + t + nl.Text()) else st)
    else Returned(st.(bodyJson := st.bodyJson + t + nl.Text()))
  }

  /** The loop run over the trimmed lines `ts`, line by line from the start. */
  function FoldLines(ts: seq<string>, nl: NewLine): Outcome<ParseState>
    decreases |ts|
  {
    if ts == [] then Returned(Start)
    else
      match FoldLines(ts[..|ts| - 1], nl)
      case Thrown => Thrown
      case Returned(st) => StepLine(st, |ts| - 1, ts[|ts| - 1], nl)
  }

  function Trimmed(ls: seq<string>): (ts: seq<string>)
    ensures |ts| == |ls| && forall i :: 0 <= i < |ls| ==> ts[i] == Trim(ls[i])
  {
    seq(|ls|, i requires 0 <= i < |ls| => Trim(ls[i]))
  }

  /** The JSON step after the loop: a non-empty body goes to the deserialiser
      (which may throw); a null result leaves `Result` unset. */
  function WithBody(st: ParseState, deserialize: string -> Outcome<Option<RecognitionContent>>): Outcome<SpeechServiceResult> {
    if |st.bodyJson| == 0 then Returned(st.wssr)
    else
      match deserialize(st.bodyJson)
      case Thrown => Thrown
      case Returned(c) => Returned(if c.Some? then st.wssr.(result := c) else st.wssr)
  }

  /** What ParseWebSocketSpeechResult returns for the text `s`. */
  function ParseSpec(s: string, nl: NewLine, deserialize: string -> Outcome<Option<RecognitionContent>>): Outcome<SpeechServiceResult> {
    match FoldLines(Trimmed(Lines(s)), nl)
    case Thrown => Thrown
    case Returned(st) => WithBody(st, deserialize)
  }

  // ---------------------------------------------------------------------
  // The declarative reading: headers by position, body from the first brace.

  function LineAt(ts: seq<string>, i: nat): string {
    if i < |ts| then ts[i] else ""
  }

  /** The three header lines, read at raw indices 0, 1 and 2 only. */
  function Headers(ts: seq<string>): Outcome<SpeechServiceResult> {
    HeadersOf(LineAt(ts, 0), LineAt(ts, 1), LineAt(ts, 2))
  }

  /** The first brace line at index j or later, or |ts| when there is none. */
  function FirstBraceFrom(ts: seq<string>, j: nat): (b: nat)
    ensures j <= |ts| ==> j <= b <= |ts|
    ensures j > |ts| ==> b == |ts|
    ensures b < |ts| ==> IsBraceLine(ts[b])
    ensures forall i :: j <= i < b ==> !IsBraceLine(ts[i])
    decreases |ts| - j
  {
    if j >= |ts| then |ts| else if IsBraceLine(ts[j]) then j else FirstBraceFrom(ts, j + 1)
  }

  /** Where the body starts: the first brace line past the three headers. */
  function BodyStart(ts: seq<string>): nat {
    FirstBraceFrom(ts, 3)
  }

  /** Every non-empty line, each followed by the platform newline. */
  function NonEmptyJoin(ts: seq<string>, nl: NewLine): string
    decreases |ts|
  {
    if ts == [] then "" else NonEmptyJoin(ts[..|ts| - 1], nl) + LinePiece(ts[|ts| - 1], nl)
  }

  function LinePiece(t: string, nl: NewLine): string {
    if t == "" then "" else t + nl.Text()
  }

  function Body(ts: seq<string>, nl: NewLine): string {
    var b := BodyStart(ts);
    if b < |ts| then NonEmptyJoin(ts[b..], nl) else ""
  }

  /** The loop, read declaratively: it throws exactly when one of the three
      header lines is malformed; otherwise the header fields come from lines
      0, 1 and 2 alone, and the body is every non-empty line from the first
      brace line past the headers, each with a newline. */
  lemma {:induction false} FoldIsPositional(ts: seq<string>, nl: NewLine)
    ensures FoldLines(ts, nl) ==
      match Headers(ts)
      case Thrown => Thrown
      case Returned(r) => Returned(ParseState(r, BodyStart(ts) < |ts|, Body(ts, nl)))
    decreases |ts|
  {
    if ts == [] {
      assert Headers(ts) == Returned(EmptyResult);
    } else {
      var k := |ts| - 1;
      var pre, t := ts[..k], ts[k];
      assert ts == pre + [t];
      FoldIsPositional(pre, nl);
      if k < 3 {
        HeaderStep(pre, t, nl);
        FirstBraceShort(ts, 3);
        FirstBraceShort(pre, 3);
      } else {
        assert LineAt(ts, 0) == LineAt(pre, 0) && LineAt(ts, 1) == LineAt(pre, 1) && LineAt(ts, 2) == LineAt(pre, 2);
        assert Headers(ts) == Headers(pre);
        if Headers(pre).Returned? {
          BodyLineStep(pre, t, nl, Headers(pre).value);
        }
      }
    }
  }

  /** A line past the three headers only feeds the body. */
  lemma BodyLineStep(pre: seq<string>, t: string, nl: NewLine, r: SpeechServiceResult)
    requires |pre| >= 3
    ensures var ts := pre + [t];
      StepLine(ParseState(r, BodyStart(pre) < |pre|, Body(pre, nl)), |pre|, t, nl)
        == Returned(ParseState(r, BodyStart(ts) < |ts|, Body(ts, nl)))
  {
    BodyStep(pre, t, nl);
    var st := ParseState(r, BodyStart(pre) < |pre|, Body(pre, nl));
    if t == "" {
      assert Body(pre, nl) + LinePiece(t, nl) == Body(pre, nl);
    } else if st.isBodyStarted {
      assert LinePiece(t, nl) == t + nl.Text();
      assert Body(pre, nl) + (t + nl.Text()) == Body(pre, nl) + t + nl.Text();
    } else if IsBraceLine(t) {
      assert Body(pre, nl) == "";
      assert "" + t + nl.Text() == t + nl.Text();
    }
  }

  lemma FirstBraceShort(ts: seq<string>, j: nat)
    requires |ts| <= j
    ensures FirstBraceFrom(ts, j) == |ts|
  {
  }

  /** Adding header line k < 3 to k earlier lines. */
  lemma HeaderStep(pre: seq<string>, t: string, nl: NewLine)
    requires |pre| < 3
    ensures match Headers(pre)
      case Thrown => Headers(pre + [t]) == Thrown
      case Returned(r) =>
        match StepLine(ParseState(r, false, ""), |pre|, t, nl)
        case Thrown => Headers(pre + [t]) == Thrown
        case Returned(st) => Headers(pre + [t]) == Returned(st.wssr) && !st.isBodyStarted && st.bodyJson == ""
  {
    var ts := pre + [t];
    assert ts[|pre|] == t;
    if |pre| == 0 {
      assert LineAt(ts, 0) == t && LineAt(ts, 1) == "" && LineAt(ts, 2) == "";
      HeaderStep0(t, nl);
    } else if |pre| == 1 {
      assert LineAt(ts, 0) == pre[0] && LineAt(ts, 1) == t && LineAt(ts, 2) == "";
      assert LineAt(pre, 0) == pre[0] && LineAt(pre, 1) == "" && LineAt(pre, 2) == "";
      HeaderStep1(pre[0], t, nl);
    } else {
      assert LineAt(ts, 0) == pre[0] && LineAt(ts, 1) == pre[1] && LineAt(ts, 2) == t;
      assert LineAt(pre, 0) == pre[0] && LineAt(pre, 1) == pre[1] && LineAt(pre, 2) == "";
      HeaderStep2(pre[0], pre[1], t, nl);
    }
  }

  function HeadersOf(t0: string, t1: string, t2: string): Outcome<SpeechServiceResult> {
    match (RequestIdField(t0), ContentTypeField(t1), PathField(t2))
    case (Returned(id), Returned((ct, cs)), Returned(p)) => Returned(SpeechServiceResult(id, ct, cs, p, None))
    case _ => Thrown
  }

  lemma HeaderStep0(t: string, nl: NewLine)
    ensures match StepLine(Start, 0, t, nl)
      case Thrown => HeadersOf(t, "", "") == Thrown
      case Returned(st) => HeadersOf(t, "", "") == Returned(st.wssr) && !st.isBodyStarted && st.bodyJson == ""
  {
  }

  lemma HeaderStep1(t0: string, t: string, nl: NewLine)
    ensures match HeadersOf(t0, "", "")
      case Thrown => HeadersOf(t0, t, "") == Thrown
      case Returned(r) =>
        match StepLine(ParseState(r, false, ""), 1, t, nl)
        case Thrown => HeadersOf(t0, t, "") == Thrown
        case Returned(st) => HeadersOf(t0, t, "") == Returned(st.wssr) && !st.isBodyStarted && st.bodyJson == ""
  {
  }

  lemma HeaderStep2(t0: string, t1: string, t: string, nl: NewLine)
    ensures match HeadersOf(t0, t1, "")
      case Thrown => HeadersOf(t0, t1, t) == Thrown
      case Returned(r) =>
        match StepLine(ParseState(r, false, ""), 2, t, nl)
        case Thrown => HeadersOf(t0, t1, t) == Thrown
        case Returned(st) => HeadersOf(t0, t1, t) == Returned(st.wssr) && !st.isBodyStarted && st.bodyJson == ""
  {
  }

  /** Adding a line past the headers only extends the body. */
  lemma BodyStep(pre: seq<string>, t: string, nl: NewLine)
    requires |pre| >= 3
    ensures var ts := pre + [t];
      var b := BodyStart(pre);
      && (b < |pre| ==> BodyStart(ts) == b && Body(ts, nl) == Body(pre, nl) + LinePiece(t, nl))
      && (b == |pre| && IsBraceLine(t) ==> BodyStart(ts) == |pre| && Body(ts, nl) == t + nl.Text())
      && (b == |pre| && !IsBraceLine(t) ==> BodyStart(ts) == |ts| && Body(ts, nl) == "")
  {
    var ts := pre + [t];
    var b := BodyStart(pre);
    assert ts[|pre|] == t;
    FirstBraceSnoc(pre, t, 3);
    if b < |pre| {
      assert ts[b..] == pre[b..] + [t];
      assert (pre[b..] + [t])[..|pre[b..]|] == pre[b..];
    } else if IsBraceLine(t) {
      assert ts[|pre|..] == [t];
      assert [t][..0] == [];
      assert NonEmptyJoin([t], nl) == NonEmptyJoin([], nl) + LinePiece(t, nl);
    }
  }

  lemma {:induction false} FirstBraceSnoc(pre: seq<string>, t: string, j: nat)
    requires j <= |pre|
    ensures var b := FirstBraceFrom(pre, j);
      && (b < |pre| ==> FirstBraceFrom(pre + [t], j) == b)
      && (b == |pre| ==> FirstBraceFrom(pre + [t], j) == if IsBraceLine(t) then |pre| else |pre| + 1)
    decreases |pre| - j
  {
    var ts := pre + [t];
    assert ts[|pre|] == t;
    if j < |pre| {
      assert ts[j] == pre[j];
      if !IsBraceLine(pre[j]) {
        FirstBraceSnoc(pre, t, j + 1);
      }
    }
  }

  /** A throw is final: the lines after it are not looked at. */
  lemma {:induction false} FoldThrownStays(ts: seq<string>, more: seq<string>, nl: NewLine)
    requires FoldLines(ts, nl).Thrown?
    ensures FoldLines(ts + more, nl).Thrown?
    decreases |more|
  {
    if more == [] {
      assert ts + more == ts;
    } else {
      var all := ts + more;
      assert all[..|all| - 1] == ts + more[..|more| - 1];
      FoldThrownStays(ts, more[..|more| - 1], nl);
    }
  }

  lemma TrimmedSnoc(ls: seq<string>, l: string)
    ensures Trimmed(ls + [l]) == Trimmed(ls) + [Trim(l)]
  {
  }

  lemma TrimmedAppend(ls: seq<string>, more: seq<string>)
    ensures Trimmed(ls + more) == Trimmed(ls) + Trimmed(more)
  {
  }

  /** The whole parse, read declaratively: it throws exactly when a header
      line is malformed or the deserialiser throws; the header fields come
      from the trimmed lines at raw indices 0, 1 and 2 alone; the body starts
      at the first brace line past them and keeps every later non-empty line. */
  lemma ParseIsPositional(s: string, nl: NewLine, deserialize: string -> Outcome<Option<RecognitionContent>>)
    ensures var ts := Trimmed(Lines(s));
      ParseSpec(s, nl, deserialize) ==
        match Headers(ts)
        case Thrown => Thrown
        case Returned(r) => WithBody(ParseState(r, BodyStart(ts) < |ts|, Body(ts, nl)), deserialize)
  {
    FoldIsPositional(Trimmed(Lines(s)), nl);
  }

  /** A non-empty header line shorter than the name it is matched against
      makes Substring throw, and with it the whole parse. */
  lemma ShortHeaderLineThrows(s: string, nl: NewLine, deserialize: string -> Outcome<Option<RecognitionContent>>)
    requires var ts := Trimmed(Lines(s));
      || (|ts| > 0 && 0 < |ts[0]| < 11)
      || (|ts| > 1 && 0 < |ts[1]| < 12)
      || (|ts| > 2 && 0 < |ts[2]| < 4)
    ensures ParseSpec(s, nl, deserialize) == Thrown
  {
    var ts := Trimmed(Lines(s));
    ParseIsPositional(s, nl, deserialize);
    if |ts| > 1 && 0 < |ts[1]| < 12 {
      var a := Trim(Split(ts[1], IsSemicolon)[0]);
      assert |a| < 12;
    }
  }

  /** Names are matched on a fixed-length prefix without regard to ASCII
      case, and the value starts one character after the name, whatever
      that character is. */
  lemma HeaderNamesIgnoreCase(name: string, sep: char, v: string)
    ensures |name| == 11 && AsciiLower(name) == "x-requestid" ==> RequestIdField(name + [sep] + v) == Returned(Some(v))
    ensures |name| == 4 && AsciiLower(name) == "path" ==>
      PathField(name + [sep] + v) == Returned(PathOf(AsciiLower(Trim(v))))
  {
    var t := name + [sep] + v;
    assert t[..|name|] == name && t[|name| + 1..] == v;
  }

  /** A line at index 0 that is not a request-id header leaves RequestId
      unset; an empty first line does too, since it still takes index 0. */
  lemma RequestIdOnlyAtIndexZero(s: string, nl: NewLine, deserialize: string -> Outcome<Option<RecognitionContent>>)
    requires var ts := Trimmed(Lines(s));
      |ts| == 0 || ts[0] == "" || (|ts[0]| >= 11 && AsciiLower(ts[0][..11]) != "x-requestid")
    ensures ParseSpec(s, nl, deserialize).Returned? ==> ParseSpec(s, nl, deserialize).value.requestId.None?
  {
    ParseKeepsHeaders(s, nl, deserialize);
  }

  /** The path header decides the path: a message whose third line is a
      path header gets the mapped value of what follows `path:`. */
  lemma PathFromThirdLine(s: string, nl: NewLine, deserialize: string -> Outcome<Option<RecognitionContent>>)
    requires var ts := Trimmed(Lines(s));
      |ts| > 2 && |ts[2]| >= 5 && AsciiLower(ts[2][..4]) == "path"
    ensures var ts := Trimmed(Lines(s));
      ParseSpec(s, nl, deserialize).Returned? ==>
        ParseSpec(s, nl, deserialize).value.path == PathOf(AsciiLower(Trim(ts[2][5..])))
  {
    var ts := Trimmed(Lines(s));
    ParseKeepsHeaders(s, nl, deserialize);
    assert LineAt(ts, 2) == ts[2];
  }

  /** A parse that returns carries the header fields of lines 0 to 2. */
  lemma ParseKeepsHeaders(s: string, nl: NewLine, deserialize: string -> Outcome<Option<RecognitionContent>>)
    ensures var ts := Trimmed(Lines(s));
      var p := ParseSpec(s, nl, deserialize);
      p.Returned? ==> Headers(ts).Returned? && p.value == Headers(ts).value.(result := p.value.result)
  {
    var ts := Trimmed(Lines(s));
    ParseIsPositional(s, nl, deserialize);
    if Headers(ts).Returned? {
      WithBodyKeepsHeaders(ParseState(Headers(ts).value, BodyStart(ts) < |ts|, Body(ts, nl)), deserialize);
    }
  }

  lemma WithBodyKeepsHeaders(st: ParseState, deserialize: string -> Outcome<Option<RecognitionContent>>)
    ensures var p := WithBody(st, deserialize);
      p.Returned? ==> p.value == st.wssr.(result := p.value.result)
  {
  }

  /** The result is only ever the deserialised body, and there is none
      without a brace line past the headers. */
  lemma ResultIsDeserialisedBody(s: string, nl: NewLine, deserialize: string -> Outcome<Option<RecognitionContent>>)
    ensures var ts := Trimmed(Lines(s));
      var p := ParseSpec(s, nl, deserialize);
      && (p.Returned? && p.value.result.Some? ==> Body(ts, nl) != "" && deserialize(Body(ts, nl)) == Returned(p.value.result))
      && (BodyStart(ts) == |ts| ==> Body(ts, nl) == "" && (p.Returned? ==> p.value.result.None?))
  {
    ParseIsPositional(s, nl, deserialize);
  }

  /** One more line read: the fold over the lines so far takes one step. */
  lemma FoldSnoc(ls: seq<string>, l: string, nl: NewLine)
    ensures FoldLines(Trimmed(ls + [l]), nl) ==
      match FoldLines(Trimmed(ls), nl)
      case Thrown => Thrown
      case Returned(st) => StepLine(st, |ls|, Trim(l), nl)
  {
    var ts := Trimmed(ls + [l]);
    TrimmedSnoc(ls, l);
    assert ts[..|ts| - 1] == Trimmed(ls);
  }

  /** A line that throws makes the whole parse throw. */
  lemma FoldThrows(result: string, done: seq<string>, raw: string, tail: string, st: ParseState, nl: NewLine)
    requires Lines(result) == done + [raw] + Lines(tail)
    requires FoldLines(Trimmed(done), nl) == Returned(st)
    requires StepLine(st, |done|, Trim(raw), nl) == Thrown
    ensures FoldLines(Trimmed(Lines(result)), nl) == Thrown
  {
    FoldSnoc(done, raw, nl);
    FoldThrownStays(Trimmed(done + [raw]), Trimmed(Lines(tail)), nl);
    TrimmedAppend(done + [raw], Lines(tail));
  }

  /** The `switch (linecount)` on one trimmed line: a header at raw index 0,
      1 or 2, a body line after that. */
  method ProcessLine(st: ParseState, linecount: nat, line: string, nl: NewLine) returns (o: Outcome<ParseState>)
    ensures o == StepLine(st, linecount, line, nl)
  {
    var wssr, isBodyStarted, bodyJson := st.wssr, st.isBodyStarted, st.bodyJson;
    if |line| > 0 {
      if linecount == 0 {
        if |line| < 11 {
          return Thrown;
        }
        if AsciiLower(line[..11]) == "x-requestid" {
          if |line| < 12 {
            return Thrown;
          }
          wssr := wssr.(requestId := Some(line[12..]));
        }
      } else if linecount == 1 {
        var sublines := Split(line, IsSemicolon);
        var a := Trim(sublines[0]);
        if |a| < 12 {
          return Thrown;
        }
        if AsciiLower(a[..12]) == "content-type" {
          if |a| < 13 {
            return Thrown;
          }
          wssr := wssr.(contentType := Some(a[13..]));
          if |sublines| > 1 {
            var b := Trim(sublines[1]);
            if |b| < 7 {
              return Thrown;
            }
            if AsciiLower(b[..7]) == "charset" {
              if |b| < 8 {
                return Thrown;
              }
              wssr := wssr.(charSet := Some(b[8..]));
            }
          }
        }
      } else if linecount == 2 {
        if |line| < 4 {
          return Thrown;
        }
        if AsciiLower(line[..4]) == "path" {
          if |line| < 5 {
            return Thrown;
          }
          var pathStr := AsciiLower(Trim(line[5..]));
          var p := PathOf(pathStr);
          if p.Some? {
            wssr := wssr.(path := p);
          }
        }
      } else {
        if !isBodyStarted {
          if line[..1] == "{" {
            isBodyStarted := true;
            bodyJson := bodyJson + line + nl.Text();
          }
        } else {
          bodyJson := bodyJson + line + nl.Text();
        }
      }
    }
    o := Returned(ParseState(wssr, isBodyStarted, bodyJson));
  }

  /** The line loop of ParseWebSocketSpeechResult: reads the text line by
      line, trims each line, and dispatches on the raw line index. */
  method ReadAllLines(result: string, nl: NewLine) returns (o: Outcome<ParseState>)
    ensures o == FoldLines(Trimmed(Lines(result)), nl)
  {
    var wssr := EmptyResult;
    var rest := result;
    var linecount := 0;
    var isBodyStarted := false;
    var bodyJson := "";
    ghost var done: seq<string> := [];
    while true
      invariant Lines(result) == done + Lines(rest)
      invariant linecount == |done|
      invariant FoldLines(Trimmed(done), nl) == Returned(ParseState(wssr, isBodyStarted, bodyJson))
      decreases |rest|
    {
      var next := ReadLine(rest);
      LinesUnfold(rest);
      if next.None? {
        break;
      }
      var raw, tail := next.value.0, next.value.1;
      assert Lines(result) == done + [raw] + Lines(tail);
      var line := Trim(raw);
      var st := ParseState(wssr, isBodyStarted, bodyJson);
      var step := ProcessLine(st, linecount, line, nl);
      if step.Thrown? {
        FoldThrows(result, done, raw, tail, st, nl);
        return Thrown;
      }
      wssr, isBodyStarted, bodyJson := step.value.wssr, step.value.isBodyStarted, step.value.bodyJson;
      FoldSnoc(done, raw, nl);
      done := done + [raw];
      rest := tail;
      linecount := linecount + 1;
    }
    assert done == Lines(result);
    o := Returned(ParseState(wssr, isBodyStarted, bodyJson));
  }

  /** ParseWebSocketSpeechResult: the line loop, then the body handed to the
      deserialiser. Every `Substring` that would throw returns Thrown. */
  method ParseWebSocketSpeechResult(result: string, nl: NewLine, deserialize: string -> Outcome<Option<RecognitionContent>>)
    returns (r: Outcome<SpeechServiceResult>)
    ensures r == ParseSpec(result, nl, deserialize)
  {
    var o := ReadAllLines(result, nl);
    if o.Thrown? {
      return Thrown;
    }
    var wssr := o.value.wssr;
    var bodyJson := o.value.bodyJson;
    if |bodyJson| > 0 {
      var srr := deserialize(bodyJson);
      if srr.Thrown? {
        return Thrown;
      }
      if srr.value.Some? {
        wssr := wssr.(result := srr.value);
      }
    }
    r := Returned(wssr);
  }
}
