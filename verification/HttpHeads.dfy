/** The language of the request head parser: what it accepts, what it makes of it, and
    the round trip with the printer. The grammar is that of RFC 1945 sections 4.2 and
    5, with the parser's own treatment of white space: exactly one space after the
    colon, and the text of a continuation line joined to the value without a space. */
module HttpHeads {
  import opened Prelude
  import opened HttpText
  import opened HttpRequests
  import opened HttpRequestParsers

  // ---------- the grammar ----------

  /** The characters of a token, listed: what section 2.2 of RFC 1945 leaves after taking
      away controls and special characters. */
  predicate TokenChar(c: char) {
    || 'a' <= c <= 'z' || 'A' <= c <= 'Z' || '0' <= c <= '9'
    || c == '!' || c == '#' || c == '$' || c == '%' || c == '&' || c == '\'' || c == '*' || c == '+'
    || c == '-' || c == '.' || c == '^' || c == '_' || c == '`' || c == '|' || c == '~'
  }

  /** The characters with codes 0 to 31 and 127 are not text. */
  predicate TextChar(c: char) {
    c as int >= 32 && c as int != 127
  }

  /** The character classes of the parser are those sets. */
  lemma TokenCharacters(c: char)
    ensures IsTokenChar(c) <==> TokenChar(c)
    ensures TokenChar(c) ==> TextChar(c) && c != ':' && c != ' '
    ensures !TextChar(c) <==> IsCtl(c)
  {
  }

  /** What each state refuses: in a method or a name whatever is not in the list and does
      not end it, in a target or a value exactly the control characters, a line end of
      the value excepted. */
  lemma RefusedCharacters(req: Request, c: char)
    requires req.headers != []
    ensures ConsumeChar(MethodStart, req, c).result == Some(false) <==> !TokenChar(c)
    ensures ConsumeChar(Method, req, c).result == Some(false) <==> !TokenChar(c) && c != ' '
    ensures ConsumeChar(HeaderName, req, c).result == Some(false) <==> !TokenChar(c) && c != ':'
    ensures ConsumeChar(Uri, req, c).result == Some(false) <==> c as int <= 31 || c as int == 127
    ensures ConsumeChar(HeaderValue, req, c).result == Some(false)
            <==> (c as int <= 31 || c as int == 127) && c as int != 13
  {
    TokenCharacters(c);
  }

  predicate Token(s: string) {
    s != [] && forall i :: 0 <= i < |s| ==> TokenChar(s[i])
  }

  predicate Visible(s: string) {
    forall i :: 0 <= i < |s| ==> TextChar(s[i])
  }

  predicate CleanUri(s: string) {
    forall i :: 0 <= i < |s| ==> s[i] != ' ' && TextChar(s[i])
  }

  predicate Spaces(s: string) {
    s != [] && forall i :: 0 <= i < |s| ==> s[i] == ' ' || s[i] == '\t'
  }

  datatype FieldLine = Field(name: string, value: string) | Folded(space: string, text: string)

  predicate ValidLine(l: FieldLine) {
    match l
    case Field(name, value) => Token(name) && Visible(value)
    case Folded(space, text) => Spaces(space) && Visible(text) && (text != [] ==> text[0] != ' ')
  }

  predicate ValidLines(ls: seq<FieldLine>) {
    && (forall i :: 0 <= i < |ls| ==> ValidLine(ls[i]))
    && (ls != [] ==> ls[0].Field?)
  }

  function PrintLine(l: FieldLine): string {
    match l
    case Field(name, value) => name + ": " + value
    case Folded(space, text) => space + text
  }

  function PrintLines(ls: seq<FieldLine>): string {
    if ls == [] then [] else PrintLines(ls[..|ls| - 1]) + (PrintLine(ls[|ls| - 1]) + CRLF)
  }

  /** A continuation extends the value of the header before it. */
  function AddLine(hs: seq<Header>, l: FieldLine): seq<Header> {
    match l
    case Field(name, value) => hs + [Header(name, value)]
    case Folded(_, text) =>
      if hs == [] then hs
      else
        var last := hs[|hs| - 1];
        hs[|hs| - 1 := last.(value := last.value + text)]
  }

  function HeadersOf(ls: seq<FieldLine>): seq<Header> {
    if ls == [] then [] else AddLine(HeadersOf(ls[..|ls| - 1]), ls[|ls| - 1])
  }

  datatype Head = Head(verb: string, uri: string, major: string, minor: string, lines: seq<FieldLine>)

  predicate ValidHead(h: Head) {
    && Token(h.verb) && CleanUri(h.uri)
    && h.major != [] && Digits(h.major) && h.minor != [] && Digits(h.minor)
    && ValidLines(h.lines)
  }

  function RequestLine(verb: string, uri: string, major: string, minor: string): string {
    verb + " " + uri + " " + ("HTTP/" + major + "." + minor + CRLF)
  }

  function PrintHead(h: Head): string {
    RequestLine(h.verb, h.uri, h.major, h.minor) + PrintLines(h.lines) + CRLF
  }

  function RequestOf(h: Head): Request
    requires ValidHead(h)
  {
    Request(h.verb, h.uri, NumberOf(h.major), NumberOf(h.minor), HeadersOf(h.lines))
  }

  // ---------- what has been read so far ----------

  /** The parts of the head read so far that the request does not show: the digits of
      the version, the complete lines, and the line being read. */
  datatype Trace = Trace(major: string, minor: string, done: seq<FieldLine>, line: FieldLine)

  function VersionText(state: HeadState, t: Trace): string {
    match state
    case HttpVersionT1 => "H"
    case HttpVersionT2 => "HT"
    case HttpVersionP => "HTT"
    case HttpVersionSlash => "HTTP"
    case MajorStart => "HTTP/"
    case Major => "HTTP/" + t.major
    case MinorStart => "HTTP/" + t.major + "."
    case Minor => "HTTP/" + t.major + "." + t.minor
    case ExpectingNewline1 => "HTTP/" + t.major + "." + t.minor + "\r"
    case _ => ""
  }

  predicate InLine(state: HeadState) {
    state.HeaderLws? || state.HeaderName? || state.SpaceBeforeHeaderValue? || state.HeaderValue?
    || state.ExpectingNewline2?
  }

  function LineText(state: HeadState, l: FieldLine): string {
    if state.HeaderName? && l.Field? then l.name
    else if state.SpaceBeforeHeaderValue? && l.Field? then l.name + ":"
    else if state.ExpectingNewline2? then PrintLine(l) + "\r"
    else if state.ExpectingNewline3? then "\r"
    else if state.HeaderLineStart? then ""
    else PrintLine(l)
  }

  predicate InVersion(state: HeadState) {
    !InHeaders(state) && !state.MethodStart? && !state.Method? && !state.Uri?
  }

  /** The digits of one number of the version, and its value. */
  predicate NumberRead(digits: string, value: int) {
    digits != [] && Digits(digits) && value == NumberOf(digits)
  }

  /** The state of the version digits before the first header line. */
  predicate TracksVersion(state: HeadState, req: Request, t: Trace) {
    match state
    case MajorStart => req.major == 0 && req.minor == 0
    case Major => NumberRead(t.major, req.major) && req.minor == 0
    case MinorStart => NumberRead(t.major, req.major) && req.minor == 0
    case Minor => NumberRead(t.major, req.major) && NumberRead(t.minor, req.minor)
    case ExpectingNewline1 => NumberRead(t.major, req.major) && NumberRead(t.minor, req.minor)
    case _ => true
  }

  /** A request line has been read, `start` being its text. */
  predicate Started(verb: string, uri: string, major: int, minor: int, t: Trace, start: string) {
    && Token(verb) && CleanUri(uri) && NumberRead(t.major, major) && NumberRead(t.minor, minor)
    && start == RequestLine(verb, uri, t.major, t.minor)
  }

  /** Between the lines of the header section, or inside `line`. */
  predicate TracksLines(state: HeadState, headers: seq<Header>, done: seq<FieldLine>, line: FieldLine) {
    && ValidLines(done)
    && (if InLine(state) then
          && ValidLine(line) && (line.Folded? ==> done != [])
          && headers == AddLine(HeadersOf(done), line)
        else headers == HeadersOf(done))
    && (state.HeaderName? || state.SpaceBeforeHeaderValue? ==> line.Field? && line.value == [])
    && (state.HeaderLws? ==> line.Folded? && line.text == [])
    && (state.HeaderValue? && line.Folded? ==> line.text != [])
  }

  /** `text` is what the parser has read when it is in `state` having filled in `req`. */
  ghost predicate Tracks(state: HeadState, req: Request, t: Trace, text: string) {
    if InHeaders(state) then
      exists start ::
        && Started(req.verb, req.uri, req.major, req.minor, t, start)
        && TracksLines(state, req.headers, t.done, t.line)
        && text == start + PrintLines(t.done) + LineText(state, t.line)
    else
      && req.headers == []
      && match state
         case MethodStart => text == [] && req.verb == [] && req.uri == []
         case Method => text == req.verb && Token(req.verb) && req.uri == []
         case Uri => text == req.verb + " " + req.uri && Token(req.verb) && CleanUri(req.uri)
         case _ =>
           && Token(req.verb) && CleanUri(req.uri) && TracksVersion(state, req, t)
           && text == req.verb + " " + req.uri + " " + VersionText(state, t)
  }

  // ---------- soundness: the request line ----------

  lemma NumberGrows(digits: string, value: int, c: char)
    requires IsDigit(c) && (if digits == [] then value == 0 else NumberRead(digits, value))
    ensures NumberRead(digits + [c], Digit(value, c))
  {
    assert (digits + [c])[..|digits|] == digits;
  }

  lemma {:induction false} TargetStep(state: HeadState, req: Request, t: Trace, text: string, c: char)
    requires state.MethodStart? || state.Method? || state.Uri?
    requires Tracks(state, req, t, text) && ConsumeChar(state, req, c).result.None?
    ensures var s := ConsumeChar(state, req, c);
            Tracks(s.state, s.req, t, text + [c])
  {
    if state.Uri? {
      if c == ' ' {
        assert text + [c] == req.verb + " " + req.uri + " " + "";
      } else {
        AppendAssociative(req.verb + " ", req.uri, [c]);
      }
    } else if c == ' ' {
      assert text + [c] == req.verb + " " + [];
    } else {
      assert text + [c] == req.verb + [c];
    }
  }

  /** The fixed letters of the version. */
  lemma LetterStep(state: HeadState, req: Request, t: Trace, c: char)
    requires state.HttpVersionH? || state.HttpVersionT1? || state.HttpVersionT2? || state.HttpVersionP?
             || state.HttpVersionSlash?
    requires ConsumeRequestLine(state, req, c).result.None?
    ensures var s := ConsumeRequestLine(state, req, c);
            && InVersion(s.state) && s.req == req.(major := s.req.major, minor := s.req.minor)
            && TracksVersion(s.state, s.req, t) && VersionText(s.state, t) == VersionText(state, t) + [c]
  {
  }

  lemma MajorStep(state: HeadState, req: Request, t: Trace, c: char) returns (u: Trace)
    requires state.MajorStart? || state.Major?
    requires TracksVersion(state, req, t) && ConsumeRequestLine(state, req, c).result.None?
    ensures var s := ConsumeRequestLine(state, req, c);
            && InVersion(s.state) && s.req == req.(major := s.req.major, minor := s.req.minor)
            && TracksVersion(s.state, s.req, u) && VersionText(s.state, u) == VersionText(state, t) + [c]
  {
    var digits := if state.Major? then t.major else [];
    if state.Major? && c == '.' {
      u := t;
    } else {
      u := t.(major := digits + [c]);
      NumberGrows(digits, req.major, c);
      AppendAssociative("HTTP/", digits, [c]);
    }
  }

  lemma MinorStep(state: HeadState, req: Request, t: Trace, c: char) returns (u: Trace)
    requires state.MinorStart? || state.Minor?
    requires TracksVersion(state, req, t) && ConsumeRequestLine(state, req, c).result.None?
    ensures var s := ConsumeRequestLine(state, req, c);
            && InVersion(s.state) && s.req == req.(major := s.req.major, minor := s.req.minor)
            && TracksVersion(s.state, s.req, u) && VersionText(s.state, u) == VersionText(state, t) + [c]
  {
    var digits := if state.Minor? then t.minor else [];
    if state.Minor? && c == '\r' {
      u := t;
    } else {
      u := t.(minor := digits + [c]);
      NumberGrows(digits, req.minor, c);
      AppendAssociative("HTTP/" + t.major + ".", digits, [c]);
    }
  }

  lemma VersionStep(state: HeadState, req: Request, t: Trace, text: string, c: char) returns (u: Trace)
    requires InVersion(state) && !state.ExpectingNewline1?
    requires Tracks(state, req, t, text) && ConsumeChar(state, req, c).result.None?
    ensures var s := ConsumeChar(state, req, c);
            Tracks(s.state, s.req, u, text + [c])
  {
    hide TracksVersion, ConsumeRequestLine, VersionText;
    if state.MajorStart? || state.Major? {
      u := MajorStep(state, req, t, c);
    } else if state.MinorStart? || state.Minor? {
      u := MinorStep(state, req, t, c);
    } else {
      u := t;
      LetterStep(state, req, t, c);
    }
    AppendAssociative(req.verb + " " + req.uri + " ", VersionText(state, t), [c]);
  }

  lemma VersionEnd(req: Request, t: Trace, text: string) returns (u: Trace)
    requires Tracks(ExpectingNewline1, req, t, text)
    ensures Tracks(HeaderLineStart, req, u, text + ['\n'])
  {
    u := t.(done := []);
    var start := RequestLine(req.verb, req.uri, t.major, t.minor);
    var version := "HTTP/" + t.major + "." + t.minor;
    assert version + "\r" + ['\n'] == version + CRLF;
    AppendAssociative(req.verb + " " + req.uri + " ", version + "\r", ['\n']);
    assert Started(req.verb, req.uri, req.major, req.minor, u, start);
    assert text + ['\n'] == start + PrintLines(u.done) + "";
  }

  // ---------- soundness: the header lines ----------

  lemma {:induction false} LinesGiveHeaders(ls: seq<FieldLine>)
    requires ValidLines(ls)
    ensures ls != [] <==> HeadersOf(ls) != []
    ensures forall i :: 0 <= i < |HeadersOf(ls)| ==> Token(HeadersOf(ls)[i].name) && Visible(HeadersOf(ls)[i].value)
  {
    if ls != [] {
      var init := ls[..|ls| - 1];
      assert forall i :: 0 <= i < |init| ==> init[i] == ls[i];
      LinesGiveHeaders(init);
      assert ValidLine(ls[|ls| - 1]);
    }
  }

  /** A character inside the header section extends the line being read. */
  ghost predicate LineGrows(state: HeadState, req: Request, done: seq<FieldLine>, line: FieldLine, c: char,
                            s: HeadStep, next: FieldLine) {
    && InHeaders(s.state) && s.req == req.(headers := s.req.headers)
    && TracksLines(s.state, s.req.headers, done, next)
    && LineText(s.state, next) == LineText(state, line) + [c]
  }

  lemma LineStartStep(req: Request, done: seq<FieldLine>, line: FieldLine, c: char) returns (next: FieldLine)
    requires TracksLines(HeaderLineStart, req.headers, done, line)
    requires ConsumeHeaderLine(HeaderLineStart, req, c).result.None?
    ensures LineGrows(HeaderLineStart, req, done, line, c, ConsumeHeaderLine(HeaderLineStart, req, c), next)
  {
    hide HeadersOf, ValidLines, TokenChar, IsTokenChar, Token, Visible, Spaces, AddLine;
    TokenCharacters(c);
    var s := ConsumeHeaderLine(HeaderLineStart, req, c);
    next := if s.state.HeaderLws? then Folded([c], []) else Field([c], []);
    FirstOfLine(req.headers, c);
    LinesGiveHeaders(done);
    AddBlank(req.headers, [c]);
  }

  lemma FirstOfLine(hs: seq<Header>, c: char)
    ensures "" + [c] == [c] && [c] + [] == [c]
    ensures Visible([]) && (TokenChar(c) ==> Token([c])) && (c == ' ' || c == '\t' ==> Spaces([c]))
    ensures AddLine(hs, Field([c], [])) == hs + [Header([c], [])]
  {
    hide TokenChar;
  }

  lemma AddBlank(hs: seq<Header>, space: string)
    ensures AddLine(hs, Folded(space, [])) == hs
  {
    if hs != [] {
      assert hs[|hs| - 1].value + [] == hs[|hs| - 1].value;
    }
  }

  lemma NameGrows(hs: seq<Header>, name: string, c: char)
    ensures PushName(hs + [Header(name, [])], c) == hs + [Header(name + [c], [])]
  {
  }

  lemma NameStep(state: HeadState, req: Request, done: seq<FieldLine>, line: FieldLine, c: char)
      returns (next: FieldLine)
    requires state.HeaderName? || state.SpaceBeforeHeaderValue?
    requires Ready(state, req) && TracksLines(state, req.headers, done, line)
    requires ConsumeHeaderLine(state, req, c).result.None?
    ensures LineGrows(state, req, done, line, c, ConsumeHeaderLine(state, req, c), next)
  {
    hide HeadersOf;
    next := line;
    if state.HeaderName? && c != ':' {
      next := Field(line.name + [c], []);
      NameGrows(HeadersOf(done), line.name, c);
    } else if state.SpaceBeforeHeaderValue? {
      assert line.name + ":" + [c] == line.name + ": " + [];
    }
  }

  function ExtendLine(l: FieldLine, c: char): FieldLine {
    match l
    case Field(name, value) => Field(name, value + [c])
    case Folded(space, text) => Folded(space, text + [c])
  }

  lemma ExtendLineFacts(hs: seq<Header>, l: FieldLine, c: char)
    requires l.Folded? ==> hs != []
    requires ValidLine(l) && !IsCtl(c) && (l.Folded? && l.text == [] ==> c != ' ')
    ensures ValidLine(ExtendLine(l, c))
    ensures PrintLine(ExtendLine(l, c)) == PrintLine(l) + [c]
    ensures PushValue(AddLine(hs, l), c) == AddLine(hs, ExtendLine(l, c))
  {
    match l {
      case Field(name, value) =>
        AppendAssociative(name + ": ", value, [c]);
      case Folded(space, text) =>
        AppendAssociative(space, text, [c]);
        AppendAssociative(hs[|hs| - 1].value, text, [c]);
    }
  }

  lemma ValueStep(state: HeadState, req: Request, done: seq<FieldLine>, line: FieldLine, c: char)
      returns (next: FieldLine)
    requires state.HeaderValue? || state.HeaderLws?
    requires Ready(state, req) && TracksLines(state, req.headers, done, line)
    requires ConsumeHeaderLine(state, req, c).result.None?
    ensures LineGrows(state, req, done, line, c, ConsumeHeaderLine(state, req, c), next)
  {
    LinesGiveHeaders(done);
    hide HeadersOf;
    next := line;
    if c != '\r' {
      if state.HeaderLws? && (c == ' ' || c == '\t') {
        next := Folded(line.space + [c], []);
        assert PrintLine(line) == line.space && PrintLine(next) == next.space;
        AddBlank(HeadersOf(done), line.space);
        AddBlank(HeadersOf(done), next.space);
      } else {
        next := ExtendLine(line, c);
        ExtendLineFacts(HeadersOf(done), line, c);
      }
    }
  }

  lemma LineStep(state: HeadState, req: Request, done: seq<FieldLine>, line: FieldLine, c: char)
      returns (next: FieldLine)
    requires InHeaders(state) && !state.ExpectingNewline2?
    requires Ready(state, req) && TracksLines(state, req.headers, done, line)
    requires ConsumeHeaderLine(state, req, c).result.None?
    ensures LineGrows(state, req, done, line, c, ConsumeHeaderLine(state, req, c), next)
  {
    hide TracksLines, LineGrows;
    if state.HeaderLineStart? {
      next := LineStartStep(req, done, line, c);
    } else if state.HeaderName? || state.SpaceBeforeHeaderValue? {
      next := NameStep(state, req, done, line, c);
    } else {
      next := ValueStep(state, req, done, line, c);
    }
  }

  lemma LineEnd(req: Request, t: Trace, text: string) returns (u: Trace)
    requires Tracks(ExpectingNewline2, req, t, text)
    ensures Tracks(HeaderLineStart, req, u, text + ['\n'])
  {
    hide Started, TracksLines, PrintLine;
    var start :| && Started(req.verb, req.uri, req.major, req.minor, t, start)
                 && text == start + PrintLines(t.done) + LineText(ExpectingNewline2, t.line);
    u := t.(done := t.done + [t.line]);
    StartedIgnoresLines(req, t, u.done, start);
    LineDone(req.headers, t.done, t.line);
    hide PrintLines;
    LineEndText(start, PrintLines(t.done), PrintLine(t.line));
  }

  lemma LineDone(hs: seq<Header>, done: seq<FieldLine>, line: FieldLine)
    requires TracksLines(ExpectingNewline2, hs, done, line)
    ensures TracksLines(HeaderLineStart, hs, done + [line], line)
    ensures PrintLines(done + [line]) == PrintLines(done) + (PrintLine(line) + CRLF)
  {
    var more := done + [line];
    assert more[..|more| - 1] == done && more[|more| - 1] == line;
  }

  lemma LineEndText(start: string, done: string, line: string)
    ensures start + done + (line + "\r") + ['\n'] == start + (done + (line + CRLF)) + ""
  {
    assert line + "\r" + ['\n'] == line + CRLF;
    AppendAssociative(start + done, line + "\r", ['\n']);
    AppendAssociative(start, done, line + CRLF);
  }

  lemma HeaderStep(state: HeadState, req: Request, t: Trace, text: string, c: char) returns (u: Trace)
    requires InHeaders(state) && Ready(state, req)
    requires Tracks(state, req, t, text) && ConsumeChar(state, req, c).result.None?
    ensures var s := ConsumeChar(state, req, c);
            Tracks(s.state, s.req, u, text + [c])
  {
    if state.ExpectingNewline2? {
      u := LineEnd(req, t, text);
      return;
    }
    hide Started, TracksLines, ConsumeHeaderLine, PrintLines, LineText;
    var start :| && Started(req.verb, req.uri, req.major, req.minor, t, start)
                 && text == start + PrintLines(t.done) + LineText(state, t.line);
    var next := LineStep(state, req, t.done, t.line, c);
    u := t.(line := next);
    StartedIgnoresLine(req, t, next, start);
    AppendAssociative(start + PrintLines(t.done), LineText(state, t.line), [c]);
  }

  lemma StartedIgnoresLines(req: Request, t: Trace, done: seq<FieldLine>, start: string)
    ensures Started(req.verb, req.uri, req.major, req.minor, t, start)
            == Started(req.verb, req.uri, req.major, req.minor, t.(done := done), start)
  {
  }

  lemma StartedIgnoresLine(req: Request, t: Trace, line: FieldLine, start: string)
    ensures Started(req.verb, req.uri, req.major, req.minor, t, start)
            == Started(req.verb, req.uri, req.major, req.minor, t.(line := line), start)
  {
  }

  lemma Step(state: HeadState, req: Request, t: Trace, text: string, c: char) returns (u: Trace)
    requires Ready(state, req) && Tracks(state, req, t, text) && ConsumeChar(state, req, c).result.None?
    ensures var s := ConsumeChar(state, req, c);
            Tracks(s.state, s.req, u, text + [c])
  {
    hide Tracks, ConsumeHeaderLine;
    if InHeaders(state) {
      u := HeaderStep(state, req, t, text, c);
    } else if state.MethodStart? || state.Method? || state.Uri? {
      u := t;
      TargetStep(state, req, t, text, c);
    } else if state.ExpectingNewline1? {
      u := VersionEnd(req, t, text);
    } else {
      u := VersionStep(state, req, t, text, c);
    }
  }

  lemma OnlyTheLastLineFeedAccepts(state: HeadState, req: Request, c: char)
    requires Ready(state, req)
    ensures ConsumeChar(state, req, c).result == Some(true) <==> state.ExpectingNewline3? && c == '\n'
    ensures ConsumeChar(state, req, c).result.Some? ==>
              ConsumeChar(state, req, c).state == state && ConsumeChar(state, req, c).req == req
  {
  }

  /** Acceptance: what has been read is a whole head. */
  lemma {:induction false} Accept(state: HeadState, req: Request, t: Trace, text: string, c: char) returns (h: Head)
    requires Ready(state, req) && Tracks(state, req, t, text) && ConsumeChar(state, req, c).result == Some(true)
    ensures ValidHead(h) && text + [c] == PrintHead(h) && ConsumeChar(state, req, c).req == RequestOf(h)
  {
    OnlyTheLastLineFeedAccepts(state, req, c);
    hide ConsumeChar, PrintLines, RequestLine, HeadersOf, CleanUri, Token, ValidLines;
    var start :| && Started(req.verb, req.uri, req.major, req.minor, t, start)
                 && text == start + PrintLines(t.done) + LineText(state, t.line);
    h := Head(req.verb, req.uri, t.major, t.minor, t.done);
    AppendAssociative(start + PrintLines(t.done), "\r", [c]);
    assert "\r" + [c] == CRLF;
  }

  lemma TextGrows(text: string, input: string, used: nat)
    requires input != [] && used < |input|
    ensures text + [input[0]] + input[1..][..used] == text + input[..used + 1]
  {
  }

  /** The characters that have gone into the state and the request: all that were read,
      except the one that decided. */
  function Taken(r: HeadRun): int {
    if r.result.None? then r.used else r.used - 1
  }

  /** Whatever the parser has read, accepting, rejecting or undecided, the trace accounts
      for every character up to the one that decided; and if it accepts, what it read is a
      head of the grammar and the request is what the grammar makes of it. */
  lemma {:induction false} Follow(state: HeadState, req: Request, t: Trace, text: string, input: string)
      returns (u: Trace, h: Head)
    requires Ready(state, req) && Tracks(state, req, t, text)
    ensures var r := ParseHead(state, req, input);
            && 0 <= Taken(r) <= |input|
            && Tracks(r.state, r.req, u, text + input[..Taken(r)])
            && (r.result == Some(true) ==>
                  ValidHead(h) && text + input[..r.used] == PrintHead(h) && r.req == RequestOf(h))
    decreases |input|
  {
    hide ParseHead, Tracks, ConsumeChar, Ready, ValidHead, PrintHead, RequestOf;
    u, h := t, Head([], [], [], [], []);
    assert text + input[..0] == text;
    if input == [] {
      ParseHeadEmpty(state, req);
      return;
    }
    var c, rest := input[0], input[1..];
    var s := ConsumeChar(state, req, c);
    ParseHeadFirst(state, req, input);
    if s.result.None? {
      u := Step(state, req, t, text, c);
      u, h := Follow(s.state, s.req, u, text + [c], rest);
      var r, p := ParseHead(s.state, s.req, rest), ParseHead(state, req, input);
      assert p == Later(r, 1) && Taken(p) == Taken(r) + 1;
      TextGrows(text, input, Taken(r));
      if r.result == Some(true) {
        TextGrows(text, input, r.used);
      }
    } else {
      OnlyTheLastLineFeedAccepts(state, req, c);
      if s.result == Some(true) {
        h := Accept(state, req, t, text, c);
        assert input[..1] == [c];
      }
    }
  }

  lemma ParseHeadEmpty(state: HeadState, req: Request)
    requires Ready(state, req)
    ensures ParseHead(state, req, []) == HeadRun(state, req, None, 0)
  {
  }

  /** A request object as constructed, with arbitrary version numbers. */
  predicate Blank(req: Request) {
    req.verb == [] && req.uri == [] && req.headers == []
  }

  /** Soundness: whenever the parser accepts, the characters it has used are a head of
      the grammar and the request has the fields the grammar assigns. */
  lemma {:induction false} Soundness(req: Request, input: string) returns (h: Head)
    requires Blank(req) && ParseHead(MethodStart, req, input).result == Some(true)
    ensures var r := ParseHead(MethodStart, req, input);
            ValidHead(h) && input[..r.used] == PrintHead(h) && r.req == RequestOf(h)
  {
    var u;
    u, h := Follow(MethodStart, req, Trace([], [], [], Field([], [])), [], input);
    var r := ParseHead(MethodStart, req, input);
    assert [] + input[..r.used] == input[..r.used];
  }

  /** In every state the parser can be in, undecided, accepting or rejecting: the states
      that write to the last header have one, names are nonempty tokens, and neither the
      target nor any value has control characters. */
  lemma {:induction false} StateInvariant(req: Request, input: string)
    requires Blank(req)
    ensures var r := ParseHead(MethodStart, req, input);
            && (InLine(r.state) ==> r.req.headers != [])
            && (r.req.verb == [] || Token(r.req.verb)) && CleanUri(r.req.uri)
            && forall i :: 0 <= i < |r.req.headers| ==>
                 Token(r.req.headers[i].name) && Visible(r.req.headers[i].value)
  {
    var u, _ := Follow(MethodStart, req, Trace([], [], [], Field([], [])), [], input);
    var r := ParseHead(MethodStart, req, input);
    hide ParseHead;
    if InHeaders(r.state) {
      LinesGiveHeaders(u.done);
    }
  }

  // ---------- completeness ----------

  /** An undecided run: `s` takes the machine from one state to another. */
  ghost predicate Reaches(state: HeadState, req: Request, s: string, state': HeadState, req': Request) {
    Ready(state, req) && ParseHead(state, req, s) == HeadRun(state', req', None, |s|)
  }

  lemma Chain(s0: HeadState, r0: Request, a: string, s1: HeadState, r1: Request, b: string, s2: HeadState, r2: Request)
    requires Reaches(s0, r0, a, s1, r1) && Reaches(s1, r1, b, s2, r2)
    ensures Reaches(s0, r0, a + b, s2, r2)
  {
    ParseHeadConcat(s0, r0, a, b);
  }

  lemma One(state: HeadState, req: Request, c: char)
    requires Ready(state, req)
    ensures var s := ConsumeChar(state, req, c);
            ParseHead(state, req, [c]) == HeadRun(s.state, s.req, s.result, 1)
  {
    var s := ConsumeChar(state, req, c);
    assert [c][1..] == [];
    assert ParseHead(s.state, s.req, []) == HeadRun(s.state, s.req, None, 0);
  }

  lemma ChainOne(s0: HeadState, r0: Request, a: string, s1: HeadState, r1: Request, c: char, s2: HeadState, r2: Request)
    requires Reaches(s0, r0, a, s1, r1) && ConsumeChar(s1, r1, c) == HeadStep(s2, r2, None)
    ensures Reaches(s0, r0, a + [c], s2, r2)
  {
    hide ParseHead;
    One(s1, r1, c);
    Chain(s0, r0, a, s1, r1, [c], s2, r2);
  }

  /** A line break ends the line. */
  lemma LineFeed(s0: HeadState, r0: Request, a: string, s1: HeadState, r1: Request, s2: HeadState)
    requires Reaches(s0, r0, a, s1, r1)
    requires s2.ExpectingNewline1? || s2.ExpectingNewline2?
    requires ConsumeChar(s1, r1, '\r') == HeadStep(s2, r1, None)
    ensures Reaches(s0, r0, a + CRLF, HeaderLineStart, r1)
  {
    hide ParseHead;
    ChainOne(s0, r0, a, s1, r1, '\r', s2, r1);
    ChainOne(s0, r0, a + ['\r'], s2, r1, '\n', HeaderLineStart, r1);
    assert a + ['\r'] + ['\n'] == a + CRLF;
  }

  lemma LastChar(s: string)
    requires s != []
    ensures s == s[..|s| - 1] + [s[|s| - 1]]
  {
  }

  lemma {:induction false} MethodReaches(req: Request, verb: string)
    requires Blank(req) && Token(verb)
    ensures Reaches(MethodStart, req, verb, Method, req.(verb := verb))
    decreases |verb|
  {
    hide ParseHead, TokenChar, IsTokenChar, IsCtl;
    var init, c := verb[..|verb| - 1], verb[|verb| - 1];
    TokenCharacters(c);
    LastChar(verb);
    if init == [] {
      One(MethodStart, req, c);
    } else {
      MethodReaches(req, init);
      ChainOne(MethodStart, req, init, Method, req.(verb := init), c, Method, req.(verb := verb));
    }
  }

  lemma {:induction false} UriReaches(req: Request, uri: string)
    requires req.uri == [] && CleanUri(uri)
    ensures Reaches(Uri, req, uri, Uri, req.(uri := uri))
    decreases |uri|
  {
    if uri != [] {
      hide ParseHead;
      var init, c := uri[..|uri| - 1], uri[|uri| - 1];
      LastChar(uri);
      UriReaches(req, init);
      ChainOne(Uri, req, init, Uri, req.(uri := init), c, Uri, req.(uri := uri));
    }
  }

  lemma TargetReaches(req: Request, verb: string, uri: string)
    requires Blank(req) && Token(verb) && CleanUri(uri)
    ensures Reaches(MethodStart, req, verb + " " + uri + " ", HttpVersionH, req.(verb := verb, uri := uri))
  {
    hide ParseHead;
    var r1 := req.(verb := verb);
    var r2 := req.(verb := verb, uri := uri);
    MethodReaches(req, verb);
    ChainOne(MethodStart, req, verb, Method, r1, ' ', Uri, r1);
    UriReaches(r1, uri);
    Chain(MethodStart, req, verb + " ", Uri, r1, uri, Uri, r2);
    ChainOne(MethodStart, req, verb + " " + uri, Uri, r2, ' ', HttpVersionH, r2);
  }

  lemma SlashReaches(req: Request)
    ensures Reaches(HttpVersionH, req, "HTTP/", MajorStart, req.(major := 0, minor := 0))
  {
    hide ParseHead;
    One(HttpVersionH, req, 'H');
    ChainOne(HttpVersionH, req, "H", HttpVersionT1, req, 'T', HttpVersionT2, req);
    assert "H" + ['T'] == "HT";
    ChainOne(HttpVersionH, req, "HT", HttpVersionT2, req, 'T', HttpVersionP, req);
    assert "HT" + ['T'] == "HTT";
    ChainOne(HttpVersionH, req, "HTT", HttpVersionP, req, 'P', HttpVersionSlash, req);
    assert "HTT" + ['P'] == "HTTP";
    ChainOne(HttpVersionH, req, "HTTP", HttpVersionSlash, req, '/', MajorStart, req.(major := 0, minor := 0));
    assert "HTTP" + ['/'] == "HTTP/";
  }

  lemma {:induction false} MajorReaches(req: Request, major: string)
    requires req.major == 0 && major != [] && Digits(major)
    ensures Reaches(MajorStart, req, major, Major, req.(major := NumberOf(major)))
    decreases |major|
  {
    hide ParseHead;
    var init, c := major[..|major| - 1], major[|major| - 1];
    LastChar(major);
    if init == [] {
      assert NumberOf(init) == 0;
      One(MajorStart, req, c);
    } else {
      MajorReaches(req, init);
      ChainOne(MajorStart, req, init, Major, req.(major := NumberOf(init)), c, Major, req.(major := NumberOf(major)));
    }
  }

  lemma {:induction false} MinorReaches(req: Request, minor: string)
    requires req.minor == 0 && minor != [] && Digits(minor)
    ensures Reaches(MinorStart, req, minor, Minor, req.(minor := NumberOf(minor)))
    decreases |minor|
  {
    hide ParseHead;
    var init, c := minor[..|minor| - 1], minor[|minor| - 1];
    LastChar(minor);
    if init == [] {
      assert NumberOf(init) == 0;
      One(MinorStart, req, c);
    } else {
      MinorReaches(req, init);
      ChainOne(MinorStart, req, init, Minor, req.(minor := NumberOf(init)), c, Minor, req.(minor := NumberOf(minor)));
    }
  }

  lemma DigitsReach(req: Request, major: string, minor: string)
    requires req.major == 0 && req.minor == 0
    requires major != [] && Digits(major) && minor != [] && Digits(minor)
    ensures Reaches(MajorStart, req, major + "." + minor, Minor,
                    req.(major := NumberOf(major), minor := NumberOf(minor)))
  {
    hide ParseHead;
    var r1 := req.(major := NumberOf(major));
    var r2 := r1.(minor := NumberOf(minor));
    MajorReaches(req, major);
    ChainOne(MajorStart, req, major, Major, r1, '.', MinorStart, r1);
    MinorReaches(r1, minor);
    Chain(MajorStart, req, major + ".", MinorStart, r1, minor, Minor, r2);
  }

  /** The version, from its first letter to the line feed. */
  lemma VersionReaches(req: Request, major: string, minor: string)
    requires major != [] && Digits(major) && minor != [] && Digits(minor)
    ensures Reaches(HttpVersionH, req, "HTTP/" + (major + "." + minor) + CRLF, HeaderLineStart,
                    req.(major := NumberOf(major), minor := NumberOf(minor)))
  {
    hide ParseHead;
    var r1 := req.(major := 0, minor := 0);
    var r2 := req.(major := NumberOf(major), minor := NumberOf(minor));
    SlashReaches(req);
    DigitsReach(r1, major, minor);
    Chain(HttpVersionH, req, "HTTP/", MajorStart, r1, major + "." + minor, Minor, r2);
    LineFeed(HttpVersionH, req, "HTTP/" + (major + "." + minor), Minor, r2, ExpectingNewline1);
  }

  lemma RequestLineReaches(req: Request, h: Head)
    requires Blank(req) && ValidHead(h)
    ensures Reaches(MethodStart, req, RequestLine(h.verb, h.uri, h.major, h.minor), HeaderLineStart,
                    RequestOf(h).(headers := []))
  {
    hide ParseHead;
    var r1 := req.(verb := h.verb, uri := h.uri);
    var version := "HTTP/" + (h.major + "." + h.minor) + CRLF;
    TargetReaches(req, h.verb, h.uri);
    VersionReaches(r1, h.major, h.minor);
    assert version == "HTTP/" + h.major + "." + h.minor + CRLF;
    Chain(MethodStart, req, h.verb + " " + h.uri + " ", HttpVersionH, r1, version,
          HeaderLineStart, RequestOf(h).(headers := []));
  }

  lemma {:induction false} NameReaches(req: Request, name: string)
    requires Token(name)
    ensures Reaches(HeaderLineStart, req, name, HeaderName, Named(req, name))
    decreases |name|
  {
    hide ParseHead, TokenChar, IsTokenChar, IsCtl;
    var init, c := name[..|name| - 1], name[|name| - 1];
    TokenCharacters(c);
    LastChar(name);
    if init == [] {
      One(HeaderLineStart, req, c);
    } else {
      NameReaches(req, init);
      NameGrows(req.headers, init, c);
      ChainOne(HeaderLineStart, req, init, HeaderName, Named(req, init), c, HeaderName, Named(req, name));
    }
  }

  function Named(req: Request, name: string): Request {
    req.(headers := req.headers + [Header(name, [])])
  }

  function AppendValue(hs: seq<Header>, s: string): seq<Header>
    requires hs != []
  {
    var last := hs[|hs| - 1];
    hs[|hs| - 1 := last.(value := last.value + s)]
  }

  lemma AppendValueFacts(hs: seq<Header>, s: string)
    requires hs != []
    ensures AppendValue(hs, []) == hs
    ensures s != [] ==> PushValue(AppendValue(hs, s[..|s| - 1]), s[|s| - 1]) == AppendValue(hs, s)
  {
    var last := hs[|hs| - 1];
    assert last.value + [] == last.value;
    if s != [] {
      LastChar(s);
      AppendAssociative(last.value, s[..|s| - 1], [s[|s| - 1]]);
    }
  }

  lemma {:induction false} ValueReaches(req: Request, s: string)
    requires Visible(s) && req.headers != []
    ensures Reaches(HeaderValue, req, s, HeaderValue, req.(headers := AppendValue(req.headers, s)))
    decreases |s|
  {
    AppendValueFacts(req.headers, s);
    if s == [] {
      return;
    }
    hide ParseHead;
    var init, c := s[..|s| - 1], s[|s| - 1];
    var before, after := AppendValue(req.headers, init), AppendValue(req.headers, s);
    LastChar(s);
    ValueReaches(req, init);
    ChainOne(HeaderValue, req, init, HeaderValue, req.(headers := before), c, HeaderValue, req.(headers := after));
  }

  lemma FieldReaches(req: Request, name: string, value: string)
    requires Token(name) && Visible(value)
    ensures Reaches(HeaderLineStart, req, name + ": " + value, HeaderValue,
                    req.(headers := req.headers + [Header(name, value)]))
  {
    hide ParseHead;
    var r2 := req.(headers := req.headers + [Header(name, [])]);
    var r3 := req.(headers := req.headers + [Header(name, value)]);
    NameReaches(req, name);
    ChainOne(HeaderLineStart, req, name, HeaderName, r2, ':', SpaceBeforeHeaderValue, r2);
    ChainOne(HeaderLineStart, req, name + ":", SpaceBeforeHeaderValue, r2, ' ', HeaderValue, r2);
    assert name + ":" + " " == name + ": ";
    ValueReaches(r2, value);
    assert [] + value == value;
    assert AppendValue(r2.headers, value) == r3.headers;
    Chain(HeaderLineStart, req, name + ": ", HeaderValue, r2, value, HeaderValue, r3);
  }

  lemma {:induction false} SpaceReaches(req: Request, space: string)
    requires Spaces(space) && req.headers != []
    ensures Reaches(HeaderLineStart, req, space, HeaderLws, req)
    decreases |space|
  {
    hide ParseHead;
    var init, c := space[..|space| - 1], space[|space| - 1];
    LastChar(space);
    if init == [] {
      One(HeaderLineStart, req, c);
    } else {
      SpaceReaches(req, init);
      ChainOne(HeaderLineStart, req, init, HeaderLws, req, c, HeaderLws, req);
    }
  }

  lemma FoldedReaches(req: Request, space: string, text: string)
    requires ValidLine(Folded(space, text)) && req.headers != []
    ensures Reaches(HeaderLineStart, req, space + text, if text == [] then HeaderLws else HeaderValue,
                    req.(headers := AppendValue(req.headers, text)))
  {
    hide ParseHead;
    SpaceReaches(req, space);
    AppendValueFacts(req.headers, text);
    if text == [] {
      assert space + text == space;
    } else {
      var r1 := req.(headers := PushValue(req.headers, text[0]));
      var r2 := req.(headers := AppendValue(req.headers, text));
      var last := req.headers[|req.headers| - 1];
      ChainOne(HeaderLineStart, req, space, HeaderLws, req, text[0], HeaderValue, r1);
      ValueReaches(r1, text[1..]);
      assert last.value + [text[0]] + text[1..] == last.value + text;
      assert AppendValue(r1.headers, text[1..]) == r2.headers;
      Chain(HeaderLineStart, req, space + [text[0]], HeaderValue, r1, text[1..], HeaderValue, r2);
      assert space + [text[0]] + text[1..] == space + text;
    }
  }

  lemma LineReaches(req: Request, l: FieldLine)
    requires ValidLine(l) && (l.Folded? ==> req.headers != [])
    ensures Reaches(HeaderLineStart, req, PrintLine(l) + CRLF, HeaderLineStart,
                    req.(headers := AddLine(req.headers, l)))
  {
    hide ParseHead;
    var state := if l.Folded? && l.text == [] then HeaderLws else HeaderValue;
    match l {
      case Field(name, value) => FieldReaches(req, name, value);
      case Folded(space, text) => FoldedReaches(req, space, text);
    }
    LineFeed(HeaderLineStart, req, PrintLine(l), state, req.(headers := AddLine(req.headers, l)), ExpectingNewline2);
  }

  lemma {:induction false} LinesReach(req: Request, ls: seq<FieldLine>)
    requires ValidLines(ls) && req.headers == []
    ensures Reaches(HeaderLineStart, req, PrintLines(ls), HeaderLineStart, req.(headers := HeadersOf(ls)))
    decreases |ls|
  {
    if ls != [] {
      hide ParseHead;
      var init, last := ls[..|ls| - 1], ls[|ls| - 1];
      var r := req.(headers := HeadersOf(init));
      assert forall i :: 0 <= i < |init| ==> init[i] == ls[i];
      assert ValidLine(last);
      LinesReach(req, init);
      LinesGiveHeaders(init);
      LineReaches(r, last);
      Chain(HeaderLineStart, req, PrintLines(init), HeaderLineStart, r, PrintLine(last) + CRLF,
            HeaderLineStart, req.(headers := HeadersOf(ls)));
    }
  }

  /** Completeness: every head of the grammar is accepted as what it means, and the
      parser stops at its last character, whatever follows. */
  lemma {:induction false} Completeness(req: Request, h: Head, rest: string)
    requires Blank(req) && ValidHead(h)
    ensures ParseHead(MethodStart, req, PrintHead(h) + rest)
            == HeadRun(ExpectingNewline3, RequestOf(h), Some(true), |PrintHead(h)|)
  {
    hide ParseHead;
    var start := RequestLine(h.verb, h.uri, h.major, h.minor);
    var r0, r := RequestOf(h).(headers := []), RequestOf(h);
    RequestLineReaches(req, h);
    LinesReach(r0, h.lines);
    Chain(MethodStart, req, start, HeaderLineStart, r0, PrintLines(h.lines), HeaderLineStart, r);
    var before := start + PrintLines(h.lines);
    ChainOne(MethodStart, req, before, HeaderLineStart, r, '\r', ExpectingNewline3, r);
    One(ExpectingNewline3, r, '\n');
    ParseHeadConcat(MethodStart, req, before + ['\r'], ['\n']);
    assert before + ['\r'] + ['\n'] == PrintHead(h);
    ParseHeadConcat(MethodStart, req, PrintHead(h), rest);
  }

  // ---------- printing and parsing requests ----------

  /** A request whose parts can stand in a head. */
  predicate Clean(req: Request) {
    && Token(req.verb) && CleanUri(req.uri) && req.major >= 0 && req.minor >= 0
    && forall i :: 0 <= i < |req.headers| ==>
         Token(req.headers[i].name) && Visible(req.headers[i].value)
  }

  function PrintRequest(req: Request): string
    requires req.major >= 0 && req.minor >= 0
  {
    RequestLine(req.verb, req.uri, Decimal(req.major), Decimal(req.minor)) + HeaderBlock(req.headers)
  }

  function Fields(hs: seq<Header>): seq<FieldLine> {
    seq(|hs|, i requires 0 <= i < |hs| => Field(hs[i].name, hs[i].value))
  }

  lemma {:induction false} FieldsPrint(hs: seq<Header>)
    ensures PrintLines(Fields(hs)) + CRLF == HeaderBlock(hs)
    ensures HeadersOf(Fields(hs)) == hs
    decreases |hs|
  {
    if hs != [] {
      hide HeaderBlock;
      var init, last := hs[..|hs| - 1], hs[|hs| - 1];
      var fields := Fields(hs);
      assert fields[..|hs| - 1] == Fields(init) && fields[|hs| - 1] == Field(last.name, last.value);
      FieldsPrint(init);
      assert init + [last] == hs;
      BlockAppend(init, last);
      hide Fields, HeaderLine;
      var lines := PrintLines(Fields(init));
      assert PrintLines(fields) == lines + (PrintLine(Field(last.name, last.value)) + CRLF);
      PrintsHeader(last);
      hide PrintLines, PrintLine;
      assert HeaderBlock(init)[..|HeaderBlock(init)| - 2] == lines;
      AppendAssociative(lines, HeaderLine(last) + CRLF, CRLF);
    }
  }

  lemma PrintsHeader(h: Header)
    ensures PrintLine(Field(h.name, h.value)) == HeaderLine(h)
  {
  }

  lemma {:induction false} BlockAppend(hs: seq<Header>, h: Header)
    ensures |HeaderBlock(hs)| >= 2
    ensures HeaderBlock(hs + [h]) ==
            HeaderBlock(hs)[..|HeaderBlock(hs)| - 2] + (HeaderLine(h) + CRLF + CRLF)
  {
    if hs == [] {
      assert HeaderBlock([h]) == HeaderLine(h) + CRLF + HeaderBlock([h][1..]);
    } else {
      BlockAppend(hs[1..], h);
      assert (hs + [h])[1..] == hs[1..] + [h];
      var line, block := HeaderLine(hs[0]) + CRLF, HeaderBlock(hs[1..]);
      assert (line + block)[..|line + block| - 2] == line + block[..|block| - 2];
    }
  }

  function HeadOf(req: Request): Head
    requires req.major >= 0 && req.minor >= 0
  {
    Head(req.verb, req.uri, Decimal(req.major), Decimal(req.minor), Fields(req.headers))
  }

  lemma HeadOfPrints(req: Request)
    requires req.major >= 0 && req.minor >= 0
    ensures PrintHead(HeadOf(req)) == PrintRequest(req)
    ensures Clean(req) ==> ValidHead(HeadOf(req)) && RequestOf(HeadOf(req)) == req
  {
    FieldsPrint(req.headers);
    AppendAssociative(RequestLine(req.verb, req.uri, Decimal(req.major), Decimal(req.minor)),
                      PrintLines(Fields(req.headers)), CRLF);
    DecimalRoundTrip(req.major);
    DecimalRoundTrip(req.minor);
  }

  /** Round trip, with its exact condition: a printed request followed by anything is
      parsed back to itself, the parser stopping at its end, exactly when its method and
      header names are tokens and its target and values are clean. */
  lemma {:induction false} RequestRoundTrip(blank: Request, req: Request, rest: string)
    requires Blank(blank) && req.major >= 0 && req.minor >= 0
    ensures var r := ParseHead(MethodStart, blank, PrintRequest(req) + rest);
            (r.result == Some(true) && r.req == req && r.used == |PrintRequest(req)|) <==> Clean(req)
  {
    HeadOfPrints(req);
    if Clean(req) {
      Completeness(blank, HeadOf(req), rest);
    } else if ParseHead(MethodStart, blank, PrintRequest(req) + rest).result == Some(true) {
      var h := Soundness(blank, PrintRequest(req) + rest);
      LinesGiveHeaders(h.lines);
    }
  }

  /** Printing what was parsed, and parsing that, gives the same request again. */
  lemma {:induction false} AcceptedRequestsReprint(blank: Request, input: string, rest: string)
    requires Blank(blank) && ParseHead(MethodStart, blank, input).result == Some(true)
    ensures var req := ParseHead(MethodStart, blank, input).req;
            && Clean(req)
            && ParseHead(MethodStart, blank, PrintRequest(req) + rest)
               == HeadRun(ExpectingNewline3, req, Some(true), |PrintRequest(req)|)
            && SplitTarget(req.uri).Some?
  {
    hide ParseHead, PrintHead, RequestLine, HeaderBlock;
    var h := Soundness(blank, input);
    LinesGiveHeaders(h.lines);
    var req := RequestOf(h);
    HeadOfPrints(req);
    Completeness(blank, HeadOf(req), rest);
    assert forall c :: c in req.uri ==> !IsCtl(c);
  }
}
