/** The request head parser: a byte machine that fills in a request. */
module HttpRequestParsers {
  import opened Prelude
  import opened HttpText
  import opened HttpRequests

  // ---------- character classes ----------

  predicate IsChar(c: char) { c as int <= 127 }

  predicate IsCtl(c: char) { c as int <= 31 || c as int == 127 }

  predicate IsTspecial(c: char) {
    c == '(' || c == ')' || c == '<' || c == '>' || c == '@' || c == ',' || c == ';' || c == ':'
    || c == '\\' || c == '"' || c == '/' || c == '[' || c == ']' || c == '?' || c == '='
    || c == '{' || c == '}' || c == ' ' || c == '\t'
  }

  /** A character of a token (RFC 1945 section 2.2). */
  predicate IsTokenChar(c: char) { IsChar(c) && !IsCtl(c) && !IsTspecial(c) }

  // ---------- the machine on values ----------

  datatype HeadState =
    | MethodStart | Method | Uri
    | HttpVersionH | HttpVersionT1 | HttpVersionT2 | HttpVersionP | HttpVersionSlash
    | MajorStart | Major | MinorStart | Minor
    | ExpectingNewline1
    | HeaderLineStart | HeaderLws | HeaderName | SpaceBeforeHeaderValue | HeaderValue
    | ExpectingNewline2 | ExpectingNewline3

  datatype HeadStep = HeadStep(state: HeadState, req: Request, result: Option<bool>)

  /** The states that write to the last header have one. */
  predicate Ready(state: HeadState, req: Request) {
    (state.HeaderLws? || state.HeaderName? || state.SpaceBeforeHeaderValue? || state.HeaderValue?)
    ==> req.headers != []
  }

  function Digit(n: int, c: char): int {
    n * 10 + c as int - '0' as int
  }

  function PushName(hs: seq<Header>, c: char): seq<Header>
    requires hs != []
  {
    var last := hs[|hs| - 1];
    hs[|hs| - 1 := last.(name := last.name + [c])]
  }

  lemma NewName(hs: seq<Header>, c: char)
    ensures PushName(hs + [Header([], [])], c) == hs + [Header([c], [])]
  {
    var empty: string := [];
    assert empty + [c] == [c];
  }

  function PushValue(hs: seq<Header>, c: char): seq<Header>
    requires hs != []
  {
    var last := hs[|hs| - 1];
    hs[|hs| - 1 := last.(value := last.value + [c])]
  }

  function Reject(state: HeadState, req: Request): HeadStep {
    HeadStep(state, req, Some(false))
  }

  function Go(state: HeadState, req: Request): HeadStep {
    HeadStep(state, req, None)
  }

  function Expect(state: HeadState, req: Request, input: char, wanted: char, next: HeadState): HeadStep {
    if input == wanted then Go(next, req) else Reject(state, req)
  }

  /** The request line, up to its line feed. */
  function ConsumeRequestLine(state: HeadState, req: Request, input: char): HeadStep {
    match state
    case MethodStart =>
      if !IsTokenChar(input) then Reject(state, req) else Go(Method, req.(verb := req.verb + [input]))
    case Method =>
      if input == ' ' then Go(Uri, req)
      else if !IsTokenChar(input) then Reject(state, req)
      else Go(Method, req.(verb := req.verb + [input]))
    case Uri =>
      if input == ' ' then Go(HttpVersionH, req)
      else if IsCtl(input) then Reject(state, req)
      else Go(Uri, req.(uri := req.uri + [input]))
    case HttpVersionH => Expect(state, req, input, 'H', HttpVersionT1)
    case HttpVersionT1 => Expect(state, req, input, 'T', HttpVersionT2)
    case HttpVersionT2 => Expect(state, req, input, 'T', HttpVersionP)
    case HttpVersionP => Expect(state, req, input, 'P', HttpVersionSlash)
    case HttpVersionSlash =>
      if input == '/' then Go(MajorStart, req.(major := 0, minor := 0)) else Reject(state, req)
    case MajorStart =>
      if IsDigit(input) then Go(Major, req.(major := Digit(req.major, input))) else Reject(state, req)
    case Major =>
      if input == '.' then Go(MinorStart, req)
      else if IsDigit(input) then Go(Major, req.(major := Digit(req.major, input)))
      else Reject(state, req)
    case MinorStart =>
      if IsDigit(input) then Go(Minor, req.(minor := Digit(req.minor, input))) else Reject(state, req)
    case Minor =>
      if input == '\r' then Go(ExpectingNewline1, req)
      else if IsDigit(input) then Go(Minor, req.(minor := Digit(req.minor, input)))
      else Reject(state, req)
    case _ => Expect(state, req, input, '\n', HeaderLineStart)
  }

  predicate InHeaders(state: HeadState) {
    state.HeaderLineStart? || state.HeaderLws? || state.HeaderName? || state.SpaceBeforeHeaderValue?
    || state.HeaderValue? || state.ExpectingNewline2? || state.ExpectingNewline3?
  }

  /** The header lines and the empty line. */
  function ConsumeHeaderLine(state: HeadState, req: Request, input: char): HeadStep
    requires InHeaders(state) && Ready(state, req)
  {
    match state
    case HeaderLineStart =>
      if input == '\r' then Go(ExpectingNewline3, req)
      else if req.headers != [] && (input == ' ' || input == '\t') then Go(HeaderLws, req)
      else if !IsTokenChar(input) then Reject(state, req)
      else Go(HeaderName, req.(headers := req.headers + [Header([input], [])]))
    case HeaderLws =>
      if input == '\r' then Go(ExpectingNewline2, req)
      else if input == ' ' || input == '\t' then Go(HeaderLws, req)
      else if IsCtl(input) then Reject(state, req)
      else Go(HeaderValue, req.(headers := PushValue(req.headers, input)))
    case HeaderName =>
      if input == ':' then Go(SpaceBeforeHeaderValue, req)
      else if !IsTokenChar(input) then Reject(state, req)
      else Go(HeaderName, req.(headers := PushName(req.headers, input)))
    case SpaceBeforeHeaderValue => Expect(state, req, input, ' ', HeaderValue)
    case HeaderValue =>
      if input == '\r' then Go(ExpectingNewline2, req)
      else if IsCtl(input) then Reject(state, req)
      else Go(HeaderValue, req.(headers := PushValue(req.headers, input)))
    case ExpectingNewline2 => Expect(state, req, input, '\n', HeaderLineStart)
    case _ => HeadStep(state, req, Some(input == '\n'))
  }

  /** One character. Accepting is `Some(true)`, rejecting `Some(false)`. */
  function ConsumeChar(state: HeadState, req: Request, input: char): (s: HeadStep)
    requires Ready(state, req)
    ensures Ready(s.state, s.req)
  {
    if InHeaders(state) then ConsumeHeaderLine(state, req, input)
    else ConsumeRequestLine(state, req, input)
  }

  /** A whole input: it stops after the character that decides. */
  datatype HeadRun = HeadRun(state: HeadState, req: Request, result: Option<bool>, used: nat)

  function ParseHead(state: HeadState, req: Request, input: string): (r: HeadRun)
    requires Ready(state, req)
    ensures Ready(r.state, r.req)
    ensures r.used <= |input|
    ensures if r.result.None? then r.used == |input| else r.used > 0
    decreases |input|
  {
    if input == [] then HeadRun(state, req, None, 0)
    else
      var s := ConsumeChar(state, req, input[0]);
      if s.result.Some? then HeadRun(s.state, s.req, s.result, 1)
      else
        var r := ParseHead(s.state, s.req, input[1..]);
        r.(used := r.used + 1)
  }

  function Later(r: HeadRun, n: nat): HeadRun {
    r.(used := r.used + n)
  }

  lemma ParseHeadFirst(state: HeadState, req: Request, input: string)
    requires Ready(state, req) && input != []
    ensures var s := ConsumeChar(state, req, input[0]);
            ParseHead(state, req, input) ==
            if s.result.Some? then HeadRun(s.state, s.req, s.result, 1)
            else Later(ParseHead(s.state, s.req, input[1..]), 1)
  {
    hide ConsumeChar;
  }

  /** A concatenation: decided by the first part, or carried on with from where that led. */
  lemma {:induction false} ParseHeadConcat(state: HeadState, req: Request, a: string, b: string)
    requires Ready(state, req)
    ensures var r := ParseHead(state, req, a);
            ParseHead(state, req, a + b) ==
            if r.result.Some? then r
            else Later(ParseHead(r.state, r.req, b), |a|)
    decreases |a|
  {
    hide ConsumeChar, Ready;
    if a == [] {
      assert a + b == b;
    } else {
      var s := ConsumeChar(state, req, a[0]);
      assert (a + b)[1..] == a[1..] + b;
      ParseHeadFirst(state, req, a);
      ParseHeadFirst(state, req, a + b);
      if s.result.None? {
        ParseHeadConcat(s.state, s.req, a[1..], b);
      }
    }
  }

  // ---------- the class ----------

  class HttpRequestParser {
    var state: HeadState

    constructor ()
      ensures state == MethodStart
    {
      state := MethodStart;
    }

    method Reset()
      modifies this
      ensures state == MethodStart
    {
      state := MethodStart;
    }

    method Consume(req: HttpRequest, input: char) returns (result: Option<bool>)
      requires Ready(state, req.View())
      modifies this, req`verb, req`uri, req`major, req`minor, req`headers
      ensures HeadStep(state, req.View(), result) == ConsumeChar(old(state), old(req.View()), input)
    {
      match state {
        case MethodStart =>
          if !IsTokenChar(input) {
            return Some(false);
          }
          state := Method;
          req.verb := req.verb + [input];
        case Method =>
          if input == ' ' {
            state := Uri;
          } else if !IsTokenChar(input) {
            return Some(false);
          } else {
            req.verb := req.verb + [input];
          }
        case Uri =>
          if input == ' ' {
            state := HttpVersionH;
          } else if IsCtl(input) {
            return Some(false);
          } else {
            req.uri := req.uri + [input];
          }
        case HttpVersionH =>
          if input != 'H' {
            return Some(false);
          }
          state := HttpVersionT1;
        case HttpVersionT1 =>
          if input != 'T' {
            return Some(false);
          }
          state := HttpVersionT2;
        case HttpVersionT2 =>
          if input != 'T' {
            return Some(false);
          }
          state := HttpVersionP;
        case HttpVersionP =>
          if input != 'P' {
            return Some(false);
          }
          state := HttpVersionSlash;
        case HttpVersionSlash =>
          if input != '/' {
            return Some(false);
          }
          req.major := 0;
          req.minor := 0;
          state := MajorStart;
        case MajorStart =>
          if !IsDigit(input) {
            return Some(false);
          }
          req.major := req.major * 10 + input as int - '0' as int;
          state := Major;
        case Major =>
          if input == '.' {
            state := MinorStart;
          } else if IsDigit(input) {
            req.major := req.major * 10 + input as int - '0' as int;
          } else {
            return Some(false);
          }
        case MinorStart =>
          if !IsDigit(input) {
            return Some(false);
          }
          req.minor := req.minor * 10 + input as int - '0' as int;
          state := Minor;
        case Minor =>
          if input == '\r' {
            state := ExpectingNewline1;
          } else if IsDigit(input) {
            req.minor := req.minor * 10 + input as int - '0' as int;
          } else {
            return Some(false);
          }
        case ExpectingNewline1 =>
          if input != '\n' {
            return Some(false);
          }
          state := HeaderLineStart;
        case HeaderLineStart | HeaderLws | HeaderName | SpaceBeforeHeaderValue | HeaderValue
             | ExpectingNewline2 | ExpectingNewline3 =>
          result := ConsumeInHeaders(req, input);
          return;
      }
      return None;
    }

    /** The cases of the header lines. */
    method ConsumeInHeaders(req: HttpRequest, input: char) returns (result: Option<bool>)
      requires InHeaders(state) && Ready(state, req.View())
      modifies this, req`headers
      ensures HeadStep(state, req.View(), result) == ConsumeHeaderLine(old(state), old(req.View()), input)
    {
      match state {
        case HeaderLineStart =>
          if input == '\r' {
            state := ExpectingNewline3;
          } else if req.headers != [] && (input == ' ' || input == '\t') {
            state := HeaderLws;
          } else if !IsTokenChar(input) {
            return Some(false);
          } else {
            NewName(req.headers, input);
            req.headers := req.headers + [Header([], [])];
            req.headers := PushName(req.headers, input);
            state := HeaderName;
          }
        case HeaderLws =>
          if input == '\r' {
            state := ExpectingNewline2;
          } else if input == ' ' || input == '\t' {
          } else if IsCtl(input) {
            return Some(false);
          } else {
            state := HeaderValue;
            req.headers := PushValue(req.headers, input);
          }
        case HeaderName =>
          if input == ':' {
            state := SpaceBeforeHeaderValue;
          } else if !IsTokenChar(input) {
            return Some(false);
          } else {
            req.headers := PushName(req.headers, input);
          }
        case SpaceBeforeHeaderValue =>
          if input == ' ' {
            state := HeaderValue;
          } else {
            return Some(false);
          }
        case HeaderValue =>
          if input == '\r' {
            state := ExpectingNewline2;
          } else if IsCtl(input) {
            return Some(false);
          } else {
            req.headers := PushValue(req.headers, input);
          }
        case ExpectingNewline2 =>
          if input != '\n' {
            return Some(false);
          }
          state := HeaderLineStart;
        case ExpectingNewline3 =>
          return Some(input == '\n');
      }
      return None;
    }

    /** Feeds `chunk[begin..]` to the machine until it decides or the chunk ends. */
    method Parse(req: HttpRequest, chunk: string, begin: nat) returns (result: Option<bool>, end: nat)
      requires begin <= |chunk| && Ready(state, req.View())
      modifies this, req`verb, req`uri, req`major, req`minor, req`headers
      ensures begin <= end <= |chunk|
      ensures HeadRun(state, req.View(), result, end - begin)
              == ParseHead(old(state), old(req.View()), chunk[begin..])
    {
      ghost var whole := ParseHead(state, req.View(), chunk[begin..]);
      end := begin;
      while end != |chunk|
        invariant begin <= end <= |chunk| && Ready(state, req.View())
        invariant whole == Later(ParseHead(state, req.View(), chunk[end..]), end - begin)
        decreases |chunk| - end
      {
        ParseHeadFirst(state, req.View(), chunk[end..]);
        assert chunk[end..][1..] == chunk[end + 1..];
        result := Consume(req, chunk[end]);
        end := end + 1;
        if result.Some? {
          return;
        }
      }
      result := None;
      assert chunk[end..] == [];
    }
  }
}
