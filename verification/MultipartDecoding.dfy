/** A client of a multipart stream. It reads the status line and the header of the reply,
    takes the boundary from its Content-type and skips the opening delimiter; then, part
    after part, header lines up to an empty line, as many payload bytes as Content-Length
    says, and the delimiter line of RFC 2046 section 5.1.1. It is written from the format
    alone and shares no text with the printer. */
module MultipartDecoding {
  import opened Prelude
  import opened HttpText

  /** A timestamp as printed: digits with a possible minus sign. */
  type Stamp = s: string | forall i :: 0 <= i < |s| ==> IsDigit(s[i]) || s[i] == '-'

  datatype Part = Part(contentType: string, stamp: Stamp, payload: string)

  // ---------- the printer ----------

  function Delimiter(boundary: string): string {
    "\r\n--" + boundary + "\r\n"
  }

  const ALLOW_ORIGIN: string := "Access-Control-Allow-Origin"
  const ALLOW_METHODS: string := "Access-Control-Allow-Methods"
  const ALLOW_HEADERS: string := "Access-Control-Allow-Headers"
  const MAX_AGE: string := "Access-Control-Max-Age"
  const METHODS_ALLOWED: string := "GET,POST,PUT,DELETE,HEAD,OPTIONS"
  const HEADERS_ALLOWED: string := "Origin, Authorization, Accept, Content-Type"

  function PartHeaders(contentType: string, stamp: Stamp, size: nat): seq<Header> {
    [ Header("Content-type", contentType),
      Header("X-Timestamp", stamp),
      Header(ALLOW_ORIGIN, "*"),
      Header(ALLOW_METHODS, METHODS_ALLOWED),
      Header(ALLOW_HEADERS, HEADERS_ALLOWED),
      Header(MAX_AGE, "3600"),
      Header("Content-Length", Decimal(size)) ]
  }

  function PartHead(p: Part): string {
    HeaderBlock(PartHeaders(p.contentType, p.stamp, |p.payload|))
  }

  function EncodePart(p: Part, boundary: string): string {
    PartHead(p) + p.payload + Delimiter(boundary)
  }

  function EncodeParts(ps: seq<Part>, boundary: string): string {
    if ps == [] then [] else EncodePart(ps[0], boundary) + EncodeParts(ps[1..], boundary)
  }

  lemma {:induction false} EncodePartsAppend(ps: seq<Part>, p: Part, boundary: string)
    ensures EncodeParts(ps + [p], boundary) == EncodeParts(ps, boundary) + EncodePart(p, boundary)
  {
    if ps == [] {
      assert [p][1..] == [];
      assert EncodeParts([p], boundary) == EncodePart(p, boundary) + EncodeParts([], boundary);
    } else {
      EncodePartsAppend(ps[1..], p, boundary);
      assert (ps + [p])[1..] == ps[1..] + [p];
      AppendAssociative(EncodePart(ps[0], boundary), EncodeParts(ps[1..], boundary), EncodePart(p, boundary));
    }
  }

  // ---------- the client ----------

  datatype Line = Line(text: string, rest: string)

  /** The text before the first line break, and what follows it. */
  function ReadLine(s: string): Option<Line> {
    if |s| < 2 then None
    else if s[0] == '\r' && s[1] == '\n' then Some(Line([], s[2..]))
    else match ReadLine(s[1..])
      case None => None
      case Some(l) => Some(Line([s[0]] + l.text, l.rest))
  }

  /** A header line is cut at its first ": ". */
  function ReadHeader(text: string): Option<Header> {
    if |text| < 2 then None
    else if text[0] == ':' && text[1] == ' ' then Some(Header([], text[2..]))
    else match ReadHeader(text[1..])
      case None => None
      case Some(h) => Some(Header([text[0]] + h.name, h.value))
  }

  datatype Block = Block(headers: seq<Header>, rest: string)

  function ReadBlock(s: string): Option<Block>
    decreases |s|
  {
    match ReadLine(s)
    case None => None
    case Some(l) =>
      if l.text == [] then Some(Block([], l.rest))
      else
        LineSplits(s);
        match ReadHeader(l.text)
        case None => None
        case Some(h) =>
          match ReadBlock(l.rest)
          case None => None
          case Some(b) => Some(Block([h] + b.headers, b.rest))
  }

  /** The delimiter of section 5.1.1 of RFC 2046: a line break, two dashes and the boundary
      on a line of their own. */
  function DelimiterLine(boundary: string): string {
    ['\r', '\n', '-', '-'] + boundary + ['\r', '\n']
  }

  datatype Decoded = Decoded(part: Part, rest: string)

  predicate IsStamp(s: string) {
    forall i :: 0 <= i < |s| ==> IsDigit(s[i]) || s[i] == '-'
  }

  function DecodePart(s: string, boundary: string): Option<Decoded> {
    match ReadBlock(s)
    case None => None
    case Some(b) =>
      var size := ValueOr(b.headers, "Content-Length", "");
      var stamp := ValueOr(b.headers, "X-Timestamp", "");
      if size == "" || !Digits(size) || !IsStamp(stamp) then None
      else
        var n, end := NumberOf(size), DelimiterLine(boundary);
        if |b.rest| < n + |end| || b.rest[n..n + |end|] != end then None
        else
          Some(Decoded(Part(ValueOr(b.headers, "Content-type", ""), stamp, b.rest[..n]), b.rest[n + |end|..]))
  }

  /** All whole parts at the front of `s`. */
  function DecodeParts(s: string, boundary: string): seq<Part>
    decreases |s|
  {
    match DecodePart(s, boundary)
    case None => []
    case Some(d) =>
      BlockShrinks(s);
      [d.part] + DecodeParts(d.rest, boundary)
  }

  const MIXED_REPLACE: string := "multipart/x-mixed-replace;boundary="

  datatype Opened = Opened(boundary: string, rest: string)

  /** The beginning of a reply: a status line, a header block that names the boundary, and
      the first delimiter, which has no line break before it. */
  function OpenStream(s: string): Option<Opened> {
    match ReadLine(s)
    case None => None
    case Some(status) =>
      if status.text != "HTTP/1.0 200 OK" then None
      else match ReadBlock(status.rest)
        case None => None
        case Some(b) => OpenParts(ValueOr(b.headers, "Content-type", ""), b.rest)
  }

  function OpenParts(kind: string, s: string): Option<Opened> {
    if !(MIXED_REPLACE <= kind) then None
    else
      var boundary := kind[|MIXED_REPLACE|..];
      match ReadLine(s)
      case None => None
      case Some(l) => if l.text == ['-', '-'] + boundary then Some(Opened(boundary, l.rest)) else None
  }

  /** What a client has decoded from the first byte of a reply on. */
  function SeenParts(s: string): seq<Part> {
    match OpenStream(s) case None => [] case Some(o) => DecodeParts(o.rest, o.boundary)
  }

  // ---------- lines and blocks ----------

  predicate OneLine(s: string) {
    forall i :: 0 <= i < |s| - 1 ==> !(s[i] == '\r' && s[i + 1] == '\n')
  }

  lemma {:induction false} LineSplits(s: string)
    requires ReadLine(s).Some?
    ensures var l := ReadLine(s).value;
            s == l.text + CRLF + l.rest && OneLine(l.text)
  {
    if s[0] == '\r' && s[1] == '\n' {
      assert s == CRLF + s[2..];
    } else {
      LineSplits(s[1..]);
      var l := ReadLine(s[1..]).value;
      LongerLine(s, l.text, l.rest);
    }
  }

  lemma LongerLine(s: string, text: string, rest: string)
    requires |s| >= 2 && s[1..] == text + CRLF + rest && OneLine(text)
    requires !(s[0] == '\r' && s[1] == '\n')
    ensures s == [s[0]] + text + CRLF + rest && OneLine([s[0]] + text)
  {
    assert s == [s[0]] + s[1..];
    AppendAssociative([s[0]], text, CRLF + rest);
    AppendAssociative(text, CRLF, rest);
    AppendAssociative([s[0]] + text, CRLF, rest);
    if text != [] {
      assert s[1] == text[0];
    }
    var longer := [s[0]] + text;
    forall i | 0 <= i < |longer| - 1 ensures !(longer[i] == '\r' && longer[i + 1] == '\n') {
      if i > 0 {
        assert longer[i] == text[i - 1] && longer[i + 1] == text[i];
      }
    }
  }

  lemma {:induction false} ReadLineBack(text: string, rest: string)
    requires OneLine(text)
    ensures ReadLine(text + CRLF + rest) == Some(Line(text, rest))
  {
    var s := text + CRLF + rest;
    if text == [] {
      assert s == CRLF + rest && s[2..] == rest;
    } else {
      assert s[1..] == text[1..] + CRLF + rest;
      ReadLineBack(text[1..], rest);
      assert [text[0]] + text[1..] == text;
    }
  }

  lemma {:induction false} ReadHeaderBack(h: Header)
    requires ':' !in h.name
    ensures ReadHeader(HeaderLine(h)) == Some(h)
    decreases |h.name|
  {
    var text := HeaderLine(h);
    if h.name == [] {
      assert text == ": " + h.value && text[2..] == h.value;
    } else {
      assert text[1..] == HeaderLine(Header(h.name[1..], h.value));
      ReadHeaderBack(Header(h.name[1..], h.value));
      assert [h.name[0]] + h.name[1..] == h.name;
    }
  }

  /** The value of a header read from a line is the end of that line. */
  lemma {:induction false} HeaderInLine(text: string)
    requires ReadHeader(text).Some? && OneLine(text)
    ensures OneLine(ReadHeader(text).value.value)
  {
    if text[0] == ':' && text[1] == ' ' {
    } else {
      assert OneLine(text[1..]);
      HeaderInLine(text[1..]);
    }
  }

  /** A header whose printed line can be read back. */
  ghost predicate Printable(h: Header) {
    h.name != [] && ':' !in h.name && '\r' !in h.name && OneLine(h.value)
  }

  lemma PrintableLine(h: Header)
    requires Printable(h)
    ensures OneLine(HeaderLine(h))
  {
    var line := HeaderLine(h);
    var skip := |h.name| + 2;
    forall i | 0 <= i < |line| - 1 ensures !(line[i] == '\r' && line[i + 1] == '\n') {
      if i < |h.name| {
        assert line[i] == h.name[i];
      } else if i >= skip {
        assert line[i] == h.value[i - skip] && line[i + 1] == h.value[i - skip + 1];
      }
    }
  }

  lemma {:induction false} ReadBlockBack(hs: seq<Header>, rest: string)
    requires forall i :: 0 <= i < |hs| ==> Printable(hs[i])
    ensures ReadBlock(HeaderBlock(hs) + rest) == Some(Block(hs, rest))
    decreases |hs|
  {
    if hs == [] {
      ReadLineBack([], rest);
      assert [] + CRLF + rest == HeaderBlock(hs) + rest;
    } else {
      var line := HeaderLine(hs[0]);
      var tail := HeaderBlock(hs[1..]) + rest;
      assert HeaderBlock(hs) + rest == line + CRLF + tail;
      assert Printable(hs[0]);
      PrintableLine(hs[0]);
      ReadLineBack(line, tail);
      ReadHeaderBack(hs[0]);
      ReadBlockBack(hs[1..], rest);
      assert [hs[0]] + hs[1..] == hs;
    }
  }

  /** Reading a block is not affected by what comes after it, uses at least one byte,
      and yields values that lie within one line. */
  lemma {:induction false} BlockStable(s: string, more: string)
    requires ReadBlock(s).Some?
    ensures var b := ReadBlock(s).value;
            && ReadBlock(s + more) == Some(Block(b.headers, b.rest + more))
            && |b.rest| < |s|
            && forall i :: 0 <= i < |b.headers| ==> OneLine(b.headers[i].value)
    decreases |s|
  {
    LineSplits(s);
    var l := ReadLine(s).value;
    assert s + more == l.text + CRLF + (l.rest + more);
    ReadLineBack(l.text, l.rest + more);
    if l.text != [] {
      HeaderInLine(l.text);
      BlockStable(l.rest, more);
    }
  }

  lemma BlockShrinks(s: string)
    ensures ReadBlock(s).Some? ==> |ReadBlock(s).value.rest| < |s|
  {
    if ReadBlock(s).Some? {
      BlockStable(s, []);
    }
  }

  lemma {:induction false} ValueInLine(hs: seq<Header>, name: string)
    requires forall i :: 0 <= i < |hs| ==> OneLine(hs[i].value)
    ensures OneLine(ValueOr(hs, name, ""))
  {
    if hs != [] {
      ValueInLine(hs[1..], name);
    }
  }

  // ---------- parts ----------

  lemma {:induction false} DecodeStable(s: string, more: string, boundary: string)
    requires DecodePart(s, boundary).Some?
    ensures var d := DecodePart(s, boundary).value;
            && DecodePart(s + more, boundary) == Some(Decoded(d.part, d.rest + more))
            && |d.rest| < |s|
            && OneLine(d.part.contentType)
  {
    BlockStable(s, more);
    var b := ReadBlock(s).value;
    var n, end := NumberOf(ValueOr(b.headers, "Content-Length", "")), DelimiterLine(boundary);
    ValueInLine(b.headers, "Content-type");
    var longer := b.rest + more;
    assert longer[n..n + |end|] == b.rest[n..n + |end|];
    assert longer[..n] == b.rest[..n];
    assert longer[n + |end|..] == b.rest[n + |end|..] + more;
  }

  /** A client that has seen less has decoded a prefix. */
  lemma {:induction false} DecodeMonotone(s: string, more: string, boundary: string)
    ensures DecodeParts(s, boundary) <= DecodeParts(s + more, boundary)
    decreases |s|
  {
    if DecodePart(s, boundary).Some? {
      DecodeStable(s, more, boundary);
      DecodeMonotone(DecodePart(s, boundary).value.rest, more, boundary);
    }
  }

  // ---------- the beginning of a reply ----------

  lemma LineStable(s: string, more: string)
    requires ReadLine(s).Some?
    ensures var l := ReadLine(s).value;
            ReadLine(s + more) == Some(Line(l.text, l.rest + more))
  {
    LineSplits(s);
    var l := ReadLine(s).value;
    assert s + more == l.text + CRLF + (l.rest + more);
    ReadLineBack(l.text, l.rest + more);
  }

  /** The beginning is not affected by what comes after it, and names a boundary that lies
      within one line. */
  lemma {:induction false} OpenStable(s: string, more: string)
    requires OpenStream(s).Some?
    ensures var o := OpenStream(s).value;
            OpenStream(s + more) == Some(Opened(o.boundary, o.rest + more)) && OneLine(o.boundary)
  {
    hide ReadLine, ReadBlock, ValueOr, OneLine;
    var status := ReadLine(s).value;
    var b := ReadBlock(status.rest).value;
    var kind := ValueOr(b.headers, "Content-type", "");
    LineStable(s, more);
    BlockStable(status.rest, more);
    LineStable(b.rest, more);
    ValueInLine(b.headers, "Content-type");
    EndInLine(kind, |MIXED_REPLACE|);
  }

  lemma EndInLine(s: string, k: nat)
    requires OneLine(s) && k <= |s|
    ensures OneLine(s[k..])
  {
  }

  /** A client that has received less has seen a prefix. */
  lemma {:induction false} SeenMonotone(s: string, more: string)
    ensures SeenParts(s) <= SeenParts(s + more)
  {
    hide OpenStream;
    if OpenStream(s).Some? {
      OpenStable(s, more);
      DecodeMonotone(OpenStream(s).value.rest, more, OpenStream(s).value.boundary);
    }
  }

  predicate NameChars(s: string) {
    forall i :: 0 <= i < |s| ==> s[i] == '-' || 'A' <= s[i] <= 'Z' || 'a' <= s[i] <= 'z'
  }

  predicate NoReturn(s: string) {
    forall i :: 0 <= i < |s| ==> s[i] != '\r'
  }

  lemma AllowOriginName()
    ensures NameChars(ALLOW_ORIGIN)
  {
  }

  lemma AllowMethodsName()
    ensures NameChars(ALLOW_METHODS)
  {
  }

  lemma AllowHeadersName()
    ensures NameChars(ALLOW_HEADERS)
  {
  }

  lemma MaxAgeName()
    ensures NameChars(MAX_AGE)
  {
  }

  lemma MethodsAllowedValue()
    ensures NoReturn(METHODS_ALLOWED)
  {
  }

  lemma HeadersAllowedValue()
    ensures NoReturn(HEADERS_ALLOWED)
  {
  }

  lemma PrintableWhen(name: string, value: string)
    requires name != [] && NameChars(name) && NoReturn(value)
    ensures Printable(Header(name, value))
  {
  }

  lemma FixedHeadersPrintable()
    ensures Printable(Header(ALLOW_ORIGIN, "*")) && Printable(Header(ALLOW_METHODS, METHODS_ALLOWED))
    ensures Printable(Header(ALLOW_HEADERS, HEADERS_ALLOWED)) && Printable(Header(MAX_AGE, "3600"))
  {
    AllowOriginName();
    PrintableWhen(ALLOW_ORIGIN, "*");
    AllowMethodsName();
    MethodsAllowedValue();
    PrintableWhen(ALLOW_METHODS, METHODS_ALLOWED);
    AllowHeadersName();
    HeadersAllowedValue();
    PrintableWhen(ALLOW_HEADERS, HEADERS_ALLOWED);
    MaxAgeName();
    PrintableWhen(MAX_AGE, "3600");
  }

  lemma PartHeadersPrintable(p: Part)
    requires OneLine(p.contentType)
    ensures var hs := PartHeaders(p.contentType, p.stamp, |p.payload|);
            forall i :: 0 <= i < |hs| ==> Printable(hs[i])
  {
    FixedHeadersPrintable();
    assert Printable(Header("Content-type", p.contentType));
    assert Printable(Header("X-Timestamp", p.stamp));
    assert Printable(Header("Content-Length", Decimal(|p.payload|)));
  }

  /** The header block of a part as the client reads it, name by name. */
  lemma {:induction false} PartHeadAsRead(p: Part, rest: string)
    requires OneLine(p.contentType)
    ensures ReadBlock(PartHead(p) + rest) == Some(Block(
              [ Header("Content-type", p.contentType), Header("X-Timestamp", p.stamp),
                Header("Access-Control-Allow-Origin", "*"),
                Header("Access-Control-Allow-Methods", "GET,POST,PUT,DELETE,HEAD,OPTIONS"),
                Header("Access-Control-Allow-Headers", "Origin, Authorization, Accept, Content-Type"),
                Header("Access-Control-Max-Age", "3600"),
                Header("Content-Length", Decimal(|p.payload|)) ], rest))
  {
    hide ReadBlock;
    PartHeadersPrintable(p);
    ReadBlockBack(PartHeaders(p.contentType, p.stamp, |p.payload|), rest);
  }

  lemma PartHeaderValues(p: Part)
    ensures var hs := PartHeaders(p.contentType, p.stamp, |p.payload|);
            && ValueOr(hs, "Content-type", "") == p.contentType
            && ValueOr(hs, "X-Timestamp", "") == p.stamp
            && ValueOr(hs, "Content-Length", "") == Decimal(|p.payload|)
  {
    var hs := PartHeaders(p.contentType, p.stamp, |p.payload|);
    assert ValueOr(hs[6..], "Content-Length", "") == Decimal(|p.payload|);
    assert hs[5..][1..] == hs[6..] && hs[4..][1..] == hs[5..] && hs[3..][1..] == hs[4..];
    assert hs[2..][1..] == hs[3..] && hs[1..][1..] == hs[2..];
    assert ValueOr(hs[5..], "Content-Length", "") == Decimal(|p.payload|);
    assert ValueOr(hs[4..], "Content-Length", "") == Decimal(|p.payload|);
    assert ValueOr(hs[3..], "Content-Length", "") == Decimal(|p.payload|);
    assert ValueOr(hs[2..], "Content-Length", "") == Decimal(|p.payload|);
    assert ValueOr(hs[1..], "Content-Length", "") == Decimal(|p.payload|);
  }

  /** What follows the head of a part decides whether the part is complete. */
  lemma {:induction false} DecodeAfterHead(p: Part, tail: string, boundary: string)
    requires OneLine(p.contentType)
    ensures var n, end := |p.payload|, DelimiterLine(boundary);
            DecodePart(PartHead(p) + tail, boundary) ==
            if |tail| < n + |end| || tail[n..n + |end|] != end then None
            else Some(Decoded(Part(p.contentType, p.stamp, tail[..n]), tail[n + |end|..]))
  {
    PartHeadersPrintable(p);
    ReadBlockBack(PartHeaders(p.contentType, p.stamp, |p.payload|), tail);
    PartHeaderValues(p);
    DecimalRoundTrip(|p.payload|);
  }

  lemma {:induction false} DecodePartBack(p: Part, rest: string, boundary: string)
    requires OneLine(p.contentType)
    ensures DecodePart(EncodePart(p, boundary) + rest, boundary) == Some(Decoded(p, rest))
  {
    var tail := p.payload + Delimiter(boundary) + rest;
    assert EncodePart(p, boundary) + rest == PartHead(p) + tail;
    assert Delimiter(boundary) == DelimiterLine(boundary);
    DecodeAfterHead(p, tail, boundary);
    assert tail[..|p.payload|] == p.payload;
  }

  /** Framing: the parts come back whatever bytes their payloads hold, and a tail that
      is not yet a whole part adds nothing. */
  lemma {:induction false} DecodePartsBack(ps: seq<Part>, tail: string, boundary: string)
    requires forall i :: 0 <= i < |ps| ==> OneLine(ps[i].contentType)
    requires DecodePart(tail, boundary) == None
    ensures DecodeParts(EncodeParts(ps, boundary) + tail, boundary) == ps
    decreases |ps|
  {
    hide DecodePart, DecodeParts, EncodePart, OneLine;
    if ps == [] {
      assert EncodeParts(ps, boundary) + tail == tail;
      DecodeNothing(tail, boundary);
    } else {
      var rest := EncodeParts(ps[1..], boundary) + tail;
      AppendAssociative(EncodePart(ps[0], boundary), EncodeParts(ps[1..], boundary), tail);
      DecodePartBack(ps[0], rest, boundary);
      DecodeFirst(EncodePart(ps[0], boundary) + rest, boundary);
      DecodePartsBack(ps[1..], tail, boundary);
      assert [ps[0]] + ps[1..] == ps;
    }
  }

  lemma DecodeNothing(s: string, boundary: string)
    requires DecodePart(s, boundary) == None
    ensures DecodeParts(s, boundary) == []
  {
    hide DecodePart;
  }

  lemma DecodeFirst(s: string, boundary: string)
    requires DecodePart(s, boundary).Some?
    ensures var d := DecodePart(s, boundary).value;
            DecodeParts(s, boundary) == [d.part] + DecodeParts(d.rest, boundary)
  {
    hide DecodePart;
  }

  lemma {:induction false} DecodedTypesAreOneLine(s: string, boundary: string)
    ensures forall i :: 0 <= i < |DecodeParts(s, boundary)| ==> OneLine(DecodeParts(s, boundary)[i].contentType)
    decreases |s|
  {
    if DecodePart(s, boundary).Some? {
      DecodeStable(s, [], boundary);
      DecodedTypesAreOneLine(DecodePart(s, boundary).value.rest, boundary);
    }
  }

  /** The framing is faithful exactly when no content type contains a line break, which
      the sender does not check. */
  lemma {:induction false} FramingExactlyWhen(ps: seq<Part>, boundary: string)
    ensures DecodeParts(EncodeParts(ps, boundary), boundary) == ps
            <==> forall i :: 0 <= i < |ps| ==> OneLine(ps[i].contentType)
  {
    if forall i :: 0 <= i < |ps| ==> OneLine(ps[i].contentType) {
      DecodePartsBack(ps, [], boundary);
      assert EncodeParts(ps, boundary) + [] == EncodeParts(ps, boundary);
    } else {
      DecodedTypesAreOneLine(EncodeParts(ps, boundary), boundary);
    }
  }

  /** A content type with a line break: what follows the break is taken for a header line,
      which it is not, and the client decodes no part at all. */
  lemma {:induction false} BrokenContentType(stamp: Stamp, payload: string, boundary: string)
    ensures DecodeParts(EncodeParts([Part("a\r\nb", stamp, payload)], boundary), boundary) == []
  {
    var p := Part("a\r\nb", stamp, payload);
    var ps, head := [p], PartHeaders(p.contentType, stamp, |payload|);
    var tail := HeaderBlock(head[1..]) + (payload + Delimiter(boundary));
    assert ps[0] == p && ps[1..] == [];
    BrokenTypeHead(stamp, |payload|);
    BrokenTypeBlock(tail);
    var line := "Content-type: a" + CRLF + ("b" + CRLF);
    AppendAssociative(line, HeaderBlock(head[1..]), payload + Delimiter(boundary));
    AppendAssociative(line + HeaderBlock(head[1..]), payload, Delimiter(boundary));
    assert EncodeParts(ps, boundary) == EncodePart(p, boundary) + EncodeParts([], boundary) == line + tail;
    hide ReadBlock;
  }

  lemma BrokenTypeHead(stamp: Stamp, size: nat)
    ensures var head := PartHeaders("a\r\nb", stamp, size);
            HeaderBlock(head) == "Content-type: a" + CRLF + ("b" + CRLF) + HeaderBlock(head[1..])
  {
    var head := PartHeaders("a\r\nb", stamp, size);
    assert head[0] == Header("Content-type", "a\r\nb");
    assert HeaderLine(head[0]) == "Content-type: a" + (CRLF + "b");
    AppendAssociative("Content-type: a", CRLF + "b", CRLF);
    AppendAssociative("Content-type: a", CRLF, "b" + CRLF);
    AppendAssociative(CRLF, "b", CRLF);
  }

  lemma BrokenTypeBlock(tail: string)
    ensures ReadBlock("Content-type: a" + CRLF + ("b" + CRLF) + tail) == None
  {
    AppendAssociative("Content-type: a" + CRLF, "b" + CRLF, tail);
    ReadLineBack("Content-type: a", "b" + CRLF + tail);
    ReadLineBack("b", tail);
    assert ReadBlock("b" + CRLF + tail) == None;
  }
}
