/** What happens to a request once bytes arrive: the read handler of a connection, and
    the collector that gathers a request body across reads. */
module HttpRequestHandlers {
  import opened Prelude
  import opened HttpText
  import opened HttpConnections
  import opened HttpReplies
  import opened HttpRequests
  import opened HttpRequestParsers
  import opened HttpHeads
  import MultipartDecoding

  // ---------- the read handler ----------

  datatype ReadAction = CallHandler(req: Request, rest: string) | ReplyBadRequest | ReadMore

  /** What the read handler does: it asks whether the parser decided, not how, so a
      rejected head goes to the request handler, an incomplete one is answered with
      400, and another read is never requested. */
  function HandlerAction(r: HeadRun, chunk: string): ReadAction
    requires r.used <= |chunk|
  {
    if r.result.Some? then CallHandler(r.req, chunk[r.used..]) else ReplyBadRequest
  }

  /** What the parser's interface documents: true is a complete request, false an
      invalid one, and undecided means that more data is required. */
  function DocumentedAction(r: HeadRun, chunk: string): ReadAction
    requires r.used <= |chunk|
  {
    match r.result
    case Some(true) => CallHandler(r.req, chunk[r.used..])
    case Some(false) => ReplyBadRequest
    case None => ReadMore
  }

  ghost predicate StartsWithHead(input: string) {
    exists h: Head :: ValidHead(h) && PrintHead(h) <= input
  }

  /** The parser accepts exactly the inputs that start with a head of the grammar. */
  lemma {:induction false} AcceptsExactlyHeads(blank: Request, input: string)
    requires Blank(blank)
    ensures ParseHead(MethodStart, blank, input).result == Some(true) <==> StartsWithHead(input)
  {
    hide ParseHead, PrintHead, ValidHead;
    if ParseHead(MethodStart, blank, input).result == Some(true) {
      var h := Soundness(blank, input);
      assert ValidHead(h) && PrintHead(h) <= input;
    }
    if h: Head :| ValidHead(h) && PrintHead(h) <= input {
      Completeness(blank, h, input[|PrintHead(h)|..]);
      assert PrintHead(h) + input[|PrintHead(h)|..] == input;
    }
  }

  /** The read handler does as documented exactly when the first read holds a whole head. */
  lemma HandlerAsDocumentedExactlyWhen(blank: Request, chunk: string)
    requires Blank(blank)
    ensures var r := ParseHead(MethodStart, blank, chunk);
            HandlerAction(r, chunk) == DocumentedAction(r, chunk) <==> StartsWithHead(chunk)
  {
    AcceptsExactlyHeads(blank, chunk);
  }

  /** A head that breaks off is answered with 400 instead of being read on. */
  lemma UndecidedIsAnswered(blank: Request)
    requires Blank(blank)
    ensures var r := ParseHead(MethodStart, blank, "G");
            HandlerAction(r, "G") == ReplyBadRequest && DocumentedAction(r, "G") == ReadMore
  {
    One(MethodStart, blank, 'G');
  }

  /** A head that is no request is handed to the request handler. */
  lemma RejectedIsHandedOver(blank: Request)
    requires Blank(blank)
    ensures var r := ParseHead(MethodStart, blank, "(");
            HandlerAction(r, "(") == CallHandler(blank, []) && DocumentedAction(r, "(") == ReplyBadRequest
  {
    One(MethodStart, blank, '(');
  }

  /** The stock reply for a bad request as a client reads it: its status, a length that is
      that of the page, and the page. */
  lemma {:induction false} BadRequestIsRead(page: string)
    ensures var reply := MultipartDecoding.ReadLine(StockReply(STATUS_BAD_REQUEST, page));
            && reply.Some? && reply.value.text == "HTTP/1.0 400 Bad Request"
            && var block := MultipartDecoding.ReadBlock(reply.value.rest);
               && block.Some? && block.value.rest == page
               && var size := ValueOr(block.value.headers, "Content-Length", "");
                  Digits(size) && NumberOf(size) == |page|
  {
    var text, hs := "HTTP/1.0 400 Bad Request", StockHeaders(page);
    assert STATUS_BAD_REQUEST == text + CRLF;
    assert MultipartDecoding.OneLine(text);
    StockHeadersPrintable(page);
    hide HeaderBlock, MultipartDecoding.ReadLine, MultipartDecoding.ReadBlock;
    hide MultipartDecoding.Printable, MultipartDecoding.OneLine;
    MultipartDecoding.ReadLineBack(text, HeaderBlock(hs) + page);
    AppendAssociative(text + CRLF, HeaderBlock(hs), page);
    MultipartDecoding.ReadBlockBack(hs, page);
    DecimalRoundTrip(|page|);
  }

  lemma StockHeadersPrintable(page: string)
    ensures forall i :: 0 <= i < |StockHeaders(page)| ==> MultipartDecoding.Printable(StockHeaders(page)[i])
  {
    hide Decimal;
    assert MultipartDecoding.Printable(Header("Content-Length", Decimal(|page|)));
    assert MultipartDecoding.Printable(Header("Content-Type", "text/html"));
    hide MultipartDecoding.Printable;
  }

  class RequestReader {
    const connection: HttpConnection<char>
    const parser: HttpRequestParser
    const request: HttpRequest
    var actions: seq<ReadAction>

    constructor (connection: HttpConnection<char>, major: int, minor: int)
      ensures this.connection == connection && fresh(parser) && fresh(request)
      ensures parser.state == MethodStart && Blank(request.View()) && actions == []
    {
      this.connection := connection;
      parser := new HttpRequestParser();
      request := new HttpRequest(major, minor);
      actions := [];
    }

    /** One read. Either the target is split and the request handler called, or the stock
        reply for a bad request is written; another read is not requested. */
    method HandleRead(chunk: string) returns (r: Exceptional<()>)
      requires Ready(parser.state, request.View()) && connection.Consistent()
      modifies this`actions, parser, request, connection
      ensures connection.Consistent() && connection.readsRequested == old(connection.readsRequested)
      ensures var p := ParseHead(old(parser.state), old(request.View()), chunk);
              && parser.state == p.state && request.View() == p.req
              && actions == old(actions) + [HandlerAction(p, chunk)]
              && ParsedTarget(p.result.Some? && SplitTarget(request.uri).Some?, request.path, request.query, request.queryParams)
                 == (if p.result.None? then ParsedTarget(false, old(request.path), old(request.query), old(request.queryParams))
                     else TargetAfter(request.uri, old(request.path), old(request.query), old(request.queryParams)))
              && (p.result.Some? ==> r.Returned? && connection.View() == old(connection.View()))
              && (p.result.None? && r.Returned? ==>
                    BytesOf(connection.log)
                    == BytesOf(old(connection.log)) + StockReply(STATUS_BAD_REQUEST, BAD_REQUEST_PAGE))
    {
      assert chunk[0..] == chunk;
      var result, parseEnd := parser.Parse(request, chunk, 0);
      if result.Some? {
        var parsed := request.ParseUri();
        var req := Request(request.verb, request.uri, request.major, request.minor, request.headers);
        actions := actions + [CallHandler(req, chunk[parseEnd..])];
        return Returned(());
      } else {
        actions := actions + [ReplyBadRequest];
        r := WriteStockReply(connection, STATUS_BAD_REQUEST, BAD_REQUEST_PAGE);
      }
    }
  }

  // ---------- Content-Length ----------

  predicate IsSpace(c: char) {
    c == ' ' || 9 <= c as int <= 13
  }

  function SkipSpace(s: string): string {
    if s != [] && IsSpace(s[0]) then SkipSpace(s[1..]) else s
  }

  function LeadingDigits(s: string): (d: string)
    ensures Digits(d)
  {
    if s == [] || !IsDigit(s[0]) then [] else [s[0]] + LeadingDigits(s[1..])
  }

  const MAX_LONG := 0x7FFF_FFFF_FFFF_FFFF

  /** `std::stol`, with `None` for its exceptions: white space, a sign, digits, and the
      rest ignored; a value that does not fit a 64-bit `long` is out of range. */
  function Stol(s: string): Option<int> {
    var t := SkipSpace(s);
    var negative := t != [] && t[0] == '-';
    var d := LeadingDigits(if t != [] && (t[0] == '-' || t[0] == '+') then t[1..] else t);
    if d == [] then None
    else
      var n: int := NumberOf(d);
      var v := if negative then -n else n;
      if -MAX_LONG - 1 <= v <= MAX_LONG then Some(v) else None
  }

  /** The white space of the C library, listed. */
  predicate White(c: char) {
    c == ' ' || c == '\t' || c == '\n' || c as int == 11 || c as int == 12 || c == '\r'
  }

  predicate AllSpace(s: string) {
    forall i :: 0 <= i < |s| ==> White(s[i])
  }

  lemma {:induction false} SkipSpaceBefore(space: string, s: string)
    requires AllSpace(space) && s != [] && !IsSpace(s[0])
    ensures SkipSpace(space + s) == s
  {
    if space == [] {
      assert space + s == s;
    } else {
      assert (space + s)[1..] == space[1..] + s;
      SkipSpaceBefore(space[1..], s);
    }
  }

  lemma {:induction false} LeadingDigitsBefore(d: string, rest: string)
    requires Digits(d) && (rest != [] ==> !IsDigit(rest[0]))
    ensures LeadingDigits(d + rest) == d
  {
    if d == [] {
      assert d + rest == rest;
    } else {
      assert (d + rest)[1..] == d[1..] + rest;
      LeadingDigitsBefore(d[1..], rest);
      assert [d[0]] + d[1..] == d;
    }
  }

  datatype Sign = NoSign | Plus | Minus {
    function Text(): string {
      match this case NoSign => "" case Plus => "+" case Minus => "-"
    }
  }

  /** Numbers in the form the library reads: the value counts if it fits a `long`, and
      what follows the digits does not matter. */
  lemma {:induction false} StolReads(space: string, sign: Sign, d: string, rest: string)
    requires AllSpace(space) && Digits(d) && d != [] && (rest != [] ==> !IsDigit(rest[0]))
    ensures var v: int := if sign.Minus? then -1 * NumberOf(d) else NumberOf(d);
            Stol(space + (sign.Text() + (d + rest)))
            == if -9223372036854775808 <= v <= 9223372036854775807 then Some(v) else None
  {
    var s := sign.Text() + (d + rest);
    SkipSpaceBefore(space, s);
    LeadingDigitsBefore(d, rest);
    if sign.NoSign? {
      assert s == d + rest;
    } else {
      assert s[1..] == d + rest;
    }
  }

  /** Without a digit after the white space and sign there is no number. */
  lemma {:induction false} StolRefuses(space: string, sign: Sign, rest: string)
    requires AllSpace(space) && (rest != [] ==> !IsDigit(rest[0]))
    requires sign.NoSign? && rest != [] ==> !White(rest[0]) && rest[0] != '-' && rest[0] != '+'
    ensures Stol(space + (sign.Text() + rest)) == None
  {
    var s := sign.Text() + rest;
    if s == [] {
      assert space + s == space;
      SkipAllSpace(space);
    } else {
      SkipSpaceBefore(space, s);
      if sign.NoSign? {
        assert s == rest;
      } else {
        assert s[1..] == rest;
      }
    }
  }

  lemma {:induction false} SkipAllSpace(space: string)
    requires AllSpace(space)
    ensures SkipSpace(space) == []
  {
    if space != [] {
      SkipAllSpace(space[1..]);
    }
  }

  lemma StolOfDecimal(n: nat)
    requires n <= MAX_LONG
    ensures Stol(Decimal(n)) == Some(n)
  {
    var s := Decimal(n);
    StolReads([], NoSign, s, []);
    assert [] + ("" + (s + [])) == s;
    DecimalRoundTrip(n);
  }

  /** The body length a request announces, or -1. */
  function AnnouncedLength(req: Request): int {
    match Stol(ValueOr(req.headers, "Content-Length", "")) case None => -1 case Some(n) => n
  }

  // ---------- the collector on values ----------

  datatype Collector = Collector(length: int, body: string, received: nat)

  datatype CollectAction = Refuse | Deliver(body: string) | Continue

  datatype CollectStep = CollectStep(collector: Collector, action: CollectAction)

  function Collect(c: Collector, chunk: string): CollectStep
    requires c.received == |c.body|
  {
    if c.length < 0 then CollectStep(c, Refuse)
    else
      var next := Collector(c.length, c.body + chunk, c.received + |chunk|);
      if next.received >= c.length then CollectStep(next, Deliver(next.body[..c.length]))
      else CollectStep(next, Continue)
  }

  /** A run of reads: the bodies handed to the handler, how many reads were used, and
      whether one more has been requested. A read happens only if it was requested. */
  datatype Collection = Collection(calls: seq<string>, used: nat, waiting: bool)

  function CollectAll(c: Collector, chunks: seq<string>): Collection
    requires c.received == |c.body|
    decreases |chunks|
  {
    if chunks == [] then Collection([], 0, true)
    else
      var s := Collect(c, chunks[0]);
      match s.action
      case Refuse => Collection([], 1, false)
      case Deliver(body) => Collection([body], 1, false)
      case Continue =>
        var r := CollectAll(s.collector, chunks[1..]);
        r.(used := r.used + 1)
  }

  function Received(chunks: seq<string>, k: nat): nat
    requires k <= |chunks|
  {
    |Flatten(chunks[..k])|
  }

  lemma {:induction false} FlattenNext(chunks: seq<string>, k: nat)
    requires 1 <= k <= |chunks|
    ensures Flatten(chunks[..k]) == chunks[0] + Flatten(chunks[1..][..k - 1])
  {
    assert chunks[..k] == [chunks[0]] + chunks[1..][..k - 1];
    FlattenAppend([chunks[0]], chunks[1..][..k - 1]);
    FlattenOne(chunks[0]);
  }

  /** From any point of a collection, with `seen` gathered so far. */
  lemma {:induction false} CollectRun(c: Collector, chunks: seq<string>)
    requires c.received == |c.body| && c.length >= 0 && (c.received < c.length || c.body == [])
    ensures var r, all := CollectAll(c, chunks), c.body + Flatten(chunks);
            && r.used <= |chunks|
            && (r.waiting ==> r.calls == [] && r.used == |chunks| && (chunks != [] ==> |all| < c.length))
            && (!r.waiting ==>
                  && 1 <= r.used && |all| >= c.length && r.calls == [all[..c.length]]
                  && |c.body| + Received(chunks, r.used) >= c.length
                  && forall k :: 1 <= k < r.used ==> |c.body| + Received(chunks, k) < c.length)
    decreases |chunks|
  {
    if chunks != [] {
      var next := Collect(c, chunks[0]).collector;
      var all := c.body + Flatten(chunks);
      AppendAssociative(c.body, chunks[0], Flatten(chunks[1..]));
      assert all == next.body + Flatten(chunks[1..]);
      FlattenNext(chunks, 1);
      assert Received(chunks[1..], 0) == 0;
      if next.received >= c.length {
        assert all[..c.length] == next.body[..c.length];
      } else {
        CollectRun(next, chunks[1..]);
        var r := CollectAll(next, chunks[1..]);
        forall k | 1 <= k <= r.used + 1 ensures Received(chunks, k) == |chunks[0]| + Received(chunks[1..], k - 1) {
          FlattenNext(chunks, k);
        }
      }
    }
  }

  /** Collection over any chunks of a body with announced length `n`: nothing is
      delivered while fewer than `n` bytes have arrived, and one more read is always
      wanted; at the first chunk that completes them the handler is called once, with
      exactly the first `n` bytes, and no further read is requested. */
  lemma {:induction false} BodyCollected(n: nat, chunks: seq<string>)
    requires chunks != []
    ensures var r, all := CollectAll(Collector(n, [], 0), chunks), Flatten(chunks);
            && (|all| < n ==> r == Collection([], |chunks|, true))
            && (|all| >= n ==>
                  && r.calls == [all[..n]] && !r.waiting && 1 <= r.used <= |chunks|
                  && Received(chunks, r.used) >= n
                  && forall k :: 1 <= k < r.used ==> Received(chunks, k) < n)
  {
    CollectRun(Collector(n, [], 0), chunks);
    assert [] + Flatten(chunks) == Flatten(chunks);
  }

  /** Chunk independence: two ways of cutting the same bytes deliver the same body. */
  lemma BodyIgnoresChunking(n: nat, a: seq<string>, b: seq<string>)
    requires a != [] && b != [] && Flatten(a) == Flatten(b)
    ensures var x, y := CollectAll(Collector(n, [], 0), a), CollectAll(Collector(n, [], 0), b);
            x.calls == y.calls && x.waiting == y.waiting
  {
    BodyCollected(n, a);
    BodyCollected(n, b);
  }

  /** A body is refused, at the first read and for good, exactly when the first header of
      that name holds no number that fits, or a negative one, or there is no such header. */
  lemma {:induction false} BodyRefusedExactlyWhen(req: Request, chunks: seq<string>)
    requires chunks != []
    ensures CollectAll(Collector(AnnouncedLength(req), [], 0), chunks) == Collection([], 1, false)
            <==> (forall i :: 0 <= i < |req.headers| ==> req.headers[i].name != "Content-Length")
                 || exists i :: FirstOf(req.headers, "Content-Length", i)
                      && (Stol(req.headers[i].value) == None || Stol(req.headers[i].value).value < 0)
  {
    hide CollectAll, Stol;
    FirstHeaderCounts(req.headers, "Content-Length", "");
    EmptyIsNoNumber();
    var n := AnnouncedLength(req);
    if n >= 0 {
      BodyCollected(n, chunks);
    } else {
      RefusedAtOnce(n, chunks);
    }
  }

  lemma EmptyIsNoNumber()
    ensures Stol("") == None
  {
  }

  lemma RefusedAtOnce(n: int, chunks: seq<string>)
    requires n < 0 && chunks != []
    ensures CollectAll(Collector(n, [], 0), chunks) == Collection([], 1, false)
  {
  }

  // ---------- head and body over reads ----------

  /** What ends the reading of a head, and how many reads were used. */
  datatype Reading = Reading(action: ReadAction, used: nat)

  /** Reading as the parser's interface documents it: while the parser is undecided,
      another read carries on where it stopped. */
  function DocumentedReads(state: HeadState, req: Request, chunks: seq<string>): (d: Reading)
    requires Ready(state, req)
    ensures d.used <= |chunks|
    decreases |chunks|
  {
    if chunks == [] then Reading(ReadMore, 0)
    else
      var r := ParseHead(state, req, chunks[0]);
      if r.result.Some? then Reading(DocumentedAction(r, chunks[0]), 1)
      else
        var later := DocumentedReads(r.state, r.req, chunks[1..]);
        later.(used := later.used + 1)
  }

  /** Reading as the connection does it: the first read ends it. */
  function ActualReads(req: Request, chunks: seq<string>): (d: Reading)
    requires Blank(req)
    ensures d.used <= |chunks|
  {
    if chunks == [] then Reading(ReadMore, 0)
    else Reading(HandlerAction(ParseHead(MethodStart, req, chunks[0]), chunks[0]), 1)
  }

  /** Reading `d` of `chunks` is the parse `p` of their concatenation: it ends with the read
      that brings the deciding character, and what follows that character in it is handed
      over. */
  predicate ReadsAs(d: Reading, p: HeadRun, chunks: seq<string>)
    requires d.used <= |chunks|
  {
    if p.result.None? then d == Reading(ReadMore, |chunks|)
    else
      && 1 <= d.used && Received(chunks, d.used - 1) < p.used <= Received(chunks, d.used)
      && d.action == (if p.result == Some(true)
                      then CallHandler(p.req, Flatten(chunks[..d.used])[p.used..]) else ReplyBadRequest)
  }

  /** Documented reading is parsing the concatenation. */
  lemma {:induction false} ReadsAreOneParse(state: HeadState, req: Request, chunks: seq<string>)
    requires Ready(state, req)
    ensures ReadsAs(DocumentedReads(state, req, chunks), ParseHead(state, req, Flatten(chunks)), chunks)
    decreases |chunks|
  {
    hide ParseHead;
    if chunks == [] {
      ParseHeadEmpty(state, req);
      return;
    }
    var rest := chunks[1..];
    var r := ParseHead(state, req, chunks[0]);
    FlattenFirst(chunks);
    ParseHeadConcat(state, req, chunks[0], Flatten(rest));
    if r.result.None? {
      ReadsAreOneParse(r.state, r.req, rest);
      ReadOneMore(DocumentedReads(r.state, r.req, rest), ParseHead(r.state, r.req, Flatten(rest)), chunks);
    }
  }

  lemma ReadOneMore(d: Reading, q: HeadRun, chunks: seq<string>)
    requires chunks != [] && d.used <= |chunks[1..]| && ReadsAs(d, q, chunks[1..])
    ensures ReadsAs(d.(used := d.used + 1), q.(used := |chunks[0]| + q.used), chunks)
  {
    if q.result.Some? {
      OneReadEarlier(chunks, d.used, q.used);
    }
  }

  lemma FlattenFirst(chunks: seq<string>)
    requires chunks != []
    ensures Flatten(chunks) == chunks[0] + Flatten(chunks[1..])
    ensures Received(chunks, 0) == 0 && Received(chunks, 1) == |chunks[0]|
    ensures Flatten(chunks[..1]) == chunks[0]
  {
    FlattenOne(chunks[0]);
    assert chunks[..1] == [chunks[0]];
  }

  /** Counting reads and characters from one read earlier. */
  lemma OneReadEarlier(chunks: seq<string>, k: nat, used: nat)
    requires chunks != [] && 1 <= k <= |chunks| - 1
    requires Received(chunks[1..], k - 1) < used <= Received(chunks[1..], k)
    ensures Received(chunks, k) < |chunks[0]| + used <= Received(chunks, k + 1)
    ensures Flatten(chunks[..k + 1])[|chunks[0]| + used..] == Flatten(chunks[1..][..k])[used..]
  {
    FlattenNext(chunks, k);
    FlattenNext(chunks, k + 1);
  }

  /** The service of one request: how reading its head ended, the bodies delivered, the
      reads used in all, and whether one more has been requested. */
  datatype Service = Service(action: ReadAction, calls: seq<string>, used: nat, waiting: bool)

  /** A request that is handed over starts a collector on the rest of that read. */
  function Serve(d: Reading, chunks: seq<string>): Service
    requires d.used <= |chunks|
  {
    match d.action
    case ReadMore => Service(d.action, [], d.used, true)
    case ReplyBadRequest => Service(d.action, [], d.used, false)
    case CallHandler(req, rest) =>
      var body := CollectAll(Collector(AnnouncedLength(req), [], 0), [rest] + chunks[d.used..]);
      Service(d.action, body.calls, d.used + body.used - 1, body.waiting)
  }

  /** The reads of the body, as seen from the collector. */
  lemma {:induction false} BodyReads(chunks: seq<string>, u: nat, head: string, rest: string, body: string)
    requires u <= |chunks| && Flatten(chunks[..u]) == head + rest && Flatten(chunks) == head + body
    ensures Flatten([rest] + chunks[u..]) == body
    ensures forall k :: 1 <= k <= |chunks| - u + 1 ==>
              Received(chunks, u + k - 1) == |head| + Received([rest] + chunks[u..], k)
  {
    var later := chunks[u..];
    assert chunks == chunks[..u] + later;
    FlattenAppend(chunks[..u], later);
    FlattenAppend([rest], later);
    FlattenOne(rest);
    AppendAssociative(head, rest, Flatten(later));
    assert (head + body)[|head|..] == body && (head + (rest + Flatten(later)))[|head|..] == rest + Flatten(later);
    forall k | 1 <= k <= |chunks| - u + 1
      ensures Received(chunks, u + k - 1) == |head| + Received([rest] + later, k)
    {
      assert chunks[..u + k - 1] == chunks[..u] + later[..k - 1];
      FlattenAppend(chunks[..u], later[..k - 1]);
      assert ([rest] + later)[..k] == [rest] + later[..k - 1];
      FlattenAppend([rest], later[..k - 1]);
    }
  }

  /** The reading of a head, over any cutting of what begins with it: it hands over what
      the head means, with the rest of the read that brings its last character. */
  lemma {:induction false} HeadIsRead(blank: Request, h: Head, body: string, chunks: seq<string>) returns (rest: string)
    requires Blank(blank) && ValidHead(h) && Flatten(chunks) == PrintHead(h) + body
    ensures var d := DocumentedReads(MethodStart, blank, chunks);
            && d.action == CallHandler(RequestOf(h), rest) && d.used >= 1
            && Flatten(chunks[..d.used]) == PrintHead(h) + rest
            && Received(chunks, d.used - 1) < |PrintHead(h)|
  {
    hide ParseHead, PrintHead, RequestOf, ValidHead, DocumentedReads, Flatten;
    Completeness(blank, h, body);
    ReadsAreOneParse(MethodStart, blank, chunks);
    var u := DocumentedReads(MethodStart, blank, chunks).used;
    HeadWithin(chunks, u, PrintHead(h), body);
    rest := Flatten(chunks[..u])[|PrintHead(h)|..];
  }

  /** A posted request, over any cutting of its head and body into reads: documented
      reading hands over exactly the request that the head means. The body is delivered
      once, as exactly its first `n` bytes, at the first read by which the head and `n`
      more bytes have come, and nothing is read after that; until then one more read is
      always wanted. */
  lemma {:induction false} PostedBodyDelivered(blank: Request, h: Head, body: string, chunks: seq<string>)
    requires Blank(blank) && ValidHead(h) && Flatten(chunks) == PrintHead(h) + body
    requires AnnouncedLength(RequestOf(h)) >= 0
    ensures var n := AnnouncedLength(RequestOf(h));
            var s := Serve(DocumentedReads(MethodStart, blank, chunks), chunks);
            && s.action.CallHandler? && s.action.req == RequestOf(h)
            && s.waiting == (|body| < n)
            && s.calls == (if |body| < n then [] else [body[..n]])
            && (|body| < n ==> s.used == |chunks|)
            && (|body| >= n ==>
                  && 1 <= s.used <= |chunks| && Received(chunks, s.used) >= |PrintHead(h)| + n
                  && forall k :: 0 <= k < s.used ==> Received(chunks, k) < |PrintHead(h)| + n)
  {
    hide PrintHead, RequestOf, ValidHead, AnnouncedLength, CollectAll, DocumentedReads, Flatten, Received;
    var head, n := PrintHead(h), AnnouncedLength(RequestOf(h));
    var rest := HeadIsRead(blank, h, body, chunks);
    var u := DocumentedReads(MethodStart, blank, chunks).used;
    var later := [rest] + chunks[u..];
    BodyReads(chunks, u, head, rest, body);
    BodyCollected(n, later);
    var c := CollectAll(Collector(n, [], 0), later);
    if |body| >= n {
      NotBefore(chunks, u, later, c.used, |head|, n);
      assert Received(chunks, u + c.used - 1) == |head| + Received(later, c.used);
    }
  }

  /** No earlier read brings the head and `n` more bytes. */
  lemma NotBefore(chunks: seq<string>, u: nat, later: seq<string>, used: nat, head: nat, n: nat)
    requires 1 <= u <= |chunks| && 1 <= used <= |later| == |chunks| - u + 1
    requires Received(chunks, u - 1) < head
    requires forall k :: 1 <= k <= |later| ==> Received(chunks, u + k - 1) == head + Received(later, k)
    requires forall k :: 1 <= k < used ==> Received(later, k) < n
    ensures forall k :: 0 <= k < u + used - 1 ==> Received(chunks, k) < head + n
  {
    hide Received;
    forall k | 0 <= k < u + used - 1 ensures Received(chunks, k) < head + n {
      if k < u {
        ReceivedGrows(chunks, k, u - 1);
      } else {
        assert Received(chunks, u + (k - u + 1) - 1) == head + Received(later, k - u + 1);
      }
    }
  }

  lemma HeadWithin(chunks: seq<string>, u: nat, head: string, body: string)
    requires u <= |chunks| && Flatten(chunks) == head + body && |head| <= Received(chunks, u)
    ensures Flatten(chunks[..u]) == head + Flatten(chunks[..u])[|head|..]
  {
    var all := Flatten(chunks[..u]);
    assert chunks == chunks[..u] + chunks[u..];
    FlattenAppend(chunks[..u], chunks[u..]);
    assert all[..|head|] == (all + Flatten(chunks[u..]))[..|head|] == (head + body)[..|head|] == head;
  }

  lemma ReceivedGrows(chunks: seq<string>, j: nat, k: nat)
    requires j <= k <= |chunks|
    ensures Received(chunks, j) <= Received(chunks, k)
  {
    assert chunks[..k] == chunks[..j] + chunks[j..k];
    FlattenAppend(chunks[..j], chunks[j..k]);
  }

  /** A head of which only a part has come: documented reading wants one more read. */
  lemma {:induction false} UnfinishedHeadWaits(blank: Request, h: Head, chunks: seq<string>)
    requires Blank(blank) && ValidHead(h)
    requires Flatten(chunks) <= PrintHead(h) && Flatten(chunks) != PrintHead(h)
    ensures Serve(DocumentedReads(MethodStart, blank, chunks), chunks) == Service(ReadMore, [], |chunks|, true)
  {
    PartOfHeadIsUndecided(blank, h, Flatten(chunks));
    ReadsAreOneParse(MethodStart, blank, chunks);
  }

  lemma {:induction false} PartOfHeadIsUndecided(blank: Request, h: Head, part: string)
    requires Blank(blank) && ValidHead(h) && part <= PrintHead(h) && part != PrintHead(h)
    ensures ParseHead(MethodStart, blank, part).result.None?
  {
    hide ParseHead, PrintHead, ValidHead, RequestOf;
    var head := PrintHead(h);
    Completeness(blank, h, []);
    assert head + [] == head && part + head[|part|..] == head;
    ParseHeadConcat(MethodStart, blank, part, head[|part|..]);
  }

  /** The connection as coded serves a posted request as documented exactly when the
      first read brings the whole head. */
  lemma {:induction false} ServedAsDocumentedExactlyWhen(blank: Request, h: Head, body: string, chunks: seq<string>)
    requires Blank(blank) && ValidHead(h) && chunks != [] && Flatten(chunks) == PrintHead(h) + body
    ensures Serve(ActualReads(blank, chunks), chunks) == Serve(DocumentedReads(MethodStart, blank, chunks), chunks)
            <==> PrintHead(h) <= chunks[0]
  {
    var head, first := PrintHead(h), chunks[0];
    hide ParseHead, PrintHead, ValidHead, RequestOf, CollectAll;
    assert Flatten(chunks) == first + Flatten(chunks[1..]);
    if head <= first {
      Completeness(blank, h, first[|head|..]);
      assert head + first[|head|..] == first;
    } else {
      FirstIsPartOfHead(first, Flatten(chunks[1..]), head, body);
      PartOfHeadIsUndecided(blank, h, first);
      Completeness(blank, h, body);
      ReadsAreOneParse(MethodStart, blank, chunks);
    }
  }

  lemma FirstIsPartOfHead(first: string, later: string, head: string, body: string)
    requires first + later == head + body && !(head <= first)
    ensures first <= head && first != head
  {
    if |head| <= |first| {
      ShorterIsPrefix(first, later, head, body);
    } else {
      ShorterIsPrefix(head, body, first, later);
    }
  }

  lemma ShorterIsPrefix(a: string, b: string, c: string, d: string)
    requires a + b == c + d && |c| <= |a|
    ensures c <= a
  {
    assert (a + b)[..|c|] == a[..|c|] && (c + d)[..|c|] == c;
  }

  /** In particular for a printed request with the length in plain decimal. */
  lemma {:induction false} PrintedPostDelivered(blank: Request, req: Request, n: nat, body: string, chunks: seq<string>)
    requires Blank(blank) && Clean(req) && n <= MAX_LONG && |body| >= n
    requires ValueOr(req.headers, "Content-Length", "") == Decimal(n)
    requires chunks != [] && PrintRequest(req) <= chunks[0] && Flatten(chunks) == PrintRequest(req) + body
    ensures var s := Serve(ActualReads(blank, chunks), chunks);
            s.action.CallHandler? && s.action.req == req && s.calls == [body[..n]] && !s.waiting
  {
    HeadOfPrints(req);
    StolOfDecimal(n);
    PostedBodyDelivered(blank, HeadOf(req), body, chunks);
    ServedAsDocumentedExactlyWhen(blank, HeadOf(req), body, chunks);
  }

  // ---------- the class ----------

  const NO_LENGTH: string := "No Content-Length header"

  class BodyCollectingConnection {
    const connection: HttpConnection<char>
    const request: Request
    const length: int
    var body: string
    var receivedLength: nat
    /** The bodies the handler has been called with. */
    var calls: seq<string>

    constructor (request: Request, connection: HttpConnection<char>)
      ensures this.connection == connection && this.request == request
      ensures View() == Collector(AnnouncedLength(request), [], 0) && calls == []
    {
      this.request, this.connection := request, connection;
      var length := Stol(ValueOr(request.headers, "Content-Length", ""));
      this.length := if length.Some? then length.value else -1;
      body, receivedLength, calls := [], 0, [];
    }

    ghost function View(): Collector
      reads this
    {
      Collector(length, body, receivedLength)
    }

    /** One read. It delivers, asks for another read, or refuses a request without a
        usable length. */
    method HandleRead(chunk: string) returns (r: Exceptional<()>)
      requires receivedLength == |body| && connection.Consistent()
      modifies this, connection
      ensures receivedLength == |body| && connection.Consistent()
      ensures var s := Collect(old(View()), chunk);
              && View() == s.collector
              && calls == old(calls) + (if s.action.Deliver? then [s.action.body] else [])
              && connection.readsRequested == old(connection.readsRequested)
                   + (if s.action.Continue? && !old(connection.lastError) then 1 else 0)
              && (!s.action.Refuse? ==> connection.View() == old(connection.View()))
              && (s.action.Refuse? && r.Returned? ==>
                    BytesOf(connection.log)
                    == BytesOf(old(connection.log)) + (STATUS_BAD_REQUEST + CRLF + NO_LENGTH))
    {
      if length < 0 {
        r := ReplyNoLength(connection);
        return;
      }
      body := body + chunk;
      receivedLength := receivedLength + |chunk|;
      if receivedLength >= length {
        calls := calls + [body[..length]];
        return Returned(());
      } else {
        r := connection.AsyncRead();
      }
    }
  }

  method ReplyNoLength(connection: HttpConnection<char>) returns (r: Exceptional<()>)
    requires connection.Consistent()
    modifies connection
    ensures connection.Consistent() && connection.readsRequested == old(connection.readsRequested)
    ensures r.Returned? ==> BytesOf(connection.log)
                            == BytesOf(old(connection.log)) + (STATUS_BAD_REQUEST + CRLF + NO_LENGTH)
  {
    ghost var c0 := connection.View();
    var builder := new ReplyBuilder(STATUS_BAD_REQUEST, 0);
    r := builder.Write(connection);
    if r.Returned? {
      ghost var c1 := connection.View();
      r := connection.WriteContent(NO_LENGTH);
      ReplyAndContentBytes(c0, c1, STATUS_BAD_REQUEST, [], NO_LENGTH);
    }
  }
}
