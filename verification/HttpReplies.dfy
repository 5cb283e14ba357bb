/** Printing reply heads onto a connection. */
module HttpReplies {
  import opened Prelude
  import opened HttpText
  import opened HttpConnections

  /** The buffers of a header block: four for each header, one for the empty line. */
  function HeaderBuffers(hs: seq<Header>): seq<string> {
    if hs == [] then [CRLF]
    else [hs[0].name, ": ", hs[0].value, CRLF] + HeaderBuffers(hs[1..])
  }

  lemma {:induction false} HeaderBuffersFlatten(hs: seq<Header>)
    ensures Flatten(HeaderBuffers(hs)) == HeaderBlock(hs)
  {
    if hs == [] {
      FlattenOne(CRLF);
    } else {
      var h := hs[0];
      HeaderBuffersFlatten(hs[1..]);
      FlattenAppend([h.name, ": ", h.value, CRLF], HeaderBuffers(hs[1..]));
      FlattenFour(h.name, ": ", h.value, CRLF);
    }
  }

  lemma FlattenFour<T>(a: seq<T>, b: seq<T>, c: seq<T>, d: seq<T>)
    ensures Flatten([a, b, c, d]) == a + b + c + d
  {
    assert [a, b, c, d][1..] == [b, c, d] && [b, c, d][1..] == [c, d] && [c, d][1..] == [d];
    FlattenOne(d);
    assert Flatten([c, d]) == c + d;
    assert Flatten([b, c, d]) == b + (c + d);
    assert Flatten([a, b, c, d]) == a + (b + (c + d));
  }

  lemma {:induction false} HeaderBuffersAppend(hs: seq<Header>, h: Header)
    ensures |HeaderBuffers(hs)| == 4 * |hs| + 1 && HeaderBuffers(hs)[4 * |hs|] == CRLF
    ensures HeaderBuffers(hs + [h]) ==
            HeaderBuffers(hs)[..4 * |hs|] + [h.name, ": ", h.value, CRLF] + [CRLF]
  {
    if hs == [] {
      assert [h][1..] == [];
    } else {
      HeaderBuffersAppend(hs[1..], h);
      assert (hs + [h])[1..] == hs[1..] + [h];
    }
  }

  lemma NoHeaders(headers: seq<Header>)
    ensures HeaderBuffers(headers[..0]) == [CRLF] == [] + [CRLF]
  {
  }

  lemma NextHeader(headers: seq<Header>, i: nat, buffers: seq<string>)
    requires i < |headers| && buffers + [CRLF] == HeaderBuffers(headers[..i])
    ensures var h := headers[i];
            HeaderBuffers(headers[..i + 1])
            == buffers + [h.name] + [": "] + [h.value] + [CRLF] + [CRLF]
  {
    var h := headers[i];
    HeaderBuffersAppend(headers[..i], h);
    assert headers[..i + 1] == headers[..i] + [h];
    hide HeaderBuffers;
    assert (buffers + [CRLF])[..4 * i] == buffers;
    assert [h.name, ": ", h.value, CRLF] == [h.name] + [": "] + [h.value] + [CRLF];
  }

  method ToBuffers(headers: seq<Header>) returns (buffers: seq<string>)
    ensures buffers == HeaderBuffers(headers)
    ensures Flatten(buffers) == HeaderBlock(headers)
  {
    hide HeaderBuffers;
    buffers := [];
    var i := 0;
    NoHeaders(headers);
    while i < |headers|
      invariant 0 <= i <= |headers|
      invariant buffers + [CRLF] == HeaderBuffers(headers[..i])
    {
      var h := headers[i];
      NextHeader(headers, i, buffers);
      buffers := buffers + [h.name];
      buffers := buffers + [": "];
      buffers := buffers + [h.value];
      buffers := buffers + [CRLF];
      i := i + 1;
    }
    assert headers[..i] == headers;
    buffers := buffers + [CRLF];
    HeaderBuffersFlatten(headers);
  }

  const STATUS_OK: string := "HTTP/1.0 200 OK\r\n"

  const STATUS_BAD_REQUEST: string := "HTTP/1.0 400 Bad Request\r\n"
  const BAD_REQUEST_PAGE: string :=
    "<html><head><title>Bad Request</title></head><body><h1>400 Bad Request</h1></body></html>"

  class ReplyBuilder {
    const status: string
    const owner: int
    var headers: seq<Header>

    /** `owner` is the identity of the shared header list. */
    constructor (status: string, owner: int)
      ensures this.status == status && this.owner == owner && headers == []
    {
      this.status, this.owner, this.headers := status, owner, [];
    }

    method AddHeader(name: string, value: string)
      modifies this
      ensures headers == old(headers) + [Header(name, value)]
    {
      headers := headers + [Header(name, value)];
    }

    method AddHeaders(hs: seq<Header>)
      modifies this
      ensures headers == old(headers) + hs
    {
      headers := headers + hs;
    }

    /** The status line, owned by nobody, and then the headers. If the first write
        throws, the second is not made. */
    method Write(connection: HttpConnection<char>) returns (r: Exceptional<()>)
      requires connection.Consistent()
      modifies connection
      ensures connection.Consistent()
      ensures WriteReply(old(connection.View()), status, headers, owner) == Step(connection.View(), r.Thrown?)
      ensures connection.readsRequested == old(connection.readsRequested)
    {
      r := connection.WriteBuffer(status, None);
      if r.Thrown? {
        return;
      }
      var buffers := ToBuffers(headers);
      r := connection.WriteBuffers(buffers, Some(External(owner)));
    }
  }

  function WriteReply(c: Connection<char>, status: string, headers: seq<Header>, owner: int): Step<char> {
    var first := Write(c, Call([status], None));
    if first.threw then first
    else HttpConnections.Write(first.state, Call(HeaderBuffers(headers), Some(External(owner))))
  }

  /** A reply that did not throw has added exactly its status line and header block to
      the bytes of the connection. */
  lemma {:induction false} ReplyBytes(c: Connection<char>, status: string, headers: seq<Header>, owner: int)
    requires !WriteReply(c, status, headers, owner).threw
    ensures BytesOf(WriteReply(c, status, headers, owner).state.log)
            == BytesOf(c.log) + status + HeaderBlock(headers)
  {
    var first, second := Call([status], None), Call(HeaderBuffers(headers), Some(External(owner)));
    CallsAppend(c.log, [first]);
    CallsOne(first);
    FlattenOne(status);
    CallsAppend(c.log + [first], [second]);
    CallsOne(second);
    HeaderBuffersFlatten(headers);
  }

  /** The header list of a reply is held, whatever happens next, until the batch that
      carries the header block has completed. */
  lemma {:induction false} ReplyHeadersHeld(
      c: Connection<char>, status: string, headers: seq<Header>, owner: int, events: seq<Event<char>>)
    requires Valid(c) && !WriteReply(c, status, headers, owner).threw
    requires Runs(WriteReply(c, status, headers, owner).state, events)
    ensures var d := Run(WriteReply(c, status, headers, owner).state, events);
            && |d.log| >= |c.log| + 2
            && Flatten(d.log[|c.log| + 1].buffers) == HeaderBlock(headers)
            && (d.released <= |c.log| + 1 ==> d.Holds(External(owner)))
  {
    hide Valid, HeaderBlock, HeaderBuffers;
    var first, second := Call([status], None), Call(HeaderBuffers(headers), Some(External(owner)));
    var b := HttpConnections.Write(c, first).state;
    WriteValid(c, first);
    assert |b.log| == |c.log| + 1;
    OwnerOutlivesItsBuffers(b, second, External(owner), events);
    HeaderBuffersFlatten(headers);
  }

  /** The headers of a stock reply. */
  function StockHeaders(content: string): seq<Header> {
    [Header("Content-Length", Decimal(|content|)), Header("Content-Type", "text/html")]
  }

  function StockReply(status: string, content: string): string {
    status + HeaderBlock(StockHeaders(content)) + content
  }

  /** A stock reply: the reply head and then the page. */
  method WriteStockReply(connection: HttpConnection<char>, status: string, content: string)
      returns (r: Exceptional<()>)
    requires connection.Consistent()
    modifies connection
    ensures connection.Consistent() && connection.readsRequested == old(connection.readsRequested)
    ensures r.Returned? ==>
              BytesOf(connection.log) == BytesOf(old(connection.log)) + StockReply(status, content)
  {
    ghost var c0 := connection.View();
    var builder := new ReplyBuilder(status, 0);
    builder.AddHeaders([Header("Content-Length", Decimal(|content|)), Header("Content-Type", "text/html")]);
    assert builder.headers == StockHeaders(content);
    r := builder.Write(connection);
    if r.Returned? {
      ghost var c1 := connection.View();
      r := connection.WriteContent(content);
      ReplyAndContentBytes(c0, c1, status, StockHeaders(content), content);
    }
  }

  lemma ReplyAndContentBytes(c: Connection<char>, d: Connection<char>, status: string, headers: seq<Header>, content: string)
    requires WriteReply(c, status, headers, 0) == Step(d, false)
    ensures var call := Call([content], Some(Allocated(|d.log|)));
            BytesOf(HttpConnections.Write(d, call).state.log)
            == BytesOf(c.log) + (status + HeaderBlock(headers) + content)
  {
    hide HeaderBlock, WriteReply;
    var call := Call([content], Some(Allocated(|d.log|)));
    ReplyBytes(c, status, headers, 0);
    CallsAppend(d.log, [call]);
    CallsOne(call);
    FlattenOne(content);
    AppendAssociative(BytesOf(c.log), status, HeaderBlock(headers));
    AppendAssociative(BytesOf(c.log), status + HeaderBlock(headers), content);
  }
}
