/** One readable-channel event as the `channelhandler` consumer processes it:
    read at most one buffer from the socket, keep its whole lines, build the
    request, and hand it to the application handler with a fresh response.
    Also `DemoHandler`, the application the server ships with. */
module Server {
  import opened Base
  import opened Text
  import opened LineFilter
  import opened Tokenizer
  import opened HeaderMap
  import opened HttpRequest
  import opened HttpResponse
  import opened Wire

  /** `ByteBuffer.allocate(2048)`: one read never yields more. */
  const BufferCapacity: nat := 2048

  /** What `channel.read(buffer)` gives: -1 at end of stream, or the bytes read. */
  datatype ReadResult = EndOfStream | Data(bytes: seq<Byte>)

  /** How one event ends: nothing done for a closed channel, an exception
      out of reading or parsing (the channel untouched), or the handler's
      result. */
  datatype Dispatch = Skipped | Failed(error: JavaError) | Handled(outcome: Outcome)

  /** `new HTTPRequest(read(toBuffer(channel)))`. */
  function Receive(input: ReadResult): (r: Result<Request>)
    requires input.Data? ==> |input.bytes| <= BufferCapacity
    ensures input.EndOfStream? ==> r == Failure(StreamEnded)
    ensures input.Data? && 0x0A !in input.bytes ==> r == Failure(NoSuchElement)
    ensures input.Data? ==> r == Parse(WholeLines(Chars(input.bytes)))
  {
    match input
    case EndOfStream => Failure(StreamEnded)
    case Data(bs) =>
      if 0x0A !in bs then
        WholeLinesLongest(Chars(bs));
        assert '\n' !in Chars(bs) by {
          forall i | 0 <= i < |bs| ensures Chars(bs)[i] != '\n' {
            assert bs[i] in bs;
          }
        }
        assert NextToken("", 0).Failure?;
        Parse(WholeLines(Chars(bs)))
      else
        Parse(WholeLines(Chars(bs)))
  }

  /** The bytes after the last line feed of a read are discarded: a request
      whose final line has not fully arrived parses as if that line were not
      there at all. */
  lemma ReceiveIgnoresPartialLine(a: seq<Byte>, b: seq<Byte>)
    requires |a| + |b| <= BufferCapacity
    requires |a| == 0 || a[|a| - 1] == 0x0A
    requires 0x0A !in b
    ensures Receive(Data(a + b)) == Receive(Data(a))
  {
    assert Chars(a + b) == Chars(a) + Chars(b);
    assert '\n' !in Chars(b) by {
      forall i | 0 <= i < |b| ensures Chars(b)[i] != '\n' {
        assert b[i] in b;
      }
    }
    WholeLinesDropsTail(Chars(a), Chars(b));
    WholeLinesDropsTail(Chars(a), []);
    assert Chars(a) + [] == Chars(a);
  }

  /** The `channelhandler` consumer: a closed channel is skipped, a failure
      to read or parse propagates before the handler runs, and otherwise the
      handler gets the request and a fresh response on this channel. */
  function OnReadable(handler: (Request, Response, Channel) -> Outcome, input: ReadResult, ch: Channel): (d: Dispatch)
    requires input.Data? ==> |input.bytes| <= BufferCapacity
    ensures !ch.open <==> d.Skipped?
    ensures ch.open && input.EndOfStream? ==> d == Failed(StreamEnded)
    ensures ch.open && input.Data? && 0x0A !in input.bytes ==> d == Failed(NoSuchElement)
    ensures d.Handled? ==> Receive(input).Success? && d.outcome == handler(Receive(input).value, Fresh(), ch)
    ensures ch.open && Receive(input).Success? ==> d == Handled(handler(Receive(input).value, Fresh(), ch))
    ensures ch.open && Receive(input).Failure? ==> d == Failed(Receive(input).error)
  {
    if !ch.open then Skipped
    else
      match Receive(input)
      case Failure(e) => Failed(e)
      case Success(req) => Handled(handler(req, Fresh(), ch))
  }

  const Greeting: string := "Hello Reactor!"

  /** The body of `DemoHandler.handle`: `response.content("Hello Reactor!").end()`. */
  function DemoReply(resp: Response, ch: Channel, date: string): (o: Outcome)
    ensures o.thrown.None? <==> ch.open
    ensures !ch.open ==> o.thrown == Some(ClosedChannel) && o.chan == ch
    ensures !o.chan.open
    ensures o.resp.raw == Some(Utf8(Greeting))
    ensures Get(o.resp.headers, "Connection") == Some("close")
  {
    End(Content(resp, Greeting), ch, date)
  }

  /** `DemoHandler` as a handler: the request is not looked at. */
  function DemoHandle(date: string): (h: (Request, Response, Channel) -> Outcome)
    ensures forall req, resp, ch :: h(req, resp, ch) == DemoReply(resp, ch, date)
  {
    (req: Request, resp: Response, ch: Channel) => DemoReply(resp, ch, date)
  }

  lemma GreetingBytes()
    ensures |Utf8(Greeting)| == 14
  {
    Utf8Ascii(Greeting);
  }

  /** The four puts of `end` on an empty map, in order. */
  lemma EndHeadersOnEmpty(date: string, length: string)
    ensures Put(Put(Put(Put([], "Date", date), "Server", ServerName), "Connection", "close"), "Content-Length", length)
      == [Entry("Date", date), Entry("Server", ServerName), Entry("Connection", "close"), Entry("Content-Length", length)]
  {
    var e1 := [Entry("Date", date)];
    var e2 := e1 + [Entry("Server", ServerName)];
    var e3 := e2 + [Entry("Connection", "close")];
    assert Put([], "Date", date) == e1;
    assert e1[0].key[0] != ServerName[0];
    assert Put(e1, "Server", ServerName) == e2;
    assert e2[0].key[0] != 'C' && e2[1].key[0] != 'C';
    assert Put(e2, "Connection", "close") == e3;
    assert e3[2].key[3] != "Content-Length"[3];
    assert Put(e3, "Content-Length", length) == e3 + [Entry("Content-Length", length)];
  }

  lemma EndHeadersOf(r: Response, ch: Channel, date: string)
    requires r.raw.Some? && |r.raw.value| == 14 && r.headers == []
    ensures End(r, ch, date).resp.headers
      == [Entry("Date", date), Entry("Server", ServerName), Entry("Connection", "close"), Entry("Content-Length", "14")]
  {
    assert Digits(1) == "1" && Digits(14) == "14";
    EndHeadersOnEmpty(date, "14");
  }

  lemma DemoHeaderList(date: string)
    ensures var es := [Entry("Date", date), Entry("Server", ServerName), Entry("Connection", "close"), Entry("Content-Length", "14")];
      Keys(es) == ["Date", "Server", "Connection", "Content-Length"] && Get(es, "Content-Length") == Some("14")
  {
    var es := [Entry("Date", date), Entry("Server", ServerName), Entry("Connection", "close"), Entry("Content-Length", "14")];
    FindIs(es, "Content-Length", 3);
  }

  /** `end` on a response whose only change since construction is a
      fourteen-byte body. */
  lemma EndOfFourteenBytes(r: Response, ch: Channel, date: string)
    requires ch.open && r.raw.Some? && |r.raw.value| == 14
    requires r.responseCode == 200 && r.responseReason == "OK" && r.headers == []
    ensures var o := End(r, ch, date);
      && o.thrown.None?
      && !o.chan.open
      && StatusLine(o.resp) == "HTTP/1.1 200 OK"
      && Keys(o.resp.headers) == ["Date", "Server", "Connection", "Content-Length"]
      && Get(o.resp.headers, "Content-Length") == Some("14")
      && o.chan.out == ch.out + Utf8(EndHead(o.resp)) + r.raw.value
  {
    assert StatusLine(r) == "HTTP/1.1 200 OK" by {
      assert Digits(2) == "2" && Digits(20) == "20" && Digits(200) == "200";
    }
    EndHeadersOf(r, ch, date);
    DemoHeaderList(date);
  }

  /** What the demo sends on an open channel: `200 OK`, the four headers
      `end` adds in the order it adds them, `Content-Length: 14`, then the
      fourteen greeting bytes; the channel ends closed. */
  lemma DemoResponse(ch: Channel, date: string)
    requires ch.open
    ensures var o := End(Content(Fresh(), Greeting), ch, date);
      && o.thrown.None?
      && !o.chan.open
      && StatusLine(o.resp) == "HTTP/1.1 200 OK"
      && Keys(o.resp.headers) == ["Date", "Server", "Connection", "Content-Length"]
      && Get(o.resp.headers, "Content-Length") == Some("14")
      && o.chan.out == ch.out + Utf8(EndHead(o.resp)) + Utf8(Greeting)
  {
    GreetingBytes();
    EndOfFourteenBytes(Content(Fresh(), Greeting), ch, date);
  }

  /** The demo handler's answer to any request on a fresh response: the same
      bytes as `DemoResponse`, whatever the request holds. */
  lemma DemoAnswer(date: string, req: Request, ch: Channel)
    requires ch.open
    ensures var o := DemoHandle(date)(req, Fresh(), ch);
      && o.thrown.None?
      && !o.chan.open
      && StatusLine(o.resp) == "HTTP/1.1 200 OK"
      && Keys(o.resp.headers) == ["Date", "Server", "Connection", "Content-Length"]
      && Get(o.resp.headers, "Content-Length") == Some("14")
      && o.chan.out == ch.out + Utf8(EndHead(o.resp)) + Utf8(Greeting)
  {
    DemoResponse(ch, date);
  }

  /** The GET example, sent as bytes and read in one piece, gives the request
      it spells. */
  lemma ReceiveGetExample()
    ensures |Utf8(GetExample)| <= BufferCapacity
    ensures Receive(Data(Utf8(GetExample))) == Success(Request("GET", "/", "HTTP/1.1", map["Host" := " x"]))
  {
    assert IsAscii(GetExample);
    assert GetExample[|GetExample| - 1] == '\n';
    ReceiveAscii(GetExample);
    ParseGetExample();
  }

  /** ASCII text that ends in a line feed, sent as bytes and read in one
      piece, is parsed as it was sent. */
  lemma ReceiveAscii(s: string)
    requires IsAscii(s) && |s| <= BufferCapacity
    requires |s| > 0 && s[|s| - 1] == '\n'
    ensures |Utf8(s)| <= BufferCapacity
    ensures Receive(Data(Utf8(s))) == Parse(s)
  {
    Utf8Ascii(s);
    CharsOfAscii(s);
  }

  /** The GET example read in one piece from an open channel reaches the demo
      handler, which answers as `DemoResponse` describes. */
  lemma DemoExchange(ch: Channel, date: string)
    requires ch.open
    ensures |Utf8(GetExample)| <= BufferCapacity
    ensures OnReadable(DemoHandle(date), Data(Utf8(GetExample)), ch) == Handled(End(Content(Fresh(), Greeting), ch, date))
  {
    ReceiveGetExample();
  }
}
