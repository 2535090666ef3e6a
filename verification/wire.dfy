/** The terminal operations of `HTTPResponse` (`end`, `chunked`,
    `writeChunk`, `flushChunks`, through `writeLine` and `writeHeaders`):
    what they put into the header map and the exact bytes they append to the
    channel. The channel is an append-only byte trace with an open flag; each
    write is taken to complete in one call. */
module Wire {
  import opened Base
  import opened Text
  import opened Split
  import opened HeaderMap
  import opened HttpResponse

  datatype Channel = Channel(out: seq<Byte>, open: bool)

  /** The response and channel after a call, and the exception it threw, if any. */
  datatype Outcome = Outcome(resp: Response, chan: Channel, thrown: Option<JavaError>)

  const ServerName: string := "Reactor NIO Server"

  /** `channel.write(buffer)`: a closed channel throws `ClosedChannelException`. */
  function Write(ch: Channel, bs: seq<Byte>): (r: Result<Channel>)
    ensures r.Success? <==> ch.open
    ensures r.Failure? ==> r.error == ClosedChannel
    ensures r.Success? ==> r.value.open && r.value.out == ch.out + bs
  {
    if ch.open then Success(Channel(ch.out + bs, true)) else Failure(ClosedChannel)
  }

  /** `channel.close()`. */
  function Close(ch: Channel): Channel {
    ch.(open := false)
  }

  /** `writeLine`: the line and a CRLF, encoded as UTF-8. */
  function WriteLine(ch: Channel, line: string): (r: Result<Channel>)
    ensures r.Success? <==> ch.open
    ensures r.Failure? ==> r.error == ClosedChannel
    ensures r.Success? ==> r.value.open && r.value.out == ch.out + Utf8(line) + [0x0D, 0x0A]
  {
    Utf8Append(line, CRLF);
    assert Utf8(CRLF) == [0x0D, 0x0A];
    Write(ch, Utf8(line + CRLF))
  }

  /** One header as `writeHeaders` prints it. */
  function HeaderLine(e: Entry): (l: string)
    ensures |l| == |e.key| + 2 + |e.value|
    ensures l[..|e.key|] == e.key && l[|e.key|..|e.key| + 2] == ": " && l[|e.key| + 2..] == e.value
  {
    e.key + ": " + e.value
  }

  function HeaderLineTexts(es: seq<Entry>): (ls: seq<string>)
    ensures |ls| == |es|
    ensures forall i :: 0 <= i < |es| ==> ls[i] == HeaderLine(es[i])
  {
    seq(|es|, i requires 0 <= i < |es| => HeaderLine(es[i]))
  }

  /** Every header line, each followed by CRLF, in map order. */
  function HeaderText(es: seq<Entry>): (t: string)
    ensures |t| == 0 <==> |es| == 0
    ensures |es| > 0 ==> |t| >= 4 && t[|t| - 2..] == CRLF
    decreases |es|
  {
    if |es| == 0 then "" else HeaderLine(es[0]) + CRLF + HeaderText(es[1..])
  }

  /** `writeHeaders`: one `writeLine` per entry, in iteration order. */
  function WriteHeaders(ch: Channel, es: seq<Entry>): (r: Result<Channel>)
    ensures r.Success? <==> ch.open || |es| == 0
    ensures r.Failure? ==> r.error == ClosedChannel
    ensures r.Success? ==> r.value == Channel(ch.out + Utf8(HeaderText(es)), ch.open)
    decreases |es|
  {
    if |es| == 0 then Success(ch)
    else
      var c :- WriteLine(ch, HeaderLine(es[0]));
      Utf8Append(HeaderLine(es[0]) + CRLF, HeaderText(es[1..]));
      WriteHeaders(c, es[1..])
  }

  /** The status line: version, decimal code and reason, space-separated. */
  function StatusLine(r: Response): (l: string)
    ensures |l| > |Version| + 1 + |r.responseReason|
    ensures l[..|Version| + 1] == Version + " "
    ensures l[|l| - |r.responseReason| - 1..] == " " + r.responseReason
    ensures l[|Version| + 1..|l| - |r.responseReason| - 1] == IntToString(r.responseCode)
  {
    Version + " " + IntToString(r.responseCode) + " " + r.responseReason
  }

  /** The text `end` writes before the body: status line, headers, blank line. */
  function EndHead(r: Response): (t: string)
    ensures t == ChunkedHead(r) + CRLF
  {
    StatusLine(r) + CRLF + HeaderText(r.headers) + CRLF
  }

  /** The text `chunked` writes: status line and headers, with no blank line. */
  function ChunkedHead(r: Response): (t: string)
    ensures |t| == |StatusLine(r)| + 2 + |HeaderText(r.headers)|
    ensures t[..|StatusLine(r)| + 2] == StatusLine(r) + CRLF
    ensures t[|StatusLine(r)| + 2..] == HeaderText(r.headers)
  {
    StatusLine(r) + CRLF + HeaderText(r.headers)
  }

  /** The bytes of the chunked head: status line, CRLF, then the header text. */
  lemma ChunkedHeadBytes(r: Response)
    ensures Utf8(ChunkedHead(r)) == Utf8(StatusLine(r)) + [0x0D, 0x0A] + Utf8(HeaderText(r.headers))
  {
    Utf8Append(StatusLine(r) + CRLF, HeaderText(r.headers));
    Utf8Append(StatusLine(r), CRLF);
    assert Utf8(CRLF) == [0x0D, 0x0A];
  }

  /** On an open channel, the status line and then the headers put the chunked head on the wire. */
  lemma ChunkedHeadWrites(ch: Channel, r: Response)
    requires ch.open
    ensures WriteHeaders(WriteLine(ch, StatusLine(r)).value, r.headers) == Success(Channel(ch.out + Utf8(ChunkedHead(r)), true))
  {
    var c1 := WriteLine(ch, StatusLine(r)).value;
    assert c1.out + Utf8(HeaderText(r.headers)) == ch.out + Utf8(ChunkedHead(r)) by {
      ChunkedHeadBytes(r);
    }
  }

  /** The writes of `chunked` after the puts: status line and headers only. */
  function WriteChunkedHead(ch: Channel, r: Response): (res: Result<Channel>)
    ensures res.Success? <==> ch.open
    ensures res.Failure? ==> res.error == ClosedChannel
    ensures res.Success? ==> res.value == Channel(ch.out + Utf8(ChunkedHead(r)), true)
  {
    var c1 :- WriteLine(ch, StatusLine(r));
    ChunkedHeadWrites(ch, r);
    WriteHeaders(c1, r.headers)
  }

  /** The bytes of the end head: the chunked head, then one more CRLF. */
  lemma EndHeadBytes(r: Response)
    ensures Utf8(EndHead(r)) == Utf8(ChunkedHead(r)) + [0x0D, 0x0A]
  {
    Utf8Append(ChunkedHead(r), CRLF);
    assert Utf8(CRLF) == [0x0D, 0x0A];
  }

  /** On an open channel, the chunked head, a blank line and the body put the end head and the body on the wire. */
  lemma EndHeadWrites(ch: Channel, r: Response, body: seq<Byte>)
    requires ch.open
    ensures Write(WriteLine(WriteChunkedHead(ch, r).value, "").value, body) == Success(Channel(ch.out + Utf8(EndHead(r)) + body, true))
  {
    var head := Utf8(ChunkedHead(r));
    var c2 := WriteChunkedHead(ch, r).value;
    assert c2.out == ch.out + head;
    var c3 := WriteLine(c2, "").value;
    assert c3.out == ch.out + head + [0x0D, 0x0A] by {
      assert Utf8("") == [];
    }
    EndHeadBytes(r);
    assert c3.out == ch.out + Utf8(EndHead(r));
  }

  /** The writes of `end` after the puts: status line, headers, blank line, body. */
  function WriteEndHead(ch: Channel, r: Response, body: seq<Byte>): (res: Result<Channel>)
    ensures res.Success? <==> ch.open
    ensures res.Failure? ==> res.error == ClosedChannel
    ensures res.Success? ==> res.value == Channel(ch.out + Utf8(EndHead(r)) + body, true)
  {
    var c2 :- WriteChunkedHead(ch, r);
    EndHeadWrites(ch, r, body);
    Write(WriteLine(c2, "").value, body)
  }

  /** The three puts `end` and `chunked` share, and the fourth that differs. */
  function StampHeaders(r: Response, date: string, last: string, lastValue: string): (r': Response)
    requires last != "Date" && last != "Server"
    ensures Get(r'.headers, "Date") == Some(date)
    ensures Get(r'.headers, "Server") == Some(ServerName)
    ensures Get(r'.headers, last) == Some(lastValue)
    ensures forall k :: k != "Date" && k != "Server" && k != last ==> Get(r'.headers, k) == Get(r.headers, k)
    ensures Keys(r.headers) <= Keys(r'.headers)
    ensures Keys(r'.headers) == Added(Added(Added(Keys(r.headers), "Date"), "Server"), last)
    ensures DistinctKeys(r.headers) ==> DistinctKeys(r'.headers)
    ensures r'.responseCode == r.responseCode && r'.responseReason == r.responseReason && r'.raw == r.raw
  {
    assert "Date"[0] != "Server"[0];
    var r1 := Header(r, "Date", date);
    var r2 := Header(r1, "Server", ServerName);
    var r3 := Header(r2, last, lastValue);
    KeysPrefixTransitive(Keys(r.headers), Keys(r1.headers), Keys(r2.headers));
    KeysPrefixTransitive(Keys(r.headers), Keys(r2.headers), Keys(r3.headers));
    r3
  }

  /** The part of `end` after the last put: the head and the body go out
      and the channel is closed. */
  function SendWhole(r: Response, ch: Channel, body: seq<Byte>): (o: Outcome)
    ensures o.resp == r
    ensures o.thrown.None? <==> ch.open
    ensures !ch.open ==> o.thrown == Some(ClosedChannel) && o.chan == ch
    ensures ch.open ==> o.chan == Channel(ch.out + Utf8(EndHead(r)) + body, false)
  {
    match WriteEndHead(ch, r, body)
    case Failure(e) => Outcome(r, ch, Some(e))
    case Success(c) => Outcome(r, Close(c), None)
  }

  /** `Content-Length` is none of the names the shared puts write. */
  lemma LengthIsNotStamped()
    ensures "Content-Length" != "Date" && "Content-Length" != "Server" && "Content-Length" != "Connection"
  {
    assert "Content-Length"[3] != "Connection"[3];
  }

  /** The four puts of `end` when the body is set. */
  lemma EndHeaders(r: Response, date: string, n: nat)
    ensures var r' := Header(StampHeaders(r, date, "Connection", "close"), "Content-Length", Digits(n));
      && Get(r'.headers, "Date") == Some(date)
      && Get(r'.headers, "Server") == Some(ServerName)
      && Get(r'.headers, "Connection") == Some("close")
      && Get(r'.headers, "Content-Length") == Some(Digits(n))
      && (forall k :: k != "Date" && k != "Server" && k != "Connection" && k != "Content-Length" ==>
            Get(r'.headers, k) == Get(r.headers, k))
      && Keys(r'.headers) == Added(Added(Added(Added(Keys(r.headers), "Date"), "Server"), "Connection"), "Content-Length")
      && Keys(r.headers) <= Keys(r'.headers)
      && (DistinctKeys(r.headers) ==> DistinctKeys(r'.headers))
      && r'.responseCode == r.responseCode && r'.responseReason == r.responseReason && r'.raw == r.raw
  {
    var stamped := StampHeaders(r, date, "Connection", "close");
    var r' := Header(stamped, "Content-Length", Digits(n));
    LengthIsNotStamped();
    KeysPrefixTransitive(Keys(r.headers), Keys(stamped.headers), Keys(r'.headers));
  }

  /** `end()`. The first three puts always happen. With a null body the call
      then throws at `raw.length`, before the fourth put and before any write.
      Otherwise the map gains `Content-Length` (the decimal body length), the
      head and the body go out, and the channel is closed. */
  function End(r: Response, ch: Channel, date: string): (o: Outcome)
    ensures o.thrown.None? <==> r.raw.Some? && ch.open
    ensures r.raw.None? ==> o.thrown == Some(NullPointer) && o.chan == ch
    ensures r.raw.Some? && !ch.open ==> o.thrown == Some(ClosedChannel) && o.chan == ch
    ensures o.thrown.None? ==> !o.chan.open && o.chan.out == ch.out + Utf8(EndHead(o.resp)) + r.raw.value
    ensures Get(o.resp.headers, "Date") == Some(date)
    ensures Get(o.resp.headers, "Server") == Some(ServerName)
    ensures Get(o.resp.headers, "Connection") == Some("close")
    ensures r.raw.Some? ==> Get(o.resp.headers, "Content-Length") == Some(Digits(|r.raw.value|))
    ensures r.raw.None? ==> Get(o.resp.headers, "Content-Length") == Get(r.headers, "Content-Length")
    ensures forall k :: k != "Date" && k != "Server" && k != "Connection" && k != "Content-Length" ==>
      Get(o.resp.headers, k) == Get(r.headers, k)
    ensures var stamped := Added(Added(Added(Keys(r.headers), "Date"), "Server"), "Connection");
      Keys(o.resp.headers) == if r.raw.Some? then Added(stamped, "Content-Length") else stamped
    ensures Keys(r.headers) <= Keys(o.resp.headers)
    ensures DistinctKeys(r.headers) ==> DistinctKeys(o.resp.headers)
    ensures o.resp.responseCode == r.responseCode && o.resp.responseReason == r.responseReason && o.resp.raw == r.raw
  {
    var stamped := StampHeaders(r, date, "Connection", "close");
    match r.raw
    case None =>
      LengthIsNotStamped();
      assert Get(stamped.headers, "Content-Length") == Get(r.headers, "Content-Length");
      Outcome(stamped, ch, Some(NullPointer))
    case Some(body) =>
      EndHeaders(r, date, |body|);
      SendWhole(Header(stamped, "Content-Length", Digits(|body|)), ch, body)
  }

  /** `chunked()`: puts `Date`, `Server` and `Transfer-Encoding: chunked`,
      writes the status line and the headers, and leaves the channel open.
      No blank line follows the headers. */
  function Chunked(r: Response, ch: Channel, date: string): (o: Outcome)
    ensures o.thrown.None? <==> ch.open
    ensures !ch.open ==> o.thrown == Some(ClosedChannel) && o.chan == ch
    ensures o.thrown.None? ==> o.chan.open && o.chan.out == ch.out + Utf8(ChunkedHead(o.resp))
    ensures Get(o.resp.headers, "Transfer-Encoding") == Some("chunked")
    ensures Get(o.resp.headers, "Date") == Some(date)
    ensures Get(o.resp.headers, "Server") == Some(ServerName)
    ensures forall k :: k != "Date" && k != "Server" && k != "Transfer-Encoding" ==>
      Get(o.resp.headers, k) == Get(r.headers, k)
    ensures Keys(r.headers) <= Keys(o.resp.headers)
    ensures Keys(o.resp.headers) == Added(Added(Added(Keys(r.headers), "Date"), "Server"), "Transfer-Encoding")
    ensures DistinctKeys(r.headers) ==> DistinctKeys(o.resp.headers)
    ensures o.resp.responseCode == r.responseCode && o.resp.responseReason == r.responseReason && o.resp.raw == r.raw
  {
    var r' := StampHeaders(r, date, "Transfer-Encoding", "chunked");
    match WriteChunkedHead(ch, r')
    case Failure(e) => Outcome(r', ch, Some(e))
    case Success(c) => Outcome(r', c, None)
  }

  /** `writeChunk(content)`: the bytes go to the channel raw, with no chunk-size
      framing, and only then `append` runs, so they are on the wire even when
      `append` throws. */
  function WriteChunk(r: Response, ch: Channel, content: seq<Byte>): (o: Outcome)
    ensures !ch.open ==> o == Outcome(r, ch, Some(ClosedChannel))
    ensures ch.open ==> o.chan == Channel(ch.out + content, true)
    ensures ch.open ==> (o.thrown.None? <==> r.raw.Some? && |r.raw.value| == 0 && |content| <= MaxInt)
    ensures ch.open && r.raw.None? ==> o.thrown == Some(NullPointer) && o.resp == r
    ensures o.thrown.None? ==> o.resp == r.(raw := Some(Zeros(|content|)))
    ensures o.thrown.Some? ==> o.resp == r
    ensures ch.open && r.raw.Some? && |r.raw.value| > 0 && |r.raw.value| + |content| <= MaxInt ==>
      o.thrown == Some(ArrayIndexOutOfBounds)
    ensures ch.open && r.raw.Some? && |r.raw.value| + |content| > MaxInt ==> o.thrown == Some(NegativeArraySize)
  {
    match Write(ch, content)
    case Failure(e) => Outcome(r, ch, Some(e))
    case Success(c) =>
      match Append(r, content)
      case Failure(e) => Outcome(r, c, Some(e))
      case Success(r') => Outcome(r', c, None)
  }

  /** `flushChunks()`: one `Content-Length` line with the body length, then
      close. A null body throws before anything is written. */
  function FlushChunks(r: Response, ch: Channel): (o: Outcome)
    ensures o.resp == r
    ensures r.raw.None? ==> o == Outcome(r, ch, Some(NullPointer))
    ensures r.raw.Some? && !ch.open ==> o == Outcome(r, ch, Some(ClosedChannel))
    ensures r.raw.Some? && ch.open ==>
      o.thrown.None? && o.chan == Channel(ch.out + Utf8("Content-Length: " + Digits(|r.raw.value|) + CRLF), false)
  {
    match r.raw
    case None => Outcome(r, ch, Some(NullPointer))
    case Some(body) =>
      match WriteLine(ch, "Content-Length: " + Digits(|body|))
      case Failure(e) => Outcome(r, ch, Some(e))
      case Success(c) => Outcome(r, Close(c), None)
  }

  /** No carriage return in a header's key or value (nothing a client could
      mistake for a line break). */
  predicate PlainHeaders(es: seq<Entry>) {
    forall i :: 0 <= i < |es| ==> '\r' !in es[i].key && '\r' !in es[i].value
  }

  lemma NoCrNoCrlf(s: string)
    requires '\r' !in s
    ensures NoCrlf(s)
  {
    forall i | 0 <= i < |s| ensures !CrlfAt(s, i) {
      assert s[i] in s;
    }
  }

  /** The status line and header lines hold no separator of their own. */
  lemma HeadPiecesHaveNoCrlf(r: Response)
    requires '\r' !in r.responseReason && PlainHeaders(r.headers)
    ensures NoCrlf(StatusLine(r))
    ensures AllNoCrlf(HeaderLineTexts(r.headers))
  {
    var code := IntToString(r.responseCode);
    forall i | 0 <= i < |code| ensures code[i] != '\r' {
      if r.responseCode < 0 && i > 0 {
        assert code[i] == code[1..][i - 1];
      }
    }
    NoCrNoCrlf(StatusLine(r));
    forall i | 0 <= i < |r.headers| ensures NoCrlf(HeaderLineTexts(r.headers)[i]) {
      NoCrNoCrlf(HeaderLine(r.headers[i]));
    }
  }

  /** A prefix line, then the header lines, each ended by CRLF, form the
      pieces `[p] + header lines + [""]` joined by CRLF. */
  lemma {:induction false} HeadIsJoin(p: string, es: seq<Entry>)
    ensures p + CRLF + HeaderText(es) == Join([p] + HeaderLineTexts(es) + [""])
    decreases |es|
  {
    var ps := [p] + HeaderLineTexts(es) + [""];
    if |es| == 0 {
      assert ps == [p, ""];
      assert Join(ps[1..]) == "";
    } else {
      var h := HeaderLine(es[0]);
      HeadIsJoin(h, es[1..]);
      assert ps[1..] == [h] + HeaderLineTexts(es[1..]) + [""];
    }
  }

  /** One more empty piece puts one more CRLF at the end. */
  lemma {:induction false} JoinBlank(ps: seq<string>)
    requires |ps| >= 1
    ensures Join(ps + [""]) == Join(ps) + CRLF
    decreases |ps|
  {
    if |ps| == 1 {
      assert ps + [""] == [ps[0], ""];
      assert Join([""]) == "";
    } else {
      JoinBlank(ps[1..]);
      assert (ps + [""])[1..] == ps[1..] + [""];
    }
  }

  /** The lines of the head `end` writes, as a reader splitting at CRLF sees
      them: the status line, one non-empty line per header, then the single
      blank line that ends the head (the final piece is the empty rest). */
  lemma EndHeadLines(r: Response)
    requires '\r' !in r.responseReason && PlainHeaders(r.headers)
    ensures SplitCrlf(EndHead(r)) == [StatusLine(r)] + HeaderLineTexts(r.headers) + ["", ""]
    ensures forall k :: 0 <= k < |SplitCrlf(EndHead(r))| - 2 ==> SplitCrlf(EndHead(r))[k] != ""
  {
    var ls := [StatusLine(r)] + HeaderLineTexts(r.headers);
    HeadPiecesHaveNoCrlf(r);
    HeadIsJoin(StatusLine(r), r.headers);
    JoinBlank(ls + [""]);
    assert ls + [""] + [""] == ls + ["", ""];
    var ps := ls + ["", ""];
    assert AllNoCrlf([StatusLine(r)]) && AllNoCrlf(["", ""]);
    AllNoCrlfConcat([StatusLine(r)], HeaderLineTexts(r.headers));
    AllNoCrlfConcat(ls, ["", ""]);
    SplitJoin(ps);
    forall k | 0 <= k < |ps| - 2 ensures ps[k] != "" {
      if k > 0 {
        assert ps[k] == HeaderLine(r.headers[k - 1]);
        assert |HeaderLine(r.headers[k - 1])| >= 2;
      }
    }
  }

  /** The lines of the head `chunked` writes: the status line and the header
      lines, and no blank line at all, so a reader is still inside the head
      when the first chunk arrives. */
  lemma ChunkedHeadLines(r: Response)
    requires '\r' !in r.responseReason && PlainHeaders(r.headers)
    ensures SplitCrlf(ChunkedHead(r)) == [StatusLine(r)] + HeaderLineTexts(r.headers) + [""]
    ensures forall k :: 0 <= k < |SplitCrlf(ChunkedHead(r))| - 1 ==> SplitCrlf(ChunkedHead(r))[k] != ""
  {
    var ps := [StatusLine(r)] + HeaderLineTexts(r.headers) + [""];
    HeadPiecesHaveNoCrlf(r);
    HeadIsJoin(StatusLine(r), r.headers);
    assert AllNoCrlf([StatusLine(r)]) && AllNoCrlf([""]);
    AllNoCrlfConcat([StatusLine(r)], HeaderLineTexts(r.headers));
    AllNoCrlfConcat([StatusLine(r)] + HeaderLineTexts(r.headers), [""]);
    SplitJoin(ps);
    forall k | 0 <= k < |ps| - 1 ensures ps[k] != "" {
      if k > 0 {
        assert ps[k] == HeaderLine(r.headers[k - 1]);
        assert |HeaderLine(r.headers[k - 1])| >= 2;
      }
    }
  }

  /** The `Content-Length` that `end` sends reads back as the body length. */
  lemma EndContentLength(r: Response, ch: Channel, date: string)
    requires r.raw.Some?
    ensures Get(End(r, ch, date).resp.headers, "Content-Length").Some?
    ensures var v := Get(End(r, ch, date).resp.headers, "Content-Length").value;
      IsDecimal(v) && DecimalValue(v) == |r.raw.value|
  {
    DigitsRoundTrip(|r.raw.value|);
  }

  /** Streaming one chunk after `content("")`: the head, the chunk's bytes as
      they are, and a trailing `Content-Length` line with the chunk's length;
      then the channel is closed. */
  lemma ChunkedSession(r: Response, ch: Channel, date: string, a: seq<Byte>)
    requires r.raw == Some([]) && ch.open && |a| <= MaxInt
    ensures
      var o1 := Chunked(r, ch, date);
      var o2 := WriteChunk(o1.resp, o1.chan, a);
      var o3 := FlushChunks(o2.resp, o2.chan);
      && o3.thrown.None?
      && !o3.chan.open
      && o3.chan.out == ch.out + Utf8(ChunkedHead(o1.resp)) + a + Utf8("Content-Length: " + Digits(|a|) + CRLF)
  {
    var o1 := Chunked(r, ch, date);
    var head := ch.out + Utf8(ChunkedHead(o1.resp));
    assert o1.chan == Channel(head, true) && o1.resp.raw == Some([]);
    var o2 := WriteChunk(o1.resp, o1.chan, a);
    assert o2.chan == Channel(head + a, true) && o2.resp.raw == Some(Zeros(|a|));
  }

  /** A second chunk after a non-empty first one: both are on the wire, but
      `append` throws, so the flush never runs and the channel stays open. */
  lemma SecondChunkThrows(r: Response, ch: Channel, date: string, a: seq<Byte>, b: seq<Byte>)
    requires r.raw == Some([]) && ch.open && 0 < |a| && |a| + |b| <= MaxInt
    ensures
      var o1 := Chunked(r, ch, date);
      var o2 := WriteChunk(o1.resp, o1.chan, a);
      var o3 := WriteChunk(o2.resp, o2.chan, b);
      && o2.thrown.None?
      && o3.thrown == Some(ArrayIndexOutOfBounds)
      && o3.chan == Channel(ch.out + Utf8(ChunkedHead(o1.resp)) + a + b, true)
  {
    var o1 := Chunked(r, ch, date);
    ChunksAfterEmptyBody(o1.resp, o1.chan, a, b);
  }

  /** On an empty body, a non-empty chunk is written and leaves zeros, so the
      next chunk is written and then throws. */
  lemma ChunksAfterEmptyBody(r: Response, ch: Channel, a: seq<Byte>, b: seq<Byte>)
    requires r.raw == Some([]) && ch.open && 0 < |a| && |a| + |b| <= MaxInt
    ensures
      var o2 := WriteChunk(r, ch, a);
      var o3 := WriteChunk(o2.resp, o2.chan, b);
      && o2.thrown.None?
      && o3.thrown == Some(ArrayIndexOutOfBounds)
      && o3.chan == Channel(ch.out + a + b, true)
  {
    var o2 := WriteChunk(r, ch, a);
    assert o2.chan == Channel(ch.out + a, true) && o2.resp.raw == Some(Zeros(|a|));
  }

  /** `writeChunk` over the intended `append`. */
  function WriteChunkIntended(r: Response, ch: Channel, content: seq<Byte>): (o: Outcome)
    ensures !ch.open ==> o == Outcome(r, ch, Some(ClosedChannel))
    ensures ch.open ==> o.chan == Channel(ch.out + content, true)
    ensures ch.open ==> (o.thrown.None? <==> r.raw.Some? && |r.raw.value| + |content| <= MaxInt)
    ensures o.thrown.None? ==> o.resp == r.(raw := Some(r.raw.value + content))
  {
    match Write(ch, content)
    case Failure(e) => Outcome(r, ch, Some(e))
    case Success(c) =>
      match AppendIntended(r, content)
      case Failure(e) => Outcome(r, c, Some(e))
      case Success(r') => Outcome(r', c, None)
  }

  /** Two intended chunks and the flush, on an open channel and an empty body. */
  lemma IntendedChunksFlushed(r: Response, ch: Channel, a: seq<Byte>, b: seq<Byte>)
    requires r.raw == Some([]) && ch.open && |a| + |b| <= MaxInt
    ensures
      var o2 := WriteChunkIntended(r, ch, a);
      var o3 := WriteChunkIntended(o2.resp, o2.chan, b);
      var o4 := FlushChunks(o3.resp, o3.chan);
      && o4.thrown.None?
      && !o4.chan.open
      && o4.chan.out == ch.out + a + b + Utf8("Content-Length: " + Digits(|a| + |b|) + CRLF)
  {
    var o2 := WriteChunkIntended(r, ch, a);
    assert [] + a == a;
    assert o2.thrown.None? && o2.resp.raw == Some(a) && o2.chan == Channel(ch.out + a, true);
    var o3 := WriteChunkIntended(o2.resp, o2.chan, b);
    assert o3.thrown.None? && o3.resp.raw == Some(a + b) && o3.chan == Channel(ch.out + a + b, true);
    assert |o3.resp.raw.value| == |a| + |b|;
    var o4 := FlushChunks(o3.resp, o3.chan);
    var tail := Utf8("Content-Length: " + Digits(|a| + |b|) + CRLF);
    assert o4.thrown.None? && o4.chan == Channel(o3.chan.out + tail, false);
  }

  /** Streaming without `content` first: the body is still null, so the first
      chunk goes out and then `append` throws `NullPointerException`; the
      channel stays open and `flushChunks` is never reached. */
  lemma FirstChunkWithoutContent(ch: Channel, date: string, a: seq<Byte>)
    requires ch.open
    ensures
      var o1 := Chunked(Fresh(), ch, date);
      var o2 := WriteChunk(o1.resp, o1.chan, a);
      && o2.thrown == Some(NullPointer)
      && o2.chan == Channel(ch.out + Utf8(ChunkedHead(o1.resp)) + a, true)
  {
  }

  /** With the intended `append`, two chunks after `content("")` go out in
      order and the trailing line reports their combined length. */
  lemma TwoChunkSessionIntended(r: Response, ch: Channel, date: string, a: seq<Byte>, b: seq<Byte>)
    requires r.raw == Some([]) && ch.open && |a| + |b| <= MaxInt
    ensures
      var o1 := Chunked(r, ch, date);
      var o2 := WriteChunkIntended(o1.resp, o1.chan, a);
      var o3 := WriteChunkIntended(o2.resp, o2.chan, b);
      var o4 := FlushChunks(o3.resp, o3.chan);
      && o4.thrown.None?
      && !o4.chan.open
      && o4.chan.out == ch.out + Utf8(ChunkedHead(o1.resp)) + a + b + Utf8("Content-Length: " + Digits(|a| + |b|) + CRLF)
  {
    var o1 := Chunked(r, ch, date);
    IntendedChunksFlushed(o1.resp, o1.chan, a, b);
  }
}
