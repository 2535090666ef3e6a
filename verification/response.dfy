/** The state of an `HTTPResponse` and its chaining mutators `code`,
    `reason`, `content`, `header` and `append`. The mutators do no output;
    each returns the changed state (Java returns `this`). */
module HttpResponse {
  import opened Base
  import opened Text
  import opened HeaderMap

  const Version: string := "HTTP/1.1"

  /** `raw` is the body, `None` while it is still Java's `null`. */
  datatype Response = Response(
    responseCode: Int32,
    responseReason: string,
    raw: Option<seq<Byte>>,
    headers: seq<Entry>)

  /** A response as `new HTTPResponse(channel)` creates it. */
  function Fresh(): (r: Response)
    ensures r.responseCode == 200 && r.responseReason == "OK"
    ensures r.raw.None? && r.headers == []
  {
    Response(200, "OK", None, [])
  }

  /** `code(n)`: only the status code changes. */
  function Code(r: Response, n: Int32): (r': Response)
    ensures r'.responseCode == n
    ensures r'.responseReason == r.responseReason && r'.raw == r.raw && r'.headers == r.headers
  {
    r.(responseCode := n)
  }

  /** `reason(s)`: only the reason phrase changes. */
  function Reason(r: Response, s: string): (r': Response)
    ensures r'.responseReason == s
    ensures r'.responseCode == r.responseCode && r'.raw == r.raw && r'.headers == r.headers
  {
    r.(responseReason := s)
  }

  /** `content(s)`: the body becomes the encoded text, replacing whatever was there. */
  function Content(r: Response, s: string): (r': Response)
    ensures r'.raw == Some(Utf8(s))
    ensures r'.responseCode == r.responseCode && r'.responseReason == r.responseReason && r'.headers == r.headers
  {
    r.(raw := Some(Utf8(s)))
  }

  /** `header(k, v)`: a `put` on the ordered map; nothing else changes. */
  function Header(r: Response, k: string, v: string): (r': Response)
    ensures Get(r'.headers, k) == Some(v)
    ensures forall k' :: k' != k ==> Get(r'.headers, k') == Get(r.headers, k')
    ensures k in Keys(r.headers) ==> Keys(r'.headers) == Keys(r.headers)
    ensures k !in Keys(r.headers) ==> Keys(r'.headers) == Keys(r.headers) + [k]
    ensures Keys(r.headers) <= Keys(r'.headers)
    ensures Keys(r'.headers) == Added(Keys(r.headers), k)
    ensures DistinctKeys(r.headers) ==> DistinctKeys(r'.headers)
    ensures r'.responseCode == r.responseCode && r'.responseReason == r.responseReason && r'.raw == r.raw
  {
    PutKeyOrder(r.headers, k, v);
    assert DistinctKeys(r.headers) ==> DistinctKeys(Put(r.headers, k, v)) by {
      if DistinctKeys(r.headers) {
        PutDistinct(r.headers, k, v);
      }
    }
    forall k' ensures Get(Put(r.headers, k, v), k') == if k' == k then Some(v) else Get(r.headers, k') {
      PutGet(r.headers, k, v, k');
    }
    r.(headers := Put(r.headers, k, v))
  }

  /** `append(content)` as written: `new byte[raw.length + content.length]`
      (null body: `NullPointerException`; an int sum past `MaxInt` wraps
      negative: `NegativeArraySizeException`), a copy of the old body into the
      new array, and then a copy of `content` onto ITSELF at offset
      `raw.length`, which is out of range unless the old body is empty. The
      new array is never filled from `content`. */
  function Append(r: Response, content: seq<Byte>): (res: Result<Response>)
    ensures r.raw.None? ==> res == Failure(NullPointer)
    ensures res.Success? <==> r.raw.Some? && |r.raw.value| == 0 && |content| <= MaxInt
    ensures res.Success? ==> res.value.raw.Some? && |res.value.raw.value| == |r.raw.value| + |content|
    ensures res.Success? ==> res.value.raw == Some(Zeros(|content|))
    ensures res.Success? ==> res.value.responseCode == r.responseCode && res.value.responseReason == r.responseReason && res.value.headers == r.headers
    ensures r.raw.Some? && |r.raw.value| + |content| > MaxInt ==> res == Failure(NegativeArraySize)
    ensures r.raw.Some? && |r.raw.value| > 0 && |r.raw.value| + |content| <= MaxInt ==> res == Failure(ArrayIndexOutOfBounds)
  {
    match r.raw
    case None => Failure(NullPointer)
    case Some(body) =>
      if |body| + |content| > MaxInt then Failure(NegativeArraySize)
      else
        var combined := body + Zeros(|content|);
        if |body| + |content| > |content| then Failure(ArrayIndexOutOfBounds)
        else assert body == [] && combined == Zeros(|content|); Success(r.(raw := Some(combined)))
  }

  /** `content` replaces the body outright: the earlier call leaves no trace. */
  lemma ContentReplaces(r: Response, a: string, b: string)
    ensures Content(Content(r, a), b) == Content(r, b)
  {
  }

  /** The scalar mutators touch disjoint fields, so their order does not matter. */
  lemma MutatorsCommute(r: Response, n: Int32, s: string, t: string)
    ensures Code(Reason(r, s), n) == Reason(Code(r, n), s)
    ensures Code(Content(r, t), n) == Content(Code(r, n), t)
    ensures Reason(Content(r, t), s) == Content(Reason(r, s), t)
  {
  }

  /** The defect of `append`: on an empty body it succeeds but discards the
      appended bytes, and on any non-empty body it throws. */
  lemma AppendDefect(r: Response, content: seq<Byte>)
    requires r.raw.Some? && |content| <= MaxInt && |r.raw.value| + |content| <= MaxInt
    ensures |r.raw.value| == 0 && (exists i :: 0 <= i < |content| && content[i] != 0) ==>
      Append(r, content).value.raw != Some(r.raw.value + content)
    ensures |r.raw.value| > 0 ==> Append(r, content) == Failure(ArrayIndexOutOfBounds)
  {
    if |r.raw.value| == 0 && (exists i :: 0 <= i < |content| && content[i] != 0) {
      var i :| 0 <= i < |content| && content[i] != 0;
      var z := Append(r, content).value.raw.value;
      assert z == Zeros(|content|);
      assert z[i] == 0;
      assert r.raw.value + content == content;
    }
  }

  /** `append` as evidently intended: the content is copied into the new
      array after the old body. The exceptions for a null body and for an
      overflowing length stay as they are. */
  function AppendIntended(r: Response, content: seq<Byte>): (res: Result<Response>)
    ensures r.raw.None? ==> res == Failure(NullPointer)
    ensures res.Success? <==> r.raw.Some? && |r.raw.value| + |content| <= MaxInt
    ensures r.raw.Some? && |r.raw.value| + |content| > MaxInt ==> res == Failure(NegativeArraySize)
    ensures res.Success? ==> res.value == r.(raw := Some(r.raw.value + content))
  {
    match r.raw
    case None => Failure(NullPointer)
    case Some(body) =>
      if |body| + |content| > MaxInt then Failure(NegativeArraySize)
      else Success(r.(raw := Some(body + content)))
  }

  /** Two intended appends are one append of the concatenation. */
  lemma AppendIntendedTwice(r: Response, a: seq<Byte>, b: seq<Byte>)
    requires r.raw.Some? && |r.raw.value| + |a| + |b| <= MaxInt
    ensures AppendIntended(r, a).Success?
    ensures AppendIntended(AppendIntended(r, a).value, b) == AppendIntended(r, a + b)
  {
    assert r.raw.value + a + b == r.raw.value + (a + b);
  }
}
