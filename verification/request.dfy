/** The `HTTPRequest(String raw)` constructor: method, location and version
    are the first three tokens of the whole text, and every CRLF-separated
    line after the first is one `name:value` header in a hash map. */
module HttpRequest {
  import opened Base
  import opened Text
  import opened Split
  import opened Tokenizer

  datatype Request = Request(requestMethod: string, location: string, version: string, headers: map<string, string>)

  /** The text before the first colon of a header line. */
  function Name(line: string): string
    requires ':' in line
  {
    SplitColon(line)[0]
  }

  /** Everything after the first colon, leading space included. */
  function Value(line: string): string
    requires ':' in line
  {
    SplitColon(line)[1]
  }

  /** The loop over header lines: `headers.put(keyVal[0], keyVal[1])`, where
      `keyVal[1]` throws on a line that has no colon. */
  function PutHeaders(lines: seq<string>, acc: map<string, string>): (r: Result<map<string, string>>)
    ensures r.Failure? ==> r.error == ArrayIndexOutOfBounds
    ensures r.Success? ==> acc.Keys <= r.value.Keys
    decreases |lines|
  {
    if |lines| == 0 then Success(acc)
    else
      var keyVal := SplitColon(lines[0]);
      if |keyVal| < 2 then Failure(ArrayIndexOutOfBounds)
      else PutHeaders(lines[1..], acc[keyVal[0] := keyVal[1]])
  }

  /** `raw.split("\r\n")` from index 1 on. */
  function HeaderLines(raw: string): (hs: seq<string>)
    ensures SplitLines(raw) == [] ==> hs == []
    ensures SplitLines(raw) != [] ==> SplitLines(raw) == [SplitLines(raw)[0]] + hs
  {
    var lines := SplitLines(raw);
    if |lines| == 0 then [] else lines[1..]
  }

  /** The three `nextToken()` calls: method, location and version. */
  function RequestLine(raw: string): (r: Result<(string, string, string)>)
    ensures r.Failure? ==> r.error == NoSuchElement
    ensures r.Success? ==> var (m, l, v) := r.value;
      && |m| >= 1 && |l| >= 1 && |v| >= 1
      && NoDelimiter(m) && NoDelimiter(l) && NoDelimiter(v)
  {
    var first :- NextToken(raw, 0);
    var second :- NextToken(raw, first.1);
    var third :- NextToken(raw, second.1);
    Success((first.0, second.0, third.0))
  }

  /** The whole constructor: the request line, then the header loop. */
  function Parse(raw: string): (r: Result<Request>)
    ensures r.Failure? ==> r.error == NoSuchElement || r.error == ArrayIndexOutOfBounds
    ensures r.Success? ==>
      && |r.value.requestMethod| >= 1
      && (forall i :: 0 <= i < |r.value.requestMethod| ==> !('a' <= r.value.requestMethod[i] <= 'z'))
      && |r.value.location| >= 1 && NoDelimiter(r.value.location)
      && |r.value.version| >= 1 && NoDelimiter(r.value.version)
  {
    var line :- RequestLine(raw);
    var headers :- PutHeaders(HeaderLines(raw), map[]);
    Success(Request(ToUpper(line.0), line.1, line.2, headers))
  }

  /** The names of the lines that have a colon. */
  function NameSet(lines: seq<string>): set<string> {
    set i | 0 <= i < |lines| && ':' in lines[i] :: Name(lines[i])
  }

  /** Line `i` has a colon and no later line has the same name. */
  predicate LastWithName(lines: seq<string>, i: int)
    requires 0 <= i < |lines|
  {
    && ':' in lines[i]
    && forall j :: i < j < |lines| && ':' in lines[j] ==> Name(lines[j]) != Name(lines[i])
  }

  lemma NameSetCons(lines: seq<string>)
    requires |lines| > 0 && ':' in lines[0]
    ensures NameSet(lines) == {Name(lines[0])} + NameSet(lines[1..])
  {
    var rest := lines[1..];
    forall k | k in NameSet(lines)
      ensures k in {Name(lines[0])} + NameSet(rest)
    {
      var i :| 0 <= i < |lines| && ':' in lines[i] && Name(lines[i]) == k;
      if i > 0 {
        assert rest[i - 1] == lines[i];
      }
    }
    forall k | k in NameSet(rest)
      ensures k in NameSet(lines)
    {
      var i :| 0 <= i < |rest| && ':' in rest[i] && Name(rest[i]) == k;
      assert lines[i + 1] == rest[i];
    }
  }

  /** The header loop fails, with `ArrayIndexOutOfBoundsException`, exactly
      when some line has no colon. */
  lemma {:induction false} PutHeadersFails(lines: seq<string>, acc: map<string, string>)
    ensures PutHeaders(lines, acc).Failure? <==> exists i :: 0 <= i < |lines| && ':' !in lines[i]
    ensures PutHeaders(lines, acc).Failure? ==> PutHeaders(lines, acc).error == ArrayIndexOutOfBounds
    decreases |lines|
  {
    if |lines| > 0 && ':' in lines[0] {
      var rest := lines[1..];
      PutHeadersFails(rest, acc[Name(lines[0]) := Value(lines[0])]);
      forall i | 0 <= i < |lines| && ':' !in lines[i]
        ensures 0 <= i - 1 < |rest| && ':' !in rest[i - 1]
      {
      }
      forall i | 0 <= i < |rest| && ':' !in rest[i]
        ensures ':' !in lines[i + 1]
      {
      }
    }
  }

  /** The map gains exactly the names of the lines, and every key that no
      line names keeps its value. */
  lemma {:induction false} PutHeadersKeys(lines: seq<string>, acc: map<string, string>)
    requires PutHeaders(lines, acc).Success?
    ensures PutHeaders(lines, acc).value.Keys == acc.Keys + NameSet(lines)
    ensures forall k :: k in acc && k !in NameSet(lines) ==> PutHeaders(lines, acc).value[k] == acc[k]
    decreases |lines|
  {
    if |lines| > 0 {
      NameSetCons(lines);
      PutHeadersKeys(lines[1..], acc[Name(lines[0]) := Value(lines[0])]);
    }
  }

  /** The last line with its name stays the last one when the first line is dropped. */
  lemma LastWithNameTail(lines: seq<string>, i: int)
    requires 0 < i < |lines| && LastWithName(lines, i)
    ensures LastWithName(lines[1..], i - 1)
  {
    var rest := lines[1..];
    assert rest[i - 1] == lines[i];
    forall j | i - 1 < j < |rest| && ':' in rest[j]
      ensures Name(rest[j]) != Name(rest[i - 1])
    {
      assert rest[j] == lines[j + 1];
    }
  }

  /** When the first line is the last with its name, no later line has that name. */
  lemma LastWithNameHead(lines: seq<string>)
    requires |lines| > 0 && LastWithName(lines, 0)
    ensures Name(lines[0]) !in NameSet(lines[1..])
  {
    var rest := lines[1..];
    forall k | k in NameSet(rest)
      ensures k != Name(lines[0])
    {
      var j :| 0 <= j < |rest| && ':' in rest[j] && Name(rest[j]) == k;
      assert rest[j] == lines[j + 1];
    }
  }

  /** For each name, the map holds the value of the last line with that name. */
  lemma {:induction false} PutHeadersLastWins(lines: seq<string>, acc: map<string, string>)
    requires PutHeaders(lines, acc).Success?
    ensures forall i :: 0 <= i < |lines| && LastWithName(lines, i) ==>
      && Name(lines[i]) in PutHeaders(lines, acc).value
      && PutHeaders(lines, acc).value[Name(lines[i])] == Value(lines[i])
    decreases |lines|
  {
    PutHeadersKeys(lines, acc);
    if |lines| > 0 {
      var rest := lines[1..];
      var acc' := acc[Name(lines[0]) := Value(lines[0])];
      var m := PutHeaders(lines, acc).value;
      assert m == PutHeaders(rest, acc').value;
      PutHeadersLastWins(rest, acc');
      PutHeadersKeys(rest, acc');
      forall i | 0 <= i < |lines| && LastWithName(lines, i)
        ensures m[Name(lines[i])] == Value(lines[i])
      {
        if i > 0 {
          LastWithNameTail(lines, i);
          assert rest[i - 1] == lines[i];
        } else {
          LastWithNameHead(lines);
        }
      }
    }
  }

  /** The request line is the first three tokens of the whole text: the
      constructor fails in `nextToken` when there are fewer, and otherwise
      the method is the first token upper-cased, then location, then version. */
  lemma ParseRequestLine(raw: string)
    ensures |Tokens(raw)| < 3 <==> RequestLine(raw).Failure?
    ensures |Tokens(raw)| < 3 ==> Parse(raw) == Failure(NoSuchElement)
    ensures Parse(raw).Success? ==>
      && |Tokens(raw)| >= 3
      && Parse(raw).value.requestMethod == ToUpper(Tokens(raw)[0])
      && Parse(raw).value.location == Tokens(raw)[1]
      && Parse(raw).value.version == Tokens(raw)[2]
  {
    match NextToken(raw, 0)
    case Failure(_) =>
    case Success((t1, e1)) =>
      assert Tokens(raw) == [t1] + TokensFrom(raw, e1);
      match NextToken(raw, e1)
      case Failure(_) =>
      case Success((t2, e2)) =>
        assert TokensFrom(raw, e1) == [t2] + TokensFrom(raw, e2);
        match NextToken(raw, e2)
        case Failure(_) =>
        case Success((t3, e3)) =>
          assert TokensFrom(raw, e2) == [t3] + TokensFrom(raw, e3);
  }

  /** Once the request line is there, construction succeeds exactly when every
      header line has a colon, and the header map holds, for each name, the
      value of the last line with that name and nothing else. */
  lemma ParseHeaders(raw: string)
    requires |Tokens(raw)| >= 3
    ensures Parse(raw).Success? <==> forall i :: 0 <= i < |HeaderLines(raw)| ==> ':' in HeaderLines(raw)[i]
    ensures Parse(raw).Failure? ==> Parse(raw).error == ArrayIndexOutOfBounds
    ensures Parse(raw).Success? ==>
      var h := Parse(raw).value.headers;
      var ls := HeaderLines(raw);
      && h.Keys == NameSet(ls)
      && forall i :: 0 <= i < |ls| && LastWithName(ls, i) ==> h[Name(ls[i])] == Value(ls[i])
  {
    ParseRequestLine(raw);
    var ls := HeaderLines(raw);
    PutHeadersFails(ls, map[]);
    if PutHeaders(ls, map[]).Success? {
      PutHeadersKeys(ls, map[]);
      PutHeadersLastWins(ls, map[]);
    }
  }

  /** Delimiters appended to the text leave the three tokens unchanged. */
  lemma RequestLinePadded(raw: string, d: string)
    requires AllDelimiters(d)
    ensures RequestLine(raw + d) == RequestLine(raw)
  {
    NextTokenPadded(raw, d, 0);
    match NextToken(raw, 0)
    case Failure(_) =>
    case Success((t1, e1)) =>
      NextTokenPadded(raw, d, e1);
      match NextToken(raw, e1)
      case Failure(_) =>
      case Success((t2, e2)) =>
        NextTokenPadded(raw, d, e2);
  }

  /** One more line break at the end changes nothing: the tokenizer skips it
      as a delimiter and `split` drops the trailing empty string. */
  lemma ParseIgnoresTrailingCrlf(raw: string)
    ensures Parse(raw + CRLF) == Parse(raw)
  {
    assert AllDelimiters(CRLF);
    RequestLinePadded(raw, CRLF);
    if raw == "" {
      assert NextToken(raw, 0).Failure?;
    } else {
      SplitLinesTrailingCrlf(raw);
      assert HeaderLines(raw + CRLF) == HeaderLines(raw);
    }
  }

  /** The pieces of a request head, none of which holds a separator. */
  lemma HeadPieces(first: string, hs: seq<string>)
    requires NoCrlf(first)
    requires forall k :: 0 <= k < |hs| ==> NoCrlf(hs[k])
    ensures AllNoCrlf([first] + hs + ["", ""])
  {
    assert AllNoCrlf(["", ""]) && AllNoCrlf([first]) && AllNoCrlf(hs);
    AllNoCrlfConcat([first], hs);
    AllNoCrlfConcat([first] + hs, ["", ""]);
  }

  lemma SplitHead(first: string, hs: seq<string>)
    requires NoCrlf(first)
    requires forall k :: 0 <= k < |hs| ==> NoCrlf(hs[k])
    ensures SplitCrlf(Join([first] + hs + ["", ""])) == [first] + hs + ["", ""]
  {
    HeadPieces(first, hs);
    SplitJoin([first] + hs + ["", ""]);
  }

  /** A head made of a request line, header lines and the blank line that
      ends it yields exactly those header lines, in order. */
  lemma HeaderLinesOfHead(first: string, hs: seq<string>)
    requires first != "" && NoCrlf(first)
    requires forall k :: 0 <= k < |hs| ==> hs[k] != "" && NoCrlf(hs[k])
    ensures HeaderLines(Join([first] + hs + ["", ""])) == hs
  {
    var ps := [first] + hs + ["", ""];
    SplitHead(first, hs);
    assert ps == ([first] + hs) + ["", ""];
    DropTwoTrailingEmpty([first] + hs);
    assert ([first] + hs)[1..] == hs;
  }

  const GetExample: string := "GET / HTTP/1.1\r\nHost: x\r\n\r\n"

  lemma GetExampleRequestLine()
    ensures RequestLine(GetExample) == Success(("GET", "/", "HTTP/1.1"))
  {
    GetExampleMethod();
    GetExampleLocation();
    GetExampleVersion();
  }

  lemma GetExampleMethod()
    ensures NextToken(GetExample, 0) == Success(("GET", 3))
  {
    var rest := " / HTTP/1.1\r\nHost: x\r\n\r\n";
    assert GetExample == "GET" + rest;
    assert GetExample[0..3] == "GET";
    NextTokenIs(GetExample, 0, 0, 3);
  }

  lemma GetExampleLocation()
    ensures NextToken(GetExample, 3) == Success(("/", 5))
  {
    var rest := " HTTP/1.1\r\nHost: x\r\n\r\n";
    assert GetExample == "GET " + "/" + rest;
    assert GetExample[4..5] == "/";
    NextTokenIs(GetExample, 3, 4, 5);
  }

  lemma GetExampleVersion()
    ensures NextToken(GetExample, 5) == Success(("HTTP/1.1", 14))
  {
    var rest := "\r\nHost: x\r\n\r\n";
    assert GetExample == "GET / " + "HTTP/1.1" + rest;
    assert GetExample[6..14] == "HTTP/1.1";
    NextTokenIs(GetExample, 5, 6, 14);
  }

  lemma GetExampleHeaderLines()
    ensures HeaderLines(GetExample) == ["Host: x"]
  {
    var hs := ["Host: x"];
    assert Join(["GET / HTTP/1.1", "Host: x", "", ""]) == GetExample;
    assert ["GET / HTTP/1.1"] + hs + ["", ""] == ["GET / HTTP/1.1", "Host: x", "", ""];
    HeaderLinesOfHead("GET / HTTP/1.1", hs);
  }

  lemma HostHeader()
    ensures PutHeaders(["Host: x"], map[]) == Success(map["Host" := " x"])
  {
    SplitColonAt("Host: x", 4);
    assert "Host: x"[..4] == "Host";
    assert "Host: x"[5..] == " x";
  }

  lemma GetExampleHeaders()
    ensures PutHeaders(HeaderLines(GetExample), map[]) == Success(map["Host" := " x"])
  {
    GetExampleHeaderLines();
    HostHeader();
  }

  /** A minimal GET request: the header value keeps its leading space, and
      the blank line that ends the head is dropped by `split`. */
  lemma ParseGetExample()
    ensures Parse(GetExample) == Success(Request("GET", "/", "HTTP/1.1", map["Host" := " x"]))
  {
    ToUpperKeepsUpper("GET");
    GetExampleRequestLine();
    GetExampleHeaders();
  }
}
