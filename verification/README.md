# Reactor NIO HTTP server: request parsing and response writing

This project models the core of `HttpServer` from `reactor-http-demo`. That server is a single-file HTTP server on Java NIO. Each readable socket is read once into a 2048-byte buffer. The bytes become characters, and only the complete lines are kept (`read`). The text is parsed by the `HTTPRequest` constructor:

- a `StringTokenizer` supplies the method, location and version;
- `split("\r\n")` and `split(":", 2)` supply the header map.

The handler gets a fresh `HTTPResponse` to answer with. The response has scalar mutators (`code`, `reason`, `content`, `header`, `append`) and two ways to finish:

- `end` sends the whole body at once;
- `chunked`, then `writeChunk`*, then `flushChunks` streams the body.

Both ways write through `writeLine` and `writeHeaders` and then close the socket.

The model is organised as follows:

- Java's string and number routines are written out as small reference definitions:
  - the UTF-8 encoder and `Integer.toString` (`Text`);
  - both uses of `String.split` (`Split`);
  - `StringTokenizer` (`Tokenizer`);
  - the insertion-ordered `LinkedHashMap` (`HeaderMap`).
- The server code is modelled on top of them:
  - `read` (`LineFilter`);
  - the request constructor (`HttpRequest`);
  - the response state and mutators (`HttpResponse`);
  - the terminal writes (`Wire`);
  - one readable event plus the shipped `DemoHandler` (`Server`).
- A Java exception is a `Base.JavaError` value:
  - pure code returns a `Result`;
  - a terminal operation returns an `Outcome`, which is the response state, the channel state and the exception that escaped, if any.
- The socket is a `Wire.Channel`, an append-only trace of the bytes written plus an open flag.
- The `Date` header's text is a parameter.

Every behaviour is modelled as the code has it, including two defects:

- `append` copies `content` onto itself (line 244);
- `chunked` mode writes unframed bytes under `Transfer-Encoding: chunked`, with no blank line after the headers.

Four behaviours of the code differ from what it is evidently meant to do. The model follows the code:

- **Two chunks.** After `content("")`, the sequence `chunked`, `writeChunk(a)`, `writeChunk(b)`, `flushChunks` is evidently meant to send `a`, `b` and then `Content-Length: len(a)+len(b)`. In the code, the second `writeChunk` throws `ArrayIndexOutOfBoundsException` whenever `a` is non-empty. It throws after `b` is on the wire, so `flushChunks` is never reached and the socket stays open (`Wire.SecondChunkThrows`). The intended behaviour holds only for the corrected `append` (`Wire.TwoChunkSessionIntended`).
- **Streaming without `content`.** On a fresh response the body is null. The first `writeChunk` writes its bytes and then throws `NullPointerException` in `append`, with the channel still open (`Wire.FirstChunkWithoutContent`).
- **`append`.** The method allocates `combined` with room for the old body and the content, so it is meant to concatenate. The code zero-fills the new bytes or throws (`HttpResponse.AppendDefect`).
- **End of stream.** When the peer has finished sending, `toBuffer` throws an `IOException` that the consumer logs and rethrows. Nothing in this code closes the channel. The model gives `Server.Failed(StreamEnded)` and leaves the channel untouched.

## Model

All source paths below are `src/main/java/com/github/pk11/rnio/HttpServer.java`.

| member | source | states |
|---|---|---|
| Text.EncodeChar | src/main/java/com/github/pk11/rnio/HttpServer.java:264 | the UTF-8 encoder emits 1 to 4 bytes per character: one byte equal to the code for ASCII, continuation bytes 0x80..0xBF after the first |
| Text.Utf8 | src/main/java/com/github/pk11/rnio/HttpServer.java:237 | the encoding of a string is empty exactly when the string is; its length and concatenation behaviour are stated by Text.Utf8Length and Text.Utf8Append |
| Text.Utf8Length | src/main/java/com/github/pk11/rnio/HttpServer.java:264 | each character takes one to four bytes, so the encoding is between one and four times the string's length |
| Text.Utf8Append | src/main/java/com/github/pk11/rnio/HttpServer.java:264 | encoding a concatenation is concatenating the encodings, so writing `line` and then CRLF sends the bytes of `line + "\r\n"` |
| Text.Utf8Ascii | src/main/java/com/github/pk11/rnio/HttpServer.java:237 | on ASCII text `getBytes` yields one byte per character, equal to its code |
| Text.Digits | src/main/java/com/github/pk11/rnio/HttpServer.java:186 | `Integer.toString` of a length is non-empty, all decimal digits, with no leading zero, and a single digit exactly when the value is below 10 |
| Text.IntToString | src/main/java/com/github/pk11/rnio/HttpServer.java:189 | the status code's decimal text starts with '-' exactly when the code is negative, followed by the magnitude's digits |
| Text.DigitsRoundTrip | src/main/java/com/github/pk11/rnio/HttpServer.java:186 | the digits written for a number are a decimal string, and reading them back gives the number |
| Text.ToUpper | src/main/java/com/github/pk11/rnio/HttpServer.java:153 | upper-casing keeps the length, turns each lower-case ASCII letter into its capital, keeps every other character, and leaves no lower-case ASCII letter |
| Text.ToUpperKeepsUpper | src/main/java/com/github/pk11/rnio/HttpServer.java:153 | text with no lower-case ASCII letter is left as it is, so upper-casing an upper-case method changes nothing |
| Text.ByteToChar | src/main/java/com/github/pk11/rnio/HttpServer.java:122 | `(char)` of a byte is the byte below 0x80 and sign-extended to U+FF80..U+FFFF above, and it is '\n' exactly for byte 0x0A |
| Text.Chars | src/main/java/com/github/pk11/rnio/HttpServer.java:121-123 | the characters built from a buffer are one per byte, in order |
| Text.CharsOfAscii | src/main/java/com/github/pk11/rnio/HttpServer.java:122 | ASCII text encoded and read back character by character is the same text |
| Split.IndexOfCrlf | src/main/java/com/github/pk11/rnio/HttpServer.java:156 | the separator search finds the leftmost CRLF at or after the start, and reports none exactly when there is none |
| Split.JoinSplit | src/main/java/com/github/pk11/rnio/HttpServer.java:156 | splitting at CRLF loses nothing: joining the pieces with CRLF gives the text back |
| Split.SplitCrlf | src/main/java/com/github/pk11/rnio/HttpServer.java:156 | splitting at every CRLF yields at least one piece; Split.JoinSplit, Split.SplitPiecesHaveNoCrlf and Split.SplitJoin state that the pieces are CRLF-free and rejoin into the text |
| Split.SplitPiecesHaveNoCrlf | src/main/java/com/github/pk11/rnio/HttpServer.java:156 | no piece of the split holds a CRLF |
| Split.SplitJoin | src/main/java/com/github/pk11/rnio/HttpServer.java:156 | pieces without CRLF, joined by CRLF and split again, come back unchanged |
| Split.DropTrailingEmpty | src/main/java/com/github/pk11/rnio/HttpServer.java:156 | limit-0 `split` keeps a prefix of the pieces that does not end in an empty string, and drops only empty strings |
| Split.SplitLines | src/main/java/com/github/pk11/rnio/HttpServer.java:156 | `split("\r\n")` of a text with no CRLF is the text alone; otherwise the lines are a prefix of all pieces, everything dropped is empty, and the last line kept is non-empty |
| Split.SplitLinesNoSeparator | src/main/java/com/github/pk11/rnio/HttpServer.java:156 | a text with no CRLF, even the empty one, splits into itself alone |
| Split.SplitCrlfTrailing | src/main/java/com/github/pk11/rnio/HttpServer.java:156 | a CRLF appended to a text adds exactly one empty piece at the end |
| Split.SplitLinesTrailingCrlf | src/main/java/com/github/pk11/rnio/HttpServer.java:156 | `split("\r\n")` of a non-empty text ignores one more trailing CRLF |
| Split.SplitColon | src/main/java/com/github/pk11/rnio/HttpServer.java:158 | `split(":", 2)` gives the whole line when it has no colon, and otherwise a colon-free name and a rest that rejoin around ':' into the line |
| Split.IndexOfColon | src/main/java/com/github/pk11/rnio/HttpServer.java:158 | the colon found is the first one in the line |
| Split.SplitColonAt | src/main/java/com/github/pk11/rnio/HttpServer.java:158 | the line is cut at its first colon, wherever that is |
| Tokenizer.IsDelimiter | src/main/java/com/github/pk11/rnio/HttpServer.java:152 | the default `StringTokenizer` delimiters are space, tab, line feed, carriage return and form feed, all at or below U+0020 |
| Tokenizer.SkipDelimiters | src/main/java/com/github/pk11/rnio/HttpServer.java:152-155 | skipping stops at the first non-delimiter, or at the end, after delimiters only |
| Tokenizer.ScanToken | src/main/java/com/github/pk11/rnio/HttpServer.java:152-155 | a token runs up to the first delimiter, or to the end |
| Tokenizer.NextToken | src/main/java/com/github/pk11/rnio/HttpServer.java:153-155 | `nextToken` throws `NoSuchElementException` exactly when only delimiters remain; otherwise it returns a non-empty delimiter-free run preceded only by delimiters and followed by a delimiter or the end |
| Tokenizer.TokensAreFields | src/main/java/com/github/pk11/rnio/HttpServer.java:152-155 | the tokens handed out are exactly the non-empty pieces between delimiters (an independent reference definition) |
| Tokenizer.TokensFromAreFields | src/main/java/com/github/pk11/rnio/HttpServer.java:152-155 | from any position, the remaining tokens are the non-empty pieces of the rest of the text |
| Tokenizer.NextTokenPadded | src/main/java/com/github/pk11/rnio/HttpServer.java:153-155 | appending delimiters does not change what `nextToken` returns at any position before them |
| Tokenizer.TokensFromPadded | src/main/java/com/github/pk11/rnio/HttpServer.java:152 | appending delimiters does not change the token sequence |
| Tokenizer.NextTokenIs | src/main/java/com/github/pk11/rnio/HttpServer.java:153 | a delimiter-bounded run preceded only by delimiters is the next token |
| LineFilter.WholeLines | src/main/java/com/github/pk11/rnio/HttpServer.java:118-130 | the kept text is a prefix of the input, empty or ending in '\n', and no '\n' is dropped |
| LineFilter.WholeLinesLongest | src/main/java/com/github/pk11/rnio/HttpServer.java:118-130 | the kept text is empty exactly when the input has no '\n', and it covers every '\n' of the input |
| LineFilter.WholeLinesIdempotent | src/main/java/com/github/pk11/rnio/HttpServer.java:118-130 | filtering the filtered text changes nothing |
| LineFilter.WholeLinesDropsTail | src/main/java/com/github/pk11/rnio/HttpServer.java:118-130 | whole lines followed by an unterminated tail filter back to the whole lines |
| LineFilter.Read | src/main/java/com/github/pk11/rnio/HttpServer.java:118-130 | the loop returns the whole-lines prefix of the buffer's characters |
| HttpRequest.PutHeaders | src/main/java/com/github/pk11/rnio/HttpServer.java:157-160 | the header loop fails only with `ArrayIndexOutOfBoundsException` and never loses a key; HttpRequest.PutHeadersFails, HttpRequest.PutHeadersKeys and HttpRequest.PutHeadersLastWins state exactly when it fails and what the map holds |
| HttpRequest.PutHeadersFails | src/main/java/com/github/pk11/rnio/HttpServer.java:157-160 | the header loop throws `ArrayIndexOutOfBoundsException` exactly when some header line has no colon |
| HttpRequest.PutHeadersKeys | src/main/java/com/github/pk11/rnio/HttpServer.java:157-160 | the map gains exactly the names of the header lines, and any key no line names keeps its value |
| HttpRequest.PutHeadersLastWins | src/main/java/com/github/pk11/rnio/HttpServer.java:157-160 | for each name, the map holds the value of the last line with that name |
| HttpRequest.HeaderLines | src/main/java/com/github/pk11/rnio/HttpServer.java:156-157 | the lines the header loop visits are those of `split("\r\n")` after the first one, and none when the split is empty |
| HttpRequest.RequestLine | src/main/java/com/github/pk11/rnio/HttpServer.java:152-155 | the three `nextToken` calls fail only with `NoSuchElementException`, and on success give three non-empty delimiter-free tokens; HttpRequest.ParseRequestLine states which tokens they are |
| HttpRequest.Parse | src/main/java/com/github/pk11/rnio/HttpServer.java:151-161 | construction fails only with `NoSuchElementException` or `ArrayIndexOutOfBoundsException`; on success the method is non-empty with no lower-case ASCII letter, and location and version are non-empty tokens; HttpRequest.ParseRequestLine and HttpRequest.ParseHeaders state the exact result |
| HttpRequest.ParseRequestLine | src/main/java/com/github/pk11/rnio/HttpServer.java:151-155 | construction throws `NoSuchElementException` exactly when the text has fewer than three tokens; otherwise method, location and version are the first three tokens, the method upper-cased |
| HttpRequest.ParseHeaders | src/main/java/com/github/pk11/rnio/HttpServer.java:151-161 | given a request line, construction succeeds exactly when every line after the first has a colon (failing with `ArrayIndexOutOfBoundsException` otherwise), and the map's keys are the line names, each mapped to its last line's value |
| HttpRequest.RequestLinePadded | src/main/java/com/github/pk11/rnio/HttpServer.java:152-155 | trailing delimiters leave method, location and version unchanged |
| HttpRequest.ParseIgnoresTrailingCrlf | src/main/java/com/github/pk11/rnio/HttpServer.java:151-161 | one more trailing CRLF does not change the parsed request or the failure |
| HttpRequest.HeaderLinesOfHead | src/main/java/com/github/pk11/rnio/HttpServer.java:156-157 | a head of request line, header lines and the ending blank line gives exactly those header lines, in order |
| HttpRequest.ParseGetExample | src/main/java/com/github/pk11/rnio/HttpServer.java:151-161 | `GET / HTTP/1.1`, `Host: x` and a blank line parse to method GET, location /, version HTTP/1.1 and `Host` mapped to " x", with the leading space kept |
| HeaderMap.Keys | src/main/java/com/github/pk11/rnio/HttpServer.java:269 | iteration visits the entries' keys in their stored order |
| HeaderMap.Find | src/main/java/com/github/pk11/rnio/HttpServer.java:259 | the lookup finds the first entry with the key, and none exactly when the key is absent |
| HeaderMap.Put | src/main/java/com/github/pk11/rnio/HttpServer.java:259 | `put` of a new key appends an entry; `put` of a present key replaces that entry in place and keeps every other entry |
| HeaderMap.PutGet | src/main/java/com/github/pk11/rnio/HttpServer.java:259 | after `put(k, v)`, `get(k)` is `v` and every other key reads as before |
| HeaderMap.PutKeyOrder | src/main/java/com/github/pk11/rnio/HttpServer.java:174 | the insertion order is kept: a present key keeps its place and a new key goes last, so the key order after `put(k, _)` is the old order with `k` appended if it was new |
| HeaderMap.PutDistinct | src/main/java/com/github/pk11/rnio/HttpServer.java:174 | `put` never makes a key appear twice |
| HttpResponse.Fresh | src/main/java/com/github/pk11/rnio/HttpServer.java:170-180 | a new response has code 200, reason OK, a null body and no headers |
| HttpResponse.Code | src/main/java/com/github/pk11/rnio/HttpServer.java:226-229 | `code(n)` sets the status code and changes nothing else |
| HttpResponse.Reason | src/main/java/com/github/pk11/rnio/HttpServer.java:231-234 | `reason(s)` sets the reason phrase and changes nothing else |
| HttpResponse.Content | src/main/java/com/github/pk11/rnio/HttpServer.java:236-239 | `content(s)` makes the body the encoded text and changes nothing else |
| HttpResponse.Header | src/main/java/com/github/pk11/rnio/HttpServer.java:258-261 | `header(k, v)` makes `k` read `v`, leaves every other header as it was, keeps the key order with `k` appended if it was new, keeps keys distinct, and changes no other field |
| HttpResponse.ContentReplaces | src/main/java/com/github/pk11/rnio/HttpServer.java:236-239 | `content` replaces the body outright: a previous `content` leaves no trace |
| HttpResponse.MutatorsCommute | src/main/java/com/github/pk11/rnio/HttpServer.java:226-239 | `code`, `reason` and `content` touch disjoint fields, so their order does not matter |
| HttpResponse.Append | src/main/java/com/github/pk11/rnio/HttpServer.java:241-247 | as written: a null body throws `NullPointerException`, and an int length overflow throws `NegativeArraySizeException`; it succeeds only on an empty body, leaving as many zero bytes as the content holds; any other non-empty body throws `ArrayIndexOutOfBoundsException` |
| HttpResponse.AppendDefect | src/main/java/com/github/pk11/rnio/HttpServer.java:244 | the appended bytes never reach the body: a content with a non-zero byte is lost on an empty body, and a non-empty body makes the call throw |
| HttpResponse.AppendIntended | src/main/java/com/github/pk11/rnio/HttpServer.java:241-247 | corrected: the body becomes the old body followed by the content, with the same null and overflow exceptions |
| HttpResponse.AppendIntendedTwice | src/main/java/com/github/pk11/rnio/HttpServer.java:241-247 | corrected: two appends equal one append of the concatenation |
| Wire.Write | src/main/java/com/github/pk11/rnio/HttpServer.java:194 | a write on an open channel appends exactly the bytes, and on a closed channel throws `ClosedChannelException` |
| Wire.WriteLine | src/main/java/com/github/pk11/rnio/HttpServer.java:263-265 | `writeLine` appends the line's UTF-8 bytes followed by 0x0D 0x0A, or throws on a closed channel |
| Wire.HeaderLine | src/main/java/com/github/pk11/rnio/HttpServer.java:270 | one header is printed as its key, then ": ", then its value |
| Wire.HeaderText | src/main/java/com/github/pk11/rnio/HttpServer.java:269-270 | the header text is empty exactly when there are no headers, and otherwise ends in CRLF; Wire.HeadIsJoin states it is the header lines joined by CRLF |
| Wire.HeaderLineTexts | src/main/java/com/github/pk11/rnio/HttpServer.java:269-270 | there is one `Name: Value` line per map entry, in iteration order |
| Wire.WriteHeaders | src/main/java/com/github/pk11/rnio/HttpServer.java:267-275 | `writeHeaders` appends every header line with its CRLF, in map order, and throws only on a closed channel with at least one header |
| Wire.StatusLine | src/main/java/com/github/pk11/rnio/HttpServer.java:189 | the status line starts with `HTTP/1.1` and a space and ends with a space and the reason phrase, with the decimal code between |
| Wire.ChunkedHead | src/main/java/com/github/pk11/rnio/HttpServer.java:208-210 | the text `chunked` sends is the status line and CRLF followed by the header text |
| Wire.EndHead | src/main/java/com/github/pk11/rnio/HttpServer.java:189-193 | the text `end` sends before the body is the chunked head followed by one more CRLF, the blank line |
| Wire.WriteChunkedHead | src/main/java/com/github/pk11/rnio/HttpServer.java:208-210 | the writes of `chunked` append the status line and header lines and nothing else |
| Wire.WriteEndHead | src/main/java/com/github/pk11/rnio/HttpServer.java:189-194 | the writes of `end` append the status line, header lines, a blank line and then the body bytes |
| Wire.StampHeaders | src/main/java/com/github/pk11/rnio/HttpServer.java:183-185 | after the shared puts, `Date` reads the given date, `Server` reads `Reactor NIO Server` and the last key reads its value; every other header is unchanged; the key order is the old one with `Date`, `Server` and the last key each appended in that order if new, and keys stay distinct |
| Wire.SendWhole | src/main/java/com/github/pk11/rnio/HttpServer.java:189-196 | on an open channel the head and body go out and the channel is closed; on a closed one the call throws and nothing is written |
| Wire.End | src/main/java/com/github/pk11/rnio/HttpServer.java:182-200 | `end` succeeds exactly when the body is set and the channel open. A null body throws `NullPointerException` after the `Date`, `Server` and `Connection: close` puts and before the `Content-Length` put; a closed channel throws `ClosedChannelException`; either way nothing is written. On success the head and body go out and the channel ends closed. The map gains `Date`, `Server`, `Connection: close` and, with a body, `Content-Length` set to its length, each appended to the key order if new; every other header, distinctness of keys and the scalar fields are kept |
| Wire.EndHeaders | src/main/java/com/github/pk11/rnio/HttpServer.java:183-186 | the four puts of `end` set `Date`, `Server`, `Connection` and `Content-Length`, append each new one to the key order in that order, keep keys distinct and keep every other header |
| Wire.Chunked | src/main/java/com/github/pk11/rnio/HttpServer.java:202-215 | `chunked` adds `Date`, `Server` and `Transfer-Encoding: chunked`, each appended to the key order if new, keeps every other header and distinctness of keys, and writes the status line and headers only, leaving the channel open; a closed channel throws with nothing written |
| Wire.WriteChunk | src/main/java/com/github/pk11/rnio/HttpServer.java:249-256 | on an open channel the chunk always goes out unframed, even when the `append` after it throws; success requires an empty body and leaves as many zero bytes as the chunk holds; a null body throws `NullPointerException`, a body whose length plus the chunk's overflows `int` throws `NegativeArraySizeException`, and any other non-empty body `ArrayIndexOutOfBoundsException`, with the response unchanged |
| Wire.FlushChunks | src/main/java/com/github/pk11/rnio/HttpServer.java:217-224 | `flushChunks` writes one `Content-Length` line with the body length and closes; a null body throws before writing, a closed channel throws |
| Wire.HeadPiecesHaveNoCrlf | src/main/java/com/github/pk11/rnio/HttpServer.java:189-191 | with no CR in the reason or the headers, neither the status line nor any header line holds a CRLF |
| Wire.EndHeadLines | src/main/java/com/github/pk11/rnio/HttpServer.java:189-193 | a reader splitting `end`'s head at CRLF sees the status line, one non-empty line per header and then exactly one blank line |
| Wire.ChunkedHeadLines | src/main/java/com/github/pk11/rnio/HttpServer.java:208-210 | `chunked`'s head has the status line and the header lines but no blank line, so a reader is still in the head when chunks arrive |
| Wire.EndContentLength | src/main/java/com/github/pk11/rnio/HttpServer.java:186 | the `Content-Length` value `end` stores is a decimal that reads back as the body length |
| Wire.ChunkedSession | src/main/java/com/github/pk11/rnio/HttpServer.java:202-256 | after `content("")`, one chunk gives the head, the raw chunk, a `Content-Length` line with its length, and a closed channel |
| Wire.ChunksAfterEmptyBody | src/main/java/com/github/pk11/rnio/HttpServer.java:241-255 | as written: on an empty body a non-empty chunk succeeds and leaves zeros, so the next chunk is written and then throws `ArrayIndexOutOfBoundsException` |
| Wire.FirstChunkWithoutContent | src/main/java/com/github/pk11/rnio/HttpServer.java:241-255 | as written: without `content` first, the first chunk after `chunked` is on the wire, but the call throws `NullPointerException` and the channel stays open |
| Wire.SecondChunkThrows | src/main/java/com/github/pk11/rnio/HttpServer.java:244-255 | as written: a second chunk after a non-empty first one is on the wire, but the call throws `ArrayIndexOutOfBoundsException` and the channel stays open |
| Wire.WriteChunkIntended | src/main/java/com/github/pk11/rnio/HttpServer.java:249-256 | corrected: the chunk goes out and is appended to the body |
| Wire.IntendedChunksFlushed | src/main/java/com/github/pk11/rnio/HttpServer.java:217-256 | corrected: two chunks and the flush put `a`, `b` and `Content-Length` of their total length on the wire, then close |
| Wire.TwoChunkSessionIntended | src/main/java/com/github/pk11/rnio/HttpServer.java:202-256 | corrected: `chunked`, `writeChunk(a)`, `writeChunk(b)`, `flushChunks` send the head, `a`, `b` and `Content-Length: len(a)+len(b)`, then close |
| Server.Receive | src/main/java/com/github/pk11/rnio/HttpServer.java:132-140 | an end-of-stream read throws `StreamEnded`; a read with no line feed leaves empty text, whose parse throws `NoSuchElementException`; otherwise the request is parsed from the whole lines of the bytes |
| Server.ReceiveIgnoresPartialLine | src/main/java/com/github/pk11/rnio/HttpServer.java:118-130 | bytes after the last line feed of a read have no effect on the request |
| Server.OnReadable | src/main/java/com/github/pk11/rnio/HttpServer.java:44-53 | a closed channel is skipped exactly; on an open channel a read or parse failure is returned as that exception before the handler runs (end of stream and a line-less read in particular), and a successful parse hands the request, a fresh response and the channel to the handler, whose outcome is the result |
| Server.EndOfFourteenBytes | src/main/java/com/github/pk11/rnio/HttpServer.java:182-196 | `end` on a fresh response with a 14-byte body sends `HTTP/1.1 200 OK`, the headers `Date`, `Server`, `Connection`, `Content-Length` in that order with `Content-Length` 14, then the body, and closes |
| Server.DemoReply | src/main/java/com/github/pk11/rnio/HttpServer.java:320 | `content("Hello Reactor!").end()` on any response succeeds exactly on an open channel, throws `ClosedChannelException` with nothing written otherwise, always leaves the channel closed, with the greeting's UTF-8 as body and `Connection: close` set |
| Server.DemoHandle | src/main/java/com/github/pk11/rnio/HttpServer.java:314-322 | the demo handler's outcome depends only on the response and the channel, never on the request: it is Server.DemoReply for every request |
| Server.DemoAnswer | src/main/java/com/github/pk11/rnio/HttpServer.java:314-322 | for every request on a fresh response and an open channel, the demo handler sends `HTTP/1.1 200 OK`, the headers `Date`, `Server`, `Connection`, `Content-Length` in that order with `Content-Length: 14`, then the greeting, and closes |
| Server.DemoResponse | src/main/java/com/github/pk11/rnio/HttpServer.java:314-322 | the demo handler's answer is `HTTP/1.1 200 OK` with `Content-Length: 14`, `Connection: close`, the body `Hello Reactor!`, and a closed channel |
| Server.ReceiveAscii | src/main/java/com/github/pk11/rnio/HttpServer.java:47 | ASCII text ending in a line feed, read in one piece, parses as the text itself |
| Server.ReceiveGetExample | src/main/java/com/github/pk11/rnio/HttpServer.java:47 | the example GET request's bytes fit one buffer and parse to the request they spell |
| Server.DemoExchange | src/main/java/com/github/pk11/rnio/HttpServer.java:44-49 | the example GET request read from an open channel reaches the demo handler with a fresh response |

## Left out

- The selector loop (`run`, lines 71-116), the constructor that binds the listening socket (61-69), `openSelector` and `openChannel`: these are OS I/O. The model starts at one readable event.
- Accepting connections and the socket options set on accept: OS I/O.
- The Reactor event bus between the loop and the consumer (lines 35-38, 42): it is replaced by a direct call, `Server.OnReadable`.
- `sneakyThrow`: an exception is a value returned with the state at the point it was thrown. The consumer's `printStackTrace` (line 51), `DemoHandler`'s `System.out.println("hello reactor...")` (line 319) and `main` are output only.
- What happens to a channel after an escaping exception: the loop's catch blocks are I/O. The model reports the exception and the channel as this code leaves it.
- `new Date().toString()`: the clock is a parameter.
- `toBuffer`'s `ByteBuffer` handling: a read is a sequence of at most 2048 bytes, or the end of stream. An `IOException` thrown by `channel.read` itself (line 135), such as a connection reset, is not modelled: it is an I/O failure of the socket.
- Partial writes and I/O errors other than a closed channel: each `channel.write` is taken to write every byte in one call.
- The default charset: `content` uses `getBytes()`, and the model assumes UTF-8 for it as for `writeLine`. Strings here are sequences of Unicode scalar values, so lone surrogates cannot be represented.
- Text.ToUpper: only ASCII letters are mapped. The method text comes from `read`'s `(char)` cast, which yields only U+0000..U+007F and U+FF80..U+FFFF, and no character in those ranges has a non-ASCII upper-case mapping. Only a default locale with special rules, such as the Turkish dotted `i`, could make `toUpperCase` differ, and the locale is not modelled.
- Null header values and null arguments to the mutators: Java `null` strings and arrays are not modelled, except the body before `content` is called.
- The VM's maximum array size and `OutOfMemoryError`: sequences longer than `MaxInt` are representable in the model although no Java array is that long.
- The request's `HashMap` iteration order: the map is a finite map, because nothing in the core iterates it.

## Findings

| source | as written | input that shows it | evidently intended | confidence | as-written member | corrected member |
|---|---|---|---|---|---|---|
| src/main/java/com/github/pk11/rnio/HttpServer.java:244 | `System.arraycopy(content, 0, content, this.raw.length, content.length)` copies `content` onto itself, so `combined` keeps zeros after the old body | after `content("")` the body is `[]`, and `append([1])` leaves the body `[0]`; body `[1]` and `append([2])` throws `ArrayIndexOutOfBoundsException`, so a second `writeChunk` after a non-empty one throws before `flushChunks` | copy `content` into `combined` at offset `raw.length`, giving old body + content | high (not executed) | HttpResponse.AppendDefect | HttpResponse.AppendIntended |
| src/main/java/com/github/pk11/rnio/HttpServer.java:249-256 | `writeChunk` relies on the defective `append`, so a stream of two non-empty chunks never reaches `flushChunks` | after `content("")`, `chunked`, `writeChunk([1])`, `writeChunk([2])`: the second call throws with both bytes on the wire and the channel open | the chunks go out in order and the trailing line reports their combined length | high (not executed) | Wire.SecondChunkThrows | Wire.TwoChunkSessionIntended |
