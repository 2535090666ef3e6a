/** `HttpServer.read(ByteBuffer)`: the bytes of one socket read become
    characters, and only complete `'\n'`-terminated lines are kept; a
    trailing partial line is dropped. */
module LineFilter {
  import opened Base
  import opened Text

  /** Reference definition: the text with its trailing unterminated line removed. */
  function WholeLines(s: string): (w: string)
    ensures |w| <= |s| && w == s[..|w|]
    ensures w == [] || w[|w| - 1] == '\n'
    ensures forall i :: |w| <= i < |s| ==> s[i] != '\n'
    decreases |s|
  {
    if |s| == 0 || s[|s| - 1] == '\n' then s else WholeLines(s[..|s| - 1])
  }

  /** The kept text is the longest prefix ending in a line feed, and it is
      empty exactly when the input holds no line feed. */
  lemma WholeLinesLongest(s: string)
    ensures WholeLines(s) == [] <==> '\n' !in s
    ensures forall k :: 0 <= k < |s| && s[k] == '\n' ==> k < |WholeLines(s)|
  {
    var w := WholeLines(s);
    if w != [] {
      assert s[|w| - 1] == w[|w| - 1];
    }
  }

  /** Filtering twice keeps what filtering once kept. */
  lemma WholeLinesIdempotent(s: string)
    ensures WholeLines(WholeLines(s)) == WholeLines(s)
  {
  }

  /** Whole lines followed by an unterminated tail filter back to the whole lines. */
  lemma {:induction false} WholeLinesDropsTail(w: string, t: string)
    requires w == [] || w[|w| - 1] == '\n'
    requires '\n' !in t
    ensures WholeLines(w + t) == w
    decreases |t|
  {
    if |t| == 0 {
      assert w + t == w;
    } else {
      assert (w + t)[..|w + t| - 1] == w + t[..|t| - 1];
      assert t[|t| - 1] in t;
      WholeLinesDropsTail(w, t[..|t| - 1]);
    }
  }

  /** The loop of `read`: each byte is cast to a char and appended to the
      current line, which moves to the result when it ends in `'\n'`. */
  method Read(buffer: seq<Byte>) returns (text: string)
    ensures text == WholeLines(Chars(buffer))
    ensures |text| <= |buffer|
    ensures text == Chars(buffer)[..|text|]
  {
    var lines: string := [];
    var l: string := [];
    var i := 0;
    while i < |buffer|
      invariant 0 <= i <= |buffer|
      invariant lines + l == Chars(buffer[..i])
      invariant lines == [] || lines[|lines| - 1] == '\n'
      invariant '\n' !in l
    {
      var c := ByteToChar(buffer[i]);
      assert Chars(buffer[..i + 1]) == Chars(buffer[..i]) + [c];
      l := l + [c];
      if c == '\n' {
        lines := lines + l;
        l := [];
      }
      i := i + 1;
    }
    assert buffer[..i] == buffer;
    WholeLinesDropsTail(lines, l);
    text := lines;
  }
}
