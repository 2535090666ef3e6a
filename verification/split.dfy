/** The two uses of Java's `String.split` in the request parser:
    `raw.split("\r\n")` (limit 0: trailing empty strings are removed, and
    a text with no separator comes back whole) and `line.split(":", 2)`. */
module Split {
  import opened Base
  import opened Text

  /** A carriage return followed by a line feed starts at index `i`. */
  predicate CrlfAt(s: string, i: int) {
    0 <= i && i + 1 < |s| && s[i] == '\r' && s[i + 1] == '\n'
  }

  predicate NoCrlf(s: string) {
    forall i :: 0 <= i < |s| ==> !CrlfAt(s, i)
  }

  /** Every piece is free of separators. */
  predicate AllNoCrlf(ps: seq<string>) {
    forall k :: 0 <= k < |ps| ==> NoCrlf(ps[k])
  }

  lemma AllNoCrlfConcat(a: seq<string>, b: seq<string>)
    requires AllNoCrlf(a) && AllNoCrlf(b)
    ensures AllNoCrlf(a + b)
  {
    forall k | 0 <= k < |a + b|
      ensures NoCrlf((a + b)[k])
    {
      if k < |a| {
        assert (a + b)[k] == a[k];
      } else {
        assert (a + b)[k] == b[k - |a|];
      }
    }
  }

  /** The leftmost separator at or after `from`, as the regex matcher finds it. */
  function IndexOfCrlf(s: string, from: nat): (r: Option<nat>)
    requires from <= |s|
    ensures r.Some? ==> from <= r.value && CrlfAt(s, r.value)
    ensures r.Some? ==> forall j :: from <= j < r.value ==> !CrlfAt(s, j)
    ensures r.None? <==> forall j :: from <= j < |s| ==> !CrlfAt(s, j)
    decreases |s| - from
  {
    if from + 1 >= |s| then None
    else if s[from] == '\r' && s[from + 1] == '\n' then assert CrlfAt(s, from); Some(from)
    else IndexOfCrlf(s, from + 1)
  }

  /** The leftmost separator is found wherever it is. */
  lemma FirstCrlf(s: string, i: nat)
    requires CrlfAt(s, i)
    requires forall j :: 0 <= j < i ==> !CrlfAt(s, j)
    ensures IndexOfCrlf(s, 0) == Some(i)
  {
  }

  /** All pieces between separators, empty ones included (`split` with limit -1). */
  function SplitCrlf(s: string): (ps: seq<string>)
    ensures |ps| >= 1
    decreases |s|
  {
    match IndexOfCrlf(s, 0)
    case None => [s]
    case Some(i) => [s[..i]] + SplitCrlf(s[i + 2..])
  }

  /** The pieces separated again by CRLF. */
  function Join(ps: seq<string>): string
  {
    if |ps| == 0 then ""
    else if |ps| == 1 then ps[0]
    else ps[0] + CRLF + Join(ps[1..])
  }

  /** Splitting loses nothing: joining the pieces gives the text back. */
  lemma {:induction false} JoinSplit(s: string)
    ensures Join(SplitCrlf(s)) == s
    decreases |s|
  {
    match IndexOfCrlf(s, 0)
    case None =>
    case Some(i) =>
      var rest := SplitCrlf(s[i + 2..]);
      JoinSplit(s[i + 2..]);
      assert SplitCrlf(s) == [s[..i]] + rest;
      assert Join(SplitCrlf(s)) == s[..i] + CRLF + Join(rest);
      assert s == s[..i] + CRLF + s[i + 2..];
  }

  /** No piece holds a separator. */
  lemma {:induction false} SplitPiecesHaveNoCrlf(s: string)
    ensures forall k :: 0 <= k < |SplitCrlf(s)| ==> NoCrlf(SplitCrlf(s)[k])
    decreases |s|
  {
    match IndexOfCrlf(s, 0)
    case None =>
    case Some(i) =>
      SplitPiecesHaveNoCrlf(s[i + 2..]);
      assert forall j :: 0 <= j < i ==> !CrlfAt(s, j);
      forall j | 0 <= j < i
        ensures !CrlfAt(s[..i], j)
      {
        assert !CrlfAt(s, j);
      }
  }

  /** The separator right after a piece without one is the first one. */
  lemma FirstCrlfAfter(p: string, rest: string)
    requires NoCrlf(p)
    ensures IndexOfCrlf(p + CRLF + rest, 0) == Some(|p|)
  {
    var s := p + CRLF + rest;
    assert CrlfAt(s, |p|);
    forall j | 0 <= j < |p|
      ensures !CrlfAt(s, j)
    {
      if j + 1 < |p| {
        assert !CrlfAt(p, j);
      }
    }
    FirstCrlf(s, |p|);
  }

  /** Joining pieces that hold no separator and splitting again gives them back. */
  lemma {:induction false} SplitJoin(ps: seq<string>)
    requires |ps| >= 1
    requires AllNoCrlf(ps)
    ensures SplitCrlf(Join(ps)) == ps
    decreases |ps|
  {
    if |ps| == 1 {
      assert IndexOfCrlf(ps[0], 0).None?;
    } else {
      var s := Join(ps);
      FirstCrlfAfter(ps[0], Join(ps[1..]));
      assert s[..|ps[0]|] == ps[0];
      assert s[|ps[0]| + 2..] == Join(ps[1..]);
      SplitJoin(ps[1..]);
    }
  }

  /** Java's removal of trailing empty strings when the limit is 0. */
  function DropTrailingEmpty(ps: seq<string>): (r: seq<string>)
    ensures |r| <= |ps| && r == ps[..|r|]
    ensures |r| == 0 || r[|r| - 1] != ""
    ensures forall k :: |r| <= k < |ps| ==> ps[k] == ""
  {
    if |ps| > 0 && ps[|ps| - 1] == "" then DropTrailingEmpty(ps[..|ps| - 1]) else ps
  }

  /** `s.split("\r\n")`: the whole text when no separator occurs, otherwise
      the pieces with trailing empty ones removed. */
  function SplitLines(s: string): (ls: seq<string>)
    ensures IndexOfCrlf(s, 0).None? ==> |ls| == 1 && ls[0] == s
    ensures |ls| <= |SplitCrlf(s)| && ls == SplitCrlf(s)[..|ls|]
    ensures forall k :: |ls| <= k < |SplitCrlf(s)| ==> SplitCrlf(s)[k] == ""
    ensures IndexOfCrlf(s, 0).Some? ==> ls == [] || ls[|ls| - 1] != ""
  {
    var ps := SplitCrlf(s);
    if |ps| == 1 then ps else DropTrailingEmpty(ps)
  }

  /** A text that holds no separator comes back as its only line, even when empty. */
  lemma SplitLinesNoSeparator(s: string)
    requires NoCrlf(s)
    ensures SplitLines(s) == [s]
  {
    assert IndexOfCrlf(s, 0).None?;
  }

  /** A text with no separator, followed by one, splits into itself and an empty piece. */
  lemma SplitCrlfOnePiece(s: string)
    requires IndexOfCrlf(s, 0).None?
    ensures SplitCrlf(s + CRLF) == [s, ""]
  {
    var t := s + CRLF;
    FirstCrlfAfter(s, "");
    assert t == s + CRLF + "";
    assert t[|s| + 2..] == "";
    assert IndexOfCrlf("", 0).None?;
  }

  /** Appending text after the first separator does not move it. */
  lemma FirstCrlfExtended(s: string, i: nat, u: string)
    requires IndexOfCrlf(s, 0) == Some(i)
    ensures IndexOfCrlf(s + u, 0) == Some(i)
  {
    var t := s + u;
    assert CrlfAt(t, i);
    forall j | 0 <= j < i
      ensures !CrlfAt(t, j)
    {
      assert !CrlfAt(s, j);
    }
    FirstCrlf(t, i);
  }

  /** A separator at the end adds one empty piece and changes nothing before it. */
  lemma {:induction false} SplitCrlfTrailing(s: string)
    ensures SplitCrlf(s + CRLF) == SplitCrlf(s) + [""]
    decreases |s|
  {
    var t := s + CRLF;
    match IndexOfCrlf(s, 0)
    case None =>
      SplitCrlfOnePiece(s);
    case Some(i) =>
      FirstCrlfExtended(s, i, CRLF);
      assert t[..i] == s[..i];
      assert t[i + 2..] == s[i + 2..] + CRLF;
      SplitCrlfTrailing(s[i + 2..]);
  }

  /** `split` ignores one more trailing line break on a non-empty text. */
  lemma SplitLinesTrailingCrlf(s: string)
    requires s != ""
    ensures SplitLines(s + CRLF) == SplitLines(s)
  {
    var ps := SplitCrlf(s);
    SplitCrlfTrailing(s);
    var qs := ps + [""];
    assert qs[..|qs| - 1] == ps;
    if |ps| == 1 {
      assert ps == [s];
      assert DropTrailingEmpty(qs) == DropTrailingEmpty(ps);
    }
  }

  /** `line.split(":", 2)`: the text before the first colon and everything
      after it, or the whole line alone when it has no colon. */
  function SplitColon(line: string): (parts: seq<string>)
    ensures ':' !in line ==> parts == [line]
    ensures ':' in line ==> |parts| == 2 && ':' !in parts[0] && parts[0] + ":" + parts[1] == line
  {
    if ':' !in line then [line]
    else
      var i := IndexOfColon(line);
      assert line == line[..i] + ":" + line[i + 1..];
      [line[..i], line[i + 1..]]
  }

  function IndexOfColon(s: string): (i: nat)
    requires ':' in s
    ensures i < |s| && s[i] == ':' && ':' !in s[..i]
  {
    if s[0] == ':' then 0
    else
      assert ':' in s[1..];
      var j := IndexOfColon(s[1..]);
      assert s[..j + 1] == [s[0]] + s[1..][..j];
      j + 1
  }

  /** The split happens at the first colon, wherever it is. */
  lemma SplitColonAt(line: string, i: nat)
    requires i < |line| && line[i] == ':' && ':' !in line[..i]
    ensures SplitColon(line) == [line[..i], line[i + 1..]]
  {
    assert line[i] in line;
    var j := IndexOfColon(line);
  }

  lemma DropTwoTrailingEmpty(xs: seq<string>)
    requires |xs| > 0 && xs[|xs| - 1] != ""
    ensures DropTrailingEmpty(xs + ["", ""]) == xs
  {
    var ys := xs + ["", ""];
    assert ys[..|ys| - 1] == xs + [""];
    assert (xs + [""])[..|xs|] == xs;
  }
}
