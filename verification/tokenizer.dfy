/** `java.util.StringTokenizer` with its default delimiters, as the request
    parser uses it: tokens are maximal runs of non-delimiter characters, and
    `nextToken` fails once only delimiters are left. */
module Tokenizer {
  import opened Base

  /** The default delimiter set: space, tab, line feed, carriage return, form feed. */
  predicate IsDelimiter(c: char)
    ensures IsDelimiter(c) ==> c as int <= 0x20
  {
    c == ' ' || c == '\t' || c == '\n' || c == '\r' || c == '\U{000C}'
  }

  predicate AllDelimiters(s: string) {
    forall i :: 0 <= i < |s| ==> IsDelimiter(s[i])
  }

  predicate NoDelimiter(s: string) {
    forall i :: 0 <= i < |s| ==> !IsDelimiter(s[i])
  }

  /** The first non-delimiter position at or after `pos`. */
  function SkipDelimiters(s: string, pos: nat): (p: nat)
    requires pos <= |s|
    ensures pos <= p <= |s|
    ensures forall i :: pos <= i < p ==> IsDelimiter(s[i])
    ensures p == |s| || !IsDelimiter(s[p])
    decreases |s| - pos
  {
    if pos == |s| || !IsDelimiter(s[pos]) then pos else SkipDelimiters(s, pos + 1)
  }

  /** The first delimiter position at or after `pos`. */
  function ScanToken(s: string, pos: nat): (p: nat)
    requires pos <= |s|
    ensures pos <= p <= |s|
    ensures forall i :: pos <= i < p ==> !IsDelimiter(s[i])
    ensures p == |s| || IsDelimiter(s[p])
    decreases |s| - pos
  {
    if pos == |s| || IsDelimiter(s[pos]) then pos else ScanToken(s, pos + 1)
  }

  /** `nextToken()` from position `pos`: the token and the position after it. */
  function NextToken(s: string, pos: nat): (r: Result<(string, nat)>)
    requires pos <= |s|
    ensures r.Failure? <==> AllDelimiters(s[pos..])
    ensures r.Failure? ==> r.error == NoSuchElement
    ensures r.Success? ==> pos < r.value.1 <= |s|
    ensures r.Success? ==> var (t, e) := r.value;
      && |t| >= 1 && |t| <= e - pos
      && t == s[e - |t|..e]
      && NoDelimiter(t)
      && AllDelimiters(s[pos..e - |t|])
      && (e == |s| || IsDelimiter(s[e]))
  {
    var start := SkipDelimiters(s, pos);
    if start == |s| then
      Failure(NoSuchElement)
    else
      var end := ScanToken(s, start);
      assert !AllDelimiters(s[pos..]) by {
        assert s[pos..][start - pos] == s[start];
      }
      Success((s[start..end], end))
  }

  /** Every token `nextToken` would hand out from `pos` onwards, in order. */
  function TokensFrom(s: string, pos: nat): seq<string>
    requires pos <= |s|
    decreases |s| - pos
  {
    match NextToken(s, pos)
    case Failure(_) => []
    case Success((t, e)) => [t] + TokensFrom(s, e)
  }

  function Tokens(s: string): seq<string> {
    TokensFrom(s, 0)
  }

  /** Reference definition: the text cut at every delimiter, empty pieces kept. */
  function Pieces(s: string): (ps: seq<string>)
    ensures |ps| >= 1
    decreases |s|
  {
    if |s| == 0 then [""]
    else
      var rest := Pieces(s[1..]);
      if IsDelimiter(s[0]) then [""] + rest else [[s[0]] + rest[0]] + rest[1..]
  }

  function NonEmpty(ps: seq<string>): seq<string> {
    if |ps| == 0 then []
    else if ps[0] == "" then NonEmpty(ps[1..])
    else [ps[0]] + NonEmpty(ps[1..])
  }

  /** The tokens as a specification: the non-empty pieces between delimiters. */
  function Fields(s: string): seq<string> {
    NonEmpty(Pieces(s))
  }

  lemma NextTokenSkipsDelimiter(s: string, pos: nat)
    requires pos < |s| && IsDelimiter(s[pos])
    ensures NextToken(s, pos) == NextToken(s, pos + 1)
  {
    assert SkipDelimiters(s, pos) == SkipDelimiters(s, pos + 1);
  }

  /** One step of `Pieces` on the suffix starting at `pos`. */
  lemma PiecesAt(s: string, pos: nat)
    requires pos < |s|
    ensures var rest := Pieces(s[pos + 1..]);
      Pieces(s[pos..]) == if IsDelimiter(s[pos]) then [""] + rest else [[s[pos]] + rest[0]] + rest[1..]
  {
    assert s[pos..][1..] == s[pos + 1..];
  }

  /** A delimiter at `pos` adds no token and no field. */
  lemma TokensStepDelimiter(s: string, pos: nat)
    requires pos < |s| && IsDelimiter(s[pos])
    requires TokensFrom(s, pos + 1) == Fields(s[pos + 1..])
    ensures TokensFrom(s, pos) == Fields(s[pos..])
  {
    var rest := Pieces(s[pos + 1..]);
    PiecesAt(s, pos);
    NextTokenSkipsDelimiter(s, pos);
    assert ([""] + rest)[1..] == rest;
  }

  /** A token of one character at `pos` is the first field. */
  lemma TokensStepSingle(s: string, pos: nat)
    requires pos < |s| && !IsDelimiter(s[pos]) && ScanToken(s, pos) == pos + 1
    requires TokensFrom(s, pos + 1) == Fields(s[pos + 1..])
    ensures TokensFrom(s, pos) == Fields(s[pos..])
  {
    var rest := Pieces(s[pos + 1..]);
    PiecesAt(s, pos);
    var e := pos + 1;
    assert SkipDelimiters(s, pos) == pos;
    assert NextToken(s, pos) == Success((s[pos..e], e));
    var head := [s[pos]] + rest[0];
    assert ([head] + rest[1..])[1..] == rest[1..];
    assert rest[0] == "" by {
      if pos + 1 < |s| {
        assert s[pos + 1..][1..] == s[pos + 2..];
      }
    }
    assert NonEmpty(rest) == NonEmpty(rest[1..]);
    assert head == s[pos..e];
  }

  /** A token longer than one character at `pos`: the first field is the
      character at `pos` before the first field from `pos + 1`. */
  lemma TokensStepLonger(s: string, pos: nat)
    requires pos < |s| && !IsDelimiter(s[pos]) && ScanToken(s, pos) > pos + 1
    requires TokensFrom(s, pos + 1) == Fields(s[pos + 1..])
    ensures TokensFrom(s, pos) == Fields(s[pos..])
  {
    var rest := Pieces(s[pos + 1..]);
    var e := ScanToken(s, pos);
    assert ScanToken(s, pos + 1) == e;
    TokensFromAtToken(s, pos);
    TokensFromAtToken(s, pos + 1);
    var later := TokensFrom(s, e);
    PiecesAt(s, pos + 1);
    assert rest == [rest[0]] + rest[1..];
    NonEmptyCons(rest[0], rest[1..]);
    assert rest[0] == s[pos + 1..e] && later == NonEmpty(rest[1..]) by {
      assert ([s[pos + 1..e]] + later)[0] == s[pos + 1..e];
      assert ([s[pos + 1..e]] + later)[1..] == later;
    }
    var head := [s[pos]] + rest[0];
    assert head == s[pos..e];
    PiecesAt(s, pos);
    NonEmptyCons(head, rest[1..]);
  }

  lemma NonEmptyCons(x: string, xs: seq<string>)
    requires x != ""
    ensures NonEmpty([x] + xs) == [x] + NonEmpty(xs)
  {
    assert ([x] + xs)[1..] == xs;
  }

  /** At a non-delimiter, the next token runs up to the next delimiter. */
  lemma TokensFromAtToken(s: string, pos: nat)
    requires pos < |s| && !IsDelimiter(s[pos])
    ensures TokensFrom(s, pos) == [s[pos..ScanToken(s, pos)]] + TokensFrom(s, ScanToken(s, pos))
  {
    NextTokenIs(s, pos, pos, ScanToken(s, pos));
  }

  lemma {:induction false} TokensFromAreFields(s: string, pos: nat)
    requires pos <= |s|
    ensures TokensFrom(s, pos) == Fields(s[pos..])
    decreases |s| - pos
  {
    if pos == |s| {
      assert s[pos..] == [];
    } else {
      TokensFromAreFields(s, pos + 1);
      if IsDelimiter(s[pos]) {
        TokensStepDelimiter(s, pos);
      } else if ScanToken(s, pos) == pos + 1 {
        TokensStepSingle(s, pos);
      } else {
        TokensStepLonger(s, pos);
      }
    }
  }

  /** `StringTokenizer` hands out exactly the non-empty pieces between delimiters. */
  lemma TokensAreFields(s: string)
    ensures Tokens(s) == Fields(s)
  {
    TokensFromAreFields(s, 0);
    assert s[0..] == s;
  }

  /** Appending delimiters does not change `nextToken` at any position before them. */
  lemma {:induction false} NextTokenPadded(s: string, d: string, pos: nat)
    requires pos <= |s|
    requires AllDelimiters(d)
    ensures NextToken(s + d, pos) == NextToken(s, pos)
    decreases |s| - pos
  {
    var t := s + d;
    if pos < |s| && IsDelimiter(s[pos]) {
      NextTokenSkipsDelimiter(s, pos);
      NextTokenSkipsDelimiter(t, pos);
      NextTokenPadded(s, d, pos + 1);
    } else if pos == |s| {
      assert t[pos..] == d;
      assert s[pos..] == [];
    } else {
      assert SkipDelimiters(s, pos) == pos;
      assert SkipDelimiters(t, pos) == pos;
      ScanTokenPadded(s, d, pos);
      assert t[pos..ScanToken(s, pos)] == s[pos..ScanToken(s, pos)];
    }
  }

  lemma {:induction false} ScanTokenPadded(s: string, d: string, pos: nat)
    requires pos <= |s|
    requires AllDelimiters(d)
    ensures ScanToken(s + d, pos) == ScanToken(s, pos)
    decreases |s| - pos
  {
    var t := s + d;
    if pos == |s| {
      if |d| > 0 {
        assert IsDelimiter(t[pos]) by {
          assert t[pos] == d[0];
        }
      }
    } else if !IsDelimiter(s[pos]) {
      ScanTokenPadded(s, d, pos + 1);
    }
  }

  lemma {:induction false} TokensFromPadded(s: string, d: string, pos: nat)
    requires pos <= |s|
    requires AllDelimiters(d)
    ensures TokensFrom(s + d, pos) == TokensFrom(s, pos)
    decreases |s| - pos
  {
    NextTokenPadded(s, d, pos);
    match NextToken(s, pos)
    case Failure(_) =>
    case Success((t, e)) => TokensFromPadded(s, d, e);
  }

  /** `nextToken` from `pos` returns the run `s[start..end]` when only delimiters
      precede it and a delimiter or the end of the text follows it. */
  lemma NextTokenIs(s: string, pos: nat, start: nat, end: nat)
    requires pos <= start < end <= |s|
    requires forall i :: pos <= i < start ==> IsDelimiter(s[i])
    requires forall i :: start <= i < end ==> !IsDelimiter(s[i])
    requires end == |s| || IsDelimiter(s[end])
    ensures NextToken(s, pos) == Success((s[start..end], end))
  {
    var p := SkipDelimiters(s, pos);
    assert !IsDelimiter(s[start]);
    var q := ScanToken(s, start);
  }
}
