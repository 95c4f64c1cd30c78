/**
 * The two pieces of Python's str API that the transport adapters rely on:
 * str.splitlines() (without keepends) and str.strip() (without arguments),
 * with the character classes each of them uses written out.
 */
module Text {

  /** The characters at which str.splitlines() ends a line ("\r\n" counts as one boundary). */
  const LineBreaks: set<char> :=
    {'\n', '\r', '\U{B}', '\U{C}', '\U{1C}', '\U{1D}', '\U{1E}', '\U{85}', '\U{2028}', '\U{2029}'}

  /** The other characters for which str.isspace() holds, outside the range U+2000..U+200A. */
  const Blanks: set<char> :=
    {' ', '\t', '\U{1F}', '\U{A0}', '\U{1680}', '\U{202F}', '\U{205F}', '\U{3000}'}

  predicate IsLineBreak(c: char) {
    c in LineBreaks
  }

  /** The characters for which str.isspace() holds, i.e. the ones str.strip() removes. */
  predicate IsWhitespace(c: char) {
    c in LineBreaks || c in Blanks || '\U{2000}' <= c <= '\U{200A}'
  }

  predicate AllWhitespace(s: string) {
    forall i :: 0 <= i < |s| ==> IsWhitespace(s[i])
  }

  predicate NoLineBreak(s: string) {
    forall i :: 0 <= i < |s| ==> !IsLineBreak(s[i])
  }

  // ---------------------------------------------------------------- strip

  /** s without its leading whitespace (str.lstrip()). */
  function TrimStart(s: string): (r: string)
    ensures |r| <= |s|
    decreases |s|
  {
    if s != [] && IsWhitespace(s[0]) then TrimStart(s[1..]) else s
  }

  /** lstrip removes a whitespace prefix, and exactly all of it. */
  lemma {:induction false} TrimStartSpec(s: string)
    ensures TrimStart(s) == s[|s| - |TrimStart(s)|..]
    ensures AllWhitespace(s[..|s| - |TrimStart(s)|])
    ensures TrimStart(s) != [] ==> !IsWhitespace(TrimStart(s)[0])
    decreases |s|
  {
    if s != [] && IsWhitespace(s[0]) {
      var r := TrimStart(s[1..]);
      var n := |s| - |r|;
      assert TrimStart(s) == r;
      TrimStartSpec(s[1..]);
      assert s[1..][n - 1..] == s[n..];
      var p := s[1..][..n - 1];
      assert AllWhitespace(p);
      assert s[..n] == [s[0]] + p;
      forall i | 0 <= i < n ensures IsWhitespace(s[..n][i]) {
        if i == 0 {
          assert s[..n][0] == s[0];
        } else {
          assert s[..n][i] == p[i - 1];
        }
      }
    } else {
      assert s[..0] == [];
    }
  }

  /** s without its trailing whitespace (str.rstrip()). */
  function TrimEnd(s: string): (r: string)
    ensures |r| <= |s|
    decreases |s|
  {
    if s != [] && IsWhitespace(s[|s| - 1]) then TrimEnd(s[..|s| - 1]) else s
  }

  /** rstrip removes a whitespace suffix, and exactly all of it. */
  lemma {:induction false} TrimEndSpec(s: string)
    ensures TrimEnd(s) == s[..|TrimEnd(s)|]
    ensures AllWhitespace(s[|TrimEnd(s)|..])
    ensures TrimEnd(s) != [] ==> !IsWhitespace(TrimEnd(s)[|TrimEnd(s)| - 1])
    decreases |s|
  {
    if s != [] && IsWhitespace(s[|s| - 1]) {
      var r := TrimEnd(s[..|s| - 1]);
      assert TrimEnd(s) == r;
      TrimEndSpec(s[..|s| - 1]);
      assert s[..|s| - 1][..|r|] == s[..|r|];
      var q := s[..|s| - 1][|r|..];
      assert AllWhitespace(q);
      forall j | 0 <= j < |s| - |r| ensures IsWhitespace(s[|r|..][j]) {
        if j < |s| - 1 - |r| {
          assert s[|r|..][j] == q[j];
        } else {
          assert s[|r|..][j] == s[|s| - 1];
        }
      }
    } else {
      assert s[|s|..] == [];
    }
  }

  /** str.strip(): s without leading and trailing whitespace. */
  function Strip(s: string): (r: string)
    ensures |r| <= |s|
    ensures r != [] ==> !IsWhitespace(r[0]) && !IsWhitespace(r[|r| - 1])
    ensures r == [] <==> AllWhitespace(s)
  {
    var t := TrimStart(s);
    TrimStartSpec(s);
    TrimEndSpec(t);
    var r := TrimEnd(t);
    assert r != [] ==> r[0] == t[0];
    assert r == [] ==> AllWhitespace(s) by {
      if r == [] {
        forall i | 0 <= i < |s| ensures IsWhitespace(s[i]) {
          assert s[i] == s[..|s| - |t|][i];
        }
      }
    }
    r
  }

  /**
   * An independent statement of what stripping means: t occurs in s at some
   * offset, everything before and after that occurrence is whitespace, and t
   * neither begins nor ends with whitespace.
   */
  ghost predicate IsTrimOf(t: string, s: string) {
    exists i :: 0 <= i <= |s| - |t| && IsTrimAt(t, s, i)
  }

  ghost predicate IsTrimAt(t: string, s: string, i: int)
    requires 0 <= i <= |s| - |t|
  {
    s[i..i + |t|] == t
    && AllWhitespace(s[..i]) && AllWhitespace(s[i + |t|..])
    && (t != [] ==> !IsWhitespace(t[0]) && !IsWhitespace(t[|t| - 1]))
  }

  /** Strip meets the independent statement. */
  lemma StripIsTrim(s: string)
    ensures IsTrimOf(Strip(s), s)
  {
    var t := TrimStart(s);
    var r := TrimEnd(t);
    TrimStartSpec(s);
    TrimEndSpec(t);
    var i := |s| - |t|;
    assert r == Strip(s);
    if r == [] {
      assert AllWhitespace(s);
      assert s[..|s|] == s;
      assert IsTrimAt(r, s, |s|);
    } else {
      assert s[i..i + |r|] == t[..|r|];
      assert s[i + |r|..] == t[|r|..];
      assert IsTrimAt(r, s, i);
    }
  }

  /** The independent statement determines its trimmed string uniquely. */
  lemma TrimIsUnique(t: string, u: string, s: string)
    requires IsTrimOf(t, s) && IsTrimOf(u, s)
    ensures t == u
  {
    var i :| 0 <= i <= |s| - |t| && IsTrimAt(t, s, i);
    var j :| 0 <= j <= |s| - |u| && IsTrimAt(u, s, j);
    if t == [] {
      TrimOfBlankIsEmpty(u, s, j, i);
    } else if u == [] {
      TrimOfBlankIsEmpty(t, s, i, j);
    } else {
      TrimBoundsAgree(t, u, s, i, j);
      TrimBoundsAgree(u, t, s, j, i);
      assert t == s[i..i + |t|];
    }
  }

  /** When the empty string is a trim of s at offset k, s is blank, and so every trim of s is empty. */
  lemma TrimOfBlankIsEmpty(v: string, s: string, j: int, k: int)
    requires 0 <= j <= |s| - |v| && IsTrimAt(v, s, j)
    requires 0 <= k <= |s| && IsTrimAt([], s, k)
    ensures v == []
  {
    TrimStartsOutsideBlanks(v, s, j);
    assert AllWhitespace(s) by {
      forall m | 0 <= m < |s| ensures IsWhitespace(s[m]) {
        if m < k { assert s[m] == s[..k][m]; } else { assert s[m] == s[k..][m - k]; }
      }
    }
  }

  /** A non-empty trim at offset i starts with the character s[i], which is not whitespace. */
  lemma TrimStartsOutsideBlanks(t: string, s: string, i: int)
    requires 0 <= i <= |s| - |t| && IsTrimAt(t, s, i)
    ensures t != [] ==> i < |s| && !IsWhitespace(s[i])
  {
    if t != [] {
      assert s[i] == s[i..i + |t|][0];
    }
  }

  /** Two non-empty trims of s cannot start or end at different places: t starts no later and ends no earlier than u. */
  lemma TrimBoundsAgree(t: string, u: string, s: string, i: int, j: int)
    requires t != [] && u != []
    requires 0 <= i <= |s| - |t| && IsTrimAt(t, s, i)
    requires 0 <= j <= |s| - |u| && IsTrimAt(u, s, j)
    ensures i <= j && j + |u| <= i + |t|
  {
    assert !IsWhitespace(s[j]) by {
      assert s[j] == s[j..j + |u|][0] == u[0];
    }
    forall m | 0 <= m < i ensures IsWhitespace(s[m]) {
      assert s[m] == s[..i][m];
    }
    var e := j + |u| - 1;
    assert !IsWhitespace(s[e]) by {
      assert s[e] == s[j..j + |u|][|u| - 1] == u[|u| - 1];
    }
    forall m | i + |t| <= m < |s| ensures IsWhitespace(s[m]) {
      assert s[m] == s[i + |t|..][m - i - |t|];
    }
  }

  /** str.strip() is idempotent. */
  lemma StripIdempotent(s: string)
    ensures Strip(Strip(s)) == Strip(s)
  {
    var r := Strip(s);
    StripIsTrim(r);
    assert r[0..|r|] == r;
    assert r[..0] == [] && r[|r|..] == [];
    assert IsTrimAt(r, r, 0);
    TrimIsUnique(Strip(r), r, r);
  }

  /** Stripping a string without line breaks leaves one without line breaks. */
  lemma StripKeepsNoLineBreak(s: string)
    requires NoLineBreak(s)
    ensures NoLineBreak(Strip(s))
  {
    var r := Strip(s);
    StripIsTrim(s);
    var i :| 0 <= i <= |s| - |r| && IsTrimAt(r, s, i);
    NoLineBreakSlice(s, i, i + |r|);
  }

  lemma NoLineBreakSlice(s: string, i: nat, j: nat)
    requires NoLineBreak(s) && i <= j <= |s|
    ensures NoLineBreak(s[i..j])
  {
    forall k | 0 <= k < j - i ensures !IsLineBreak(s[i..j][k]) {
      assert s[i..j][k] == s[i + k];
    }
  }

  /**
   * What StreamReader.readline() hands back is a line body followed by its
   * ending; when the body has no whitespace at its edges, stripping gives back
   * exactly the body.
   */
  lemma StripRemovesEnding(body: string, ending: string)
    requires body != [] ==> !IsWhitespace(body[0]) && !IsWhitespace(body[|body| - 1])
    requires AllWhitespace(ending)
    ensures Strip(body + ending) == body
  {
    var s := body + ending;
    assert s[0..|body|] == body && s[..0] == [] && s[|body|..] == ending;
    assert IsTrimAt(body, s, 0);
    StripIsTrim(s);
    TrimIsUnique(Strip(s), body, s);
  }

  // ----------------------------------------------------------- splitlines

  /** One line of str.splitlines(keepends=True): its body and the ending that closed it. */
  datatype Segment = Segment(body: string, ending: string)

  /** An ending str.splitlines() recognises: "\r\n", or one line-break character. */
  predicate IsLineEnding(e: string) {
    e == "\r\n" || (|e| == 1 && IsLineBreak(e[0]))
  }

  /** The index of the first line break in s, or |s| when there is none. */
  function BreakIndex(s: string): (k: nat)
    ensures k <= |s| && NoLineBreak(s[..k])
    ensures k < |s| ==> IsLineBreak(s[k])
    decreases |s|
  {
    if s == [] || IsLineBreak(s[0]) then 0
    else
      var k := BreakIndex(s[1..]);
      assert s[..k + 1] == [s[0]] + s[1..][..k];
      k + 1
  }

  /** How many characters the line boundary at index k spans: "\r\n" is one boundary. */
  function EndingLength(s: string, k: nat): (n: nat)
    requires k < |s| && IsLineBreak(s[k])
    ensures 1 <= n <= |s| - k && IsLineEnding(s[k..k + n])
    ensures n == 2 <==> s[k] == '\r' && k + 1 < |s| && s[k + 1] == '\n'
  {
    if s[k] == '\r' && k + 1 < |s| && s[k + 1] == '\n' then 2 else 1
  }

  /** str.splitlines(keepends=True), each line given as body and ending. */
  function Segments(s: string): (r: seq<Segment>)
    ensures |r| <= |s|
    ensures forall i :: 0 <= i < |r| ==> NoLineBreak(r[i].body)
    ensures forall i :: 0 <= i < |r| ==>
      IsLineEnding(r[i].ending) || (i == |r| - 1 && r[i].ending == [] && r[i].body != [])
    decreases |s|
  {
    if s == [] then []
    else
      var k := BreakIndex(s);
      if k == |s| then [Segment(s, [])]
      else
        var n := EndingLength(s, k);
        [Segment(s[..k], s[k..k + n])] + Segments(s[k + n..])
  }

  /** str.splitlines(): the line bodies, without their endings. */
  function SplitLines(s: string): (r: seq<string>)
    ensures |r| == |Segments(s)| <= |s|
    ensures forall i :: 0 <= i < |r| ==> NoLineBreak(r[i])
  {
    Bodies(Segments(s))
  }

  /** The bodies of a sequence of keepends lines, in order. */
  function Bodies(segs: seq<Segment>): (r: seq<string>)
    ensures |r| == |segs| && forall i :: 0 <= i < |segs| ==> r[i] == segs[i].body
  {
    if segs == [] then [] else [segs[0].body] + Bodies(segs[1..])
  }

  /** The text a sequence of keepends lines reassembles to. */
  function Join(segs: seq<Segment>): string {
    if segs == [] then [] else segs[0].body + segs[0].ending + Join(segs[1..])
  }

  /** Splitting loses nothing but the boundaries: joining the keepends lines gives s back. */
  lemma {:induction false} SegmentsJoin(s: string)
    ensures Join(Segments(s)) == s
    decreases |s|
  {
    if s != [] {
      var k := BreakIndex(s);
      if k == |s| {
        assert Segments(s) == [Segment(s, [])];
        JoinCons(Segment(s, []), []);
      } else {
        var n := EndingLength(s, k);
        var rest := s[k + n..];
        assert Segments(s) == [Segment(s[..k], s[k..k + n])] + Segments(rest);
        SegmentsJoin(rest);
        JoinCons(Segment(s[..k], s[k..k + n]), Segments(rest));
        Cut(s, k, n);
      }
    }
  }

  lemma Cut(s: string, k: nat, n: nat)
    requires k + n <= |s|
    ensures s == s[..k] + s[k..k + n] + s[k + n..]
  {}

  lemma JoinCons(seg: Segment, segs: seq<Segment>)
    ensures Join([seg] + segs) == seg.body + seg.ending + Join(segs)
  {
    assert ([seg] + segs)[1..] == segs;
  }

  /** A non-empty text without line breaks is one line with no ending. */
  lemma SegmentsOfUnbroken(s: string)
    requires s != [] && NoLineBreak(s)
    ensures Segments(s) == [Segment(s, [])]
  {
  }

  /** A line break other than a "\r" that begins "\r\n" closes a line by itself. */
  lemma SegmentsAtBreak(body: string, c: char, rest: string)
    requires NoLineBreak(body) && IsLineBreak(c)
    requires c == '\r' ==> rest == [] || rest[0] != '\n'
    ensures Segments(body + [c] + rest) == [Segment(body, [c])] + Segments(rest)
  {
    var s := body + [c] + rest;
    var k := |body|;
    assert s == body + ([c] + rest);
    BreakIndexAt(body, [c] + rest);
    assert s[k] == c;
    assert k + 1 < |s| ==> s[k + 1] == rest[0];
    assert EndingLength(s, k) == 1;
    assert s[..k] == body && s[k..k + 1] == [c] && s[k + 1..] == rest;
  }

  /** "\r\n" is a single boundary, not two. */
  lemma SegmentsAtCrLf(body: string, rest: string)
    requires NoLineBreak(body)
    ensures Segments(body + "\r\n" + rest) == [Segment(body, "\r\n")] + Segments(rest)
  {
    var s := body + "\r\n" + rest;
    var k := |body|;
    assert s == body + ("\r\n" + rest);
    BreakIndexAt(body, "\r\n" + rest);
    assert s[k] == '\r' && s[k + 1] == '\n';
    assert EndingLength(s, k) == 2;
    assert s[..k] == body && s[k..k + 2] == "\r\n" && s[k + 2..] == rest;
  }

  /** str.splitlines() at a single-character boundary: the first piece, then the pieces of the rest. */
  lemma SplitLinesAtBreak(body: string, c: char, rest: string)
    requires NoLineBreak(body) && IsLineBreak(c)
    requires c == '\r' ==> rest == [] || rest[0] != '\n'
    ensures SplitLines(body + [c] + rest) == [body] + SplitLines(rest)
  {
    SegmentsAtBreak(body, c, rest);
    var segs := Segments(rest);
    assert ([Segment(body, [c])] + segs)[1..] == segs;
  }

  /** str.splitlines() at a "\r\n" boundary. */
  lemma SplitLinesAtCrLf(body: string, rest: string)
    requires NoLineBreak(body)
    ensures SplitLines(body + "\r\n" + rest) == [body] + SplitLines(rest)
  {
    SegmentsAtCrLf(body, rest);
    var segs := Segments(rest);
    assert ([Segment(body, "\r\n")] + segs)[1..] == segs;
  }

  /** A text without line breaks is one piece, or none when it is empty. */
  lemma SplitLinesOfUnbroken(s: string)
    requires NoLineBreak(s)
    ensures SplitLines(s) == if s == [] then [] else [s]
  {
    if s != [] { SegmentsOfUnbroken(s); }
  }

  lemma BreakIndexAt(body: string, tail: string)
    requires NoLineBreak(body) && tail != [] && IsLineBreak(tail[0])
    ensures BreakIndex(body + tail) == |body|
  {
    var s := body + tail;
    var k := BreakIndex(s);
    assert s[|body|] == tail[0];
    assert forall m :: 0 <= m < |body| ==> s[m] == body[m];
  }

  /** A text is blank exactly when every line str.splitlines() gives is blank. */
  lemma {:induction false} BlankIffBlankLines(s: string)
    ensures AllWhitespace(s) <==> AllBlank(SplitLines(s))
    decreases |s|
  {
    if s != [] {
      var k := BreakIndex(s);
      if k == |s| {
        assert SplitLines(s) == [s];
        assert AllBlank([s]) <==> AllWhitespace([s][0]);
      } else {
        var n := EndingLength(s, k);
        var rest := s[k + n..];
        BlankIffBlankLines(rest);
        assert SplitLines(s) == [s[..k]] + SplitLines(rest) by {
          assert Segments(s) == [Segment(s[..k], s[k..k + n])] + Segments(rest);
          BodiesCons(Segment(s[..k], s[k..k + n]), Segments(rest));
        }
        BlankCons(s[..k], SplitLines(rest));
        Cut(s, k, n);
        LineEndingIsBlank(s[k..k + n]);
        WhitespaceConcat(s[..k], s[k..k + n]);
        WhitespaceConcat(s[..k] + s[k..k + n], rest);
      }
    }
  }

  lemma BodiesCons(seg: Segment, segs: seq<Segment>)
    ensures Bodies([seg] + segs) == [seg.body] + Bodies(segs)
  {
    assert ([seg] + segs)[1..] == segs;
  }

  /** Every string of the sequence is blank. */
  predicate AllBlank(lines: seq<string>) {
    forall i :: 0 <= i < |lines| ==> AllWhitespace(lines[i])
  }

  lemma BlankCons(line: string, lines: seq<string>)
    ensures AllBlank([line] + lines) <==> AllWhitespace(line) && AllBlank(lines)
  {
    if AllBlank([line] + lines) {
      assert AllWhitespace(([line] + lines)[0]);
      forall i | 0 <= i < |lines| ensures AllWhitespace(lines[i]) {
        assert lines[i] == ([line] + lines)[i + 1];
      }
    }
  }

  /** A line ending, or the missing ending of a last line, is whitespace. */
  lemma LineEndingIsBlank(e: string)
    requires IsLineEnding(e) || e == []
    ensures AllWhitespace(e)
  {}

  lemma WhitespaceConcat(a: string, b: string)
    ensures AllWhitespace(a + b) <==> AllWhitespace(a) && AllWhitespace(b)
  {
    if AllWhitespace(a + b) {
      forall i | 0 <= i < |a| ensures IsWhitespace(a[i]) { assert a[i] == (a + b)[i]; }
      forall i | 0 <= i < |b| ensures IsWhitespace(b[i]) { assert b[i] == (a + b)[|a| + i]; }
    }
    if AllWhitespace(a) && AllWhitespace(b) {
      forall i | 0 <= i < |a + b| ensures IsWhitespace((a + b)[i]) {
        if i < |a| { assert (a + b)[i] == a[i]; } else { assert (a + b)[i] == b[i - |a|]; }
      }
    }
  }
}
