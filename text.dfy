/**
 * The few pieces of Python's `str` that the behaviour parser relies on:
 * `isspace`, `strip()`, `startswith`, `split()` with no separator and
 * `splitlines()`.  The model's strings hold Unicode scalar values only; the lone
 * surrogates a Python `str` can also hold are not represented.
 */
module Text {

  /** Python's `str.isspace()` on one character. */
  predicate IsSpace(c: char) {
    || c == ' ' || c == '\t' || c == '\n' || c == '\r'
    || c == '\U{000B}' || c == '\U{000C}'
    || ('\U{001C}' <= c <= '\U{001F}')
    || c == '\U{0085}' || c == '\U{00A0}' || c == '\U{1680}'
    || ('\U{2000}' <= c <= '\U{200A}')
    || c == '\U{2028}' || c == '\U{2029}' || c == '\U{202F}' || c == '\U{205F}' || c == '\U{3000}'
  }

  /** The line boundaries at which Python's `str.splitlines()` cuts. */
  predicate IsLineBreak(c: char) {
    || c == '\n' || c == '\r'
    || c == '\U{000B}' || c == '\U{000C}'
    || ('\U{001C}' <= c <= '\U{001E}')
    || c == '\U{0085}' || c == '\U{2028}' || c == '\U{2029}'
  }

  lemma LineBreakIsSpace(c: char)
    ensures IsLineBreak(c) ==> IsSpace(c)
  {}

  predicate AllSpace(s: string) {
    forall i :: 0 <= i < |s| ==> IsSpace(s[i])
  }

  predicate NoSpace(s: string) {
    forall i :: 0 <= i < |s| ==> !IsSpace(s[i])
  }

  predicate NoLineBreak(s: string) {
    forall i :: 0 <= i < |s| ==> !IsLineBreak(s[i])
  }

  /** Neither end of `s` is white space (vacuously so for the empty string). */
  predicate Trimmed(s: string) {
    s == [] || (!IsSpace(s[0]) && !IsSpace(s[|s| - 1]))
  }

  predicate StartsWith(s: string, prefix: string) {
    |prefix| <= |s| && s[..|prefix|] == prefix
  }

  /** The first index at or after `i` that does not hold white space, or `|s|`. */
  function SpaceEnd(s: string, i: nat): (k: nat)
    requires i <= |s|
    ensures i <= k <= |s|
    ensures forall j :: i <= j < k ==> IsSpace(s[j])
    ensures k < |s| ==> !IsSpace(s[k])
    decreases |s| - i
  {
    if i < |s| && IsSpace(s[i]) then SpaceEnd(s, i + 1) else i
  }

  /** The least index `k <= j` such that `s[k..j]` is all white space. */
  function SpaceStart(s: string, j: nat): (k: nat)
    requires j <= |s|
    ensures k <= j
    ensures forall i :: k <= i < j ==> IsSpace(s[i])
    ensures k > 0 ==> !IsSpace(s[k - 1])
  {
    if j > 0 && IsSpace(s[j - 1]) then SpaceStart(s, j - 1) else j
  }

  /** `s` without its leading white space. */
  function TrimLeft(s: string): (r: string)
    ensures r == [] || !IsSpace(r[0])
  {
    s[SpaceEnd(s, 0)..]
  }

  /** Outside the two cut points of `Strip` there is only white space. */
  lemma StripOuter(s: string, i: nat, j: nat)
    requires i == SpaceEnd(s, 0) && j == SpaceStart(s, |s|)
    ensures AllSpace(s[..i]) && AllSpace(s[j..])
  {
    forall k | 0 <= k < i ensures IsSpace(s[..i][k]) {
      assert s[..i][k] == s[k];
    }
    forall k | 0 <= k < |s| - j ensures IsSpace(s[j..][k]) {
      assert s[j..][k] == s[j + k];
    }
  }

  /** The cut points of `Strip` cross exactly when `s` is all white space. */
  lemma StripCross(s: string, i: nat, j: nat)
    requires i == SpaceEnd(s, 0) && j == SpaceStart(s, |s|)
    ensures i < j <==> !AllSpace(s)
  {
    if AllSpace(s) {
      assert i == |s|;
    } else {
      var k :| 0 <= k < |s| && !IsSpace(s[k]);
      assert i <= k < j;
    }
  }

  /** A slice whose first and last characters are not white space is trimmed. */
  lemma StripMiddle(s: string, i: nat, j: nat)
    requires j <= |s|
    requires i < |s| ==> !IsSpace(s[i])
    requires j > 0 ==> !IsSpace(s[j - 1])
    ensures i < j ==> Trimmed(s[i..j])
  {
    if i < j {
      var m := s[i..j];
      assert m[0] == s[i];
      assert m[|m| - 1] == s[j - 1];
    }
  }

  /** On a trimmed non-empty `s` the cut points of `Strip` are its two ends. */
  lemma StripTrimmedEnds(s: string, i: nat, j: nat)
    requires i == SpaceEnd(s, 0) && j == SpaceStart(s, |s|)
    ensures Trimmed(s) && s != [] ==> i == 0 && j == |s|
  {
  }

  /** Python's `str.strip()`: the longest infix of `s` with no white space at either end. */
  function Strip(s: string): (r: string)
    ensures Trimmed(r)
    ensures r == [] <==> AllSpace(s)
    ensures Trimmed(s) ==> r == s
    ensures exists i, j :: 0 <= i <= j <= |s| && r == s[i..j] && AllSpace(s[..i]) && AllSpace(s[j..])
    ensures forall c :: c in r ==> c in s
  {
    var i := SpaceEnd(s, 0);
    var j := SpaceStart(s, |s|);
    StripOuter(s, i, j);
    StripCross(s, i, j);
    StripMiddle(s, i, j);
    StripTrimmedEnds(s, i, j);
    if i < j then
      assert forall c :: c in s[i..j] ==> c in s by {
        forall c | c in s[i..j] ensures c in s {
          var k :| 0 <= k < j - i && s[i..j][k] == c;
          assert s[i + k] == c;
        }
      }
      s[i..j]
    else
      assert s[..0] == s[0..0] == [] && s[0..] == s;
      []
  }

  /** Index of the first line boundary of `s`, or `|s|` when there is none. */
  function LineEnd(s: string): (i: nat)
    ensures i <= |s|
    ensures i < |s| ==> IsLineBreak(s[i])
    ensures forall j :: 0 <= j < i ==> !IsLineBreak(s[j])
  {
    if s == [] || IsLineBreak(s[0]) then 0 else 1 + LineEnd(s[1..])
  }

  /**
   * Python's `str.splitlines()`: cut at every line boundary, `\r\n` counting as one,
   * with no empty line after a final boundary.
   */
  function SplitLines(s: string): (lines: seq<string>)
    ensures forall k :: 0 <= k < |lines| ==> NoLineBreak(lines[k])
    decreases |s|
  {
    if s == [] then []
    else
      var i := LineEnd(s);
      if i == |s| then [s]
      else
        var next := if s[i] == '\r' && i + 1 < |s| && s[i + 1] == '\n' then i + 2 else i + 1;
        [s[..i]] + SplitLines(s[next..])
  }

  /** Python's `"\n".join(lines)`. */
  function JoinLines(lines: seq<string>): string {
    if |lines| == 0 then ""
    else if |lines| == 1 then lines[0]
    else lines[0] + "\n" + JoinLines(lines[1..])
  }

  lemma LineEndOfLine(line: string, rest: string)
    requires NoLineBreak(line)
    requires rest == [] || IsLineBreak(rest[0])
    ensures LineEnd(line + rest) == |line|
  {
    if line != [] {
      assert (line + rest)[1..] == line[1..] + rest;
      LineEndOfLine(line[1..], rest);
    }
  }

  /** A line without line boundaries, on its own, splits into itself. */
  lemma SplitLinesSingle(line: string)
    requires line != [] && NoLineBreak(line)
    ensures SplitLines(line) == [line]
  {
    LineEndOfLine(line, []);
    assert line + [] == line;
  }

  /** A line without line boundaries followed by `\n` splits off as the first line. */
  lemma SplitLinesCons(line: string, rest: string)
    requires NoLineBreak(line)
    ensures SplitLines(line + "\n" + rest) == [line] + SplitLines(rest)
  {
    var s := line + "\n" + rest;
    LineEndOfLine(line, "\n" + rest);
    assert line + ("\n" + rest) == s;
    assert s[|line|] == '\n';
    assert s[..|line|] == line;
    assert s[|line| + 1..] == rest;
  }

  /** Splitting lines undoes joining them, for non-empty lines without line boundaries. */
  lemma {:induction false} SplitJoinLines(lines: seq<string>)
    requires forall k :: 0 <= k < |lines| ==> lines[k] != [] && NoLineBreak(lines[k])
    ensures SplitLines(JoinLines(lines)) == lines
  {
    if |lines| == 1 {
      SplitLinesSingle(lines[0]);
    } else if |lines| > 1 {
      SplitLinesCons(lines[0], JoinLines(lines[1..]));
      SplitJoinLines(lines[1..]);
      assert [lines[0]] + lines[1..] == lines;
    }
  }

  /** Index of the first white space in `s`, or `|s|` when there is none. */
  function TokenEnd(s: string): (i: nat)
    ensures i <= |s|
    ensures i < |s| ==> IsSpace(s[i])
    ensures forall j :: 0 <= j < i ==> !IsSpace(s[j])
  {
    if s == [] || IsSpace(s[0]) then 0 else 1 + TokenEnd(s[1..])
  }

  /** Python's `str.split()` with no separator: the maximal runs of non-white-space characters. */
  function SplitWs(s: string): (tokens: seq<string>)
    ensures forall k :: 0 <= k < |tokens| ==> tokens[k] != [] && NoSpace(tokens[k])
    decreases |s|
  {
    var t := TrimLeft(s);
    if t == [] then []
    else
      var i := TokenEnd(t);
      [t[..i]] + SplitWs(t[i..])
  }

  lemma TokenEndOfToken(token: string, rest: string)
    requires NoSpace(token)
    requires rest == [] || IsSpace(rest[0])
    ensures TokenEnd(token + rest) == |token|
  {
    if token != [] {
      assert (token + rest)[1..] == token[1..] + rest;
      TokenEndOfToken(token[1..], rest);
    }
  }

  /** Splitting `"a b"` on white space gives back the two tokens `a` and `b`. */
  lemma {:induction false} SplitWsPair(a: string, b: string)
    requires a != [] && NoSpace(a) && b != [] && NoSpace(b)
    ensures SplitWs(a + " " + b) == [a, b]
  {
    var rest := " " + b;
    calc {
      SplitWs(a + " " + b);
      { assert a + " " + b == a + rest; }
      SplitWs(a + rest);
      { SplitWsToken(a, rest); }
      [a] + SplitWs(TrimLeft(rest));
      { assert IsSpace(rest[0]) && rest[1] == b[0] && rest[1..] == b;
        assert SpaceEnd(rest, 0) == 1; }
      [a] + SplitWs(b);
      { SplitWsSingle(b); }
      [a, b];
    }
  }

  lemma SplitWsSingle(token: string)
    requires token != [] && NoSpace(token)
    ensures SplitWs(token) == [token]
  {
    SplitWsToken(token, []);
    assert token + [] == token;
    assert SplitWs(TrimLeft([])) == [];
  }

  /** A token at the front of `s`, followed by white space or nothing, is the first piece of `s.split()`. */
  lemma SplitWsToken(token: string, rest: string)
    requires token != [] && NoSpace(token)
    requires rest == [] || IsSpace(rest[0])
    ensures SplitWs(token + rest) == [token] + SplitWs(TrimLeft(rest))
  {
    var s := token + rest;
    assert s[0] == token[0];
    assert TrimLeft(s) == s;
    TokenEndOfToken(token, rest);
    assert s[..|token|] == token;
    assert s[|token|..] == rest;
    SplitWsSkipsSpace(rest);
  }

  lemma SplitWsSkipsSpace(s: string)
    ensures SplitWs(s) == SplitWs(TrimLeft(s))
  {
    var t := TrimLeft(s);
    assert t == [] || t[0] == s[SpaceEnd(s, 0)];
    assert TrimLeft(t) == t;
  }
}
