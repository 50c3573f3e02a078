/**
 * ASCII character classes and the string helpers the script takes from
 * Python: `\d`, `\s`, `\w`, `str.lower`, `str.strip` and `str.splitlines`.
 * Python applies them to all of Unicode; this model keeps their ASCII part.
 */
module AsciiText {

  /** `\d`: a decimal digit. */
  predicate IsDigit(c: char) {
    '0' <= c <= '9'
  }

  /** `\s` and `str.strip`: the ASCII characters Python calls whitespace
      (space, tab, newline, vertical tab, form feed, carriage return and the
      four separators 0x1c to 0x1f). */
  predicate IsSpace(c: char) {
    c == ' ' || 9 <= c as int <= 13 || 28 <= c as int <= 31
  }

  /** `\w`: letters, digits and the underscore. */
  predicate IsWordChar(c: char) {
    IsDigit(c) || 'a' <= c <= 'z' || 'A' <= c <= 'Z' || c == '_'
  }

  /** The line boundaries `str.splitlines` knows in ASCII: `\n`, `\r`,
      vertical tab, form feed and the separators 0x1c to 0x1e. */
  predicate IsLineBreak(c: char) {
    c == '\n' || c == '\r' || c as int == 11 || c as int == 12 || 28 <= c as int <= 30
  }

  function LowerChar(c: char): (r: char)
    ensures 'A' <= c <= 'Z' ==> r as int == c as int + 32
    ensures !('A' <= c <= 'Z') ==> r == c
  {
    if 'A' <= c <= 'Z' then (c as int + 32) as char else c
  }

  predicate SpacesBetween(s: string, lo: nat, hi: nat)
    requires lo <= hi <= |s|
  {
    forall k :: lo <= k < hi ==> IsSpace(s[k])
  }

  predicate DigitsBetween(s: string, lo: nat, hi: nat)
    requires lo <= hi <= |s|
  {
    forall k :: lo <= k < hi ==> IsDigit(s[k])
  }

  /** `DIGITS_RE.match(s)` for `^\d+$`: one or more digits and nothing else.
      (The `$` would also accept one trailing newline; every string the
      script tests has already been stripped or is a digit run.) */
  predicate IsDigits(s: string)
    ensures IsDigits(s) ==> forall k :: 0 <= k < |s| ==> IsWordChar(s[k]) && !IsSpace(s[k])
  {
    |s| > 0 && DigitsBetween(s, 0, |s|)
  }

  /** `s[i:].lower().startswith("pmid")`, the marker of the pattern. */
  predicate IsMarkerAt(s: string, i: nat)
    ensures IsMarkerAt(s, i) ==> i < |s| && (s[i] == 'p' || s[i] == 'P') && IsWordChar(s[i])
  {
    i + 4 <= |s|
    && LowerChar(s[i]) == 'p' && LowerChar(s[i + 1]) == 'm'
    && LowerChar(s[i + 2]) == 'i' && LowerChar(s[i + 3]) == 'd'
  }

  /** `str.strip()` without its trailing half. */
  function StripStart(s: string): (r: string)
    ensures |r| <= |s| && r == s[|s| - |r|..]
    ensures SpacesBetween(s, 0, |s| - |r|)
    ensures r == [] || !IsSpace(r[0])
  {
    if s != [] && IsSpace(s[0]) then StripStart(s[1..]) else s
  }

  /** `str.strip()` without its leading half. */
  function StripEnd(s: string): (r: string)
    ensures |r| <= |s| && r == s[..|r|]
    ensures SpacesBetween(s, |r|, |s|)
    ensures r == [] || !IsSpace(r[|r| - 1])
  {
    if s != [] && IsSpace(s[|s| - 1]) then StripEnd(s[..|s| - 1]) else s
  }

  /** `str.strip()`: it is empty exactly when `s` is all whitespace, and
      otherwise starts and ends with a non-space. `StripIsTrimmedSlice` says
      which slice of `s` it is. */
  function Strip(s: string): (r: string)
    ensures |r| <= |s|
    ensures r == [] <==> SpacesBetween(s, 0, |s|)
    ensures r != [] ==> !IsSpace(r[0]) && !IsSpace(r[|r| - 1])
  {
    var t := StripStart(s);
    var r := StripEnd(t);
    assert r == [] ==> t == [];
    r
  }

  /** What `str.strip()` removes is whitespace at the two ends, and only
      that. */
  lemma StripIsTrimmedSlice(s: string)
    ensures exists a :: 0 <= a <= |s| - |Strip(s)| && Strip(s) == s[a..a + |Strip(s)|]
                        && SpacesBetween(s, 0, a) && SpacesBetween(s, a + |Strip(s)|, |s|)
  {
    var t := StripStart(s);
    var r := StripEnd(t);
    var a := |s| - |t|;
    SpacesInSuffix(s, a, |r|, |t|);
    assert r == s[a..a + |r|];
  }

  /** Spaces in a suffix of `s` are spaces of `s`, shifted by where the
      suffix starts. */
  lemma SpacesInSuffix(s: string, a: nat, lo: nat, hi: nat)
    requires a <= |s| && lo <= hi <= |s| - a && SpacesBetween(s[a..], lo, hi)
    ensures SpacesBetween(s, a + lo, a + hi)
  {
    forall k | a + lo <= k < a + hi ensures IsSpace(s[k]) {
      assert s[k] == s[a..][k - a];
    }
  }

  /** A string with no whitespace at either end is its own strip. */
  lemma StripUnchanged(s: string)
    requires s != [] && !IsSpace(s[0]) && !IsSpace(s[|s| - 1])
    ensures Strip(s) == s
  {
  }

  /** The first line boundary at or after `i`, or `|s|` if there is none. */
  function LineEnd(s: string, i: nat): (k: nat)
    requires i <= |s|
    ensures i <= k <= |s|
    ensures forall j :: i <= j < k ==> !IsLineBreak(s[j])
    ensures k < |s| ==> IsLineBreak(s[k])
    decreases |s| - i
  {
    if i == |s| || IsLineBreak(s[i]) then i else LineEnd(s, i + 1)
  }

  /** `str.splitlines()`: the lines of `s` without their boundaries; `\r\n`
      is one boundary, and a final boundary opens no empty last line. */
  function SplitLines(s: string): (lines: seq<string>)
    ensures lines == [] <==> s == []
    ensures forall n, j :: 0 <= n < |lines| && 0 <= j < |lines[n]| ==> !IsLineBreak(lines[n][j])
    decreases |s|
  {
    if s == [] then []
    else
      var k := LineEnd(s, 0);
      if k == |s| then [s]
      else
        var next := if s[k] == '\r' && k + 1 < |s| && s[k + 1] == '\n' then k + 2 else k + 1;
        [s[..k]] + SplitLines(s[next..])
  }

  /** `"\n".join(lines)`. */
  function JoinLines(lines: seq<string>): (s: string)
    ensures |lines| == 1 ==> s == lines[0]
  {
    if lines == [] then []
    else if |lines| == 1 then lines[0]
    else lines[0] + "\n" + JoinLines(lines[1..])
  }

  /** One step of `splitlines()` over a `\n` boundary. */
  lemma SplitLinesStep(s: string, k: nat)
    requires k < |s| && k == LineEnd(s, 0) && s[k] == '\n'
    ensures SplitLines(s) == [s[..k]] + SplitLines(s[k + 1..])
  {
  }

  /** One step of `"\n".join` in front of a non-empty list. */
  lemma JoinLinesStep(first: string, tail: seq<string>)
    requires tail != []
    ensures JoinLines([first] + tail) == first + "\n" + JoinLines(tail)
  {
    assert ([first] + tail)[1..] == tail;
  }

  /** A text whose only line boundaries are `\n`, and that does not end in
      one, is its lines joined back with `\n`. */
  lemma {:induction false} SplitLinesThenJoin(s: string)
    requires forall j :: 0 <= j < |s| && IsLineBreak(s[j]) ==> s[j] == '\n'
    requires s == [] || !IsLineBreak(s[|s| - 1])
    ensures JoinLines(SplitLines(s)) == s
    decreases |s|
  {
    if s != [] {
      var k := LineEnd(s, 0);
      if k < |s| {
        assert s[k] == '\n' && k + 1 < |s|;
        var rest := s[k + 1..];
        forall j | 0 <= j < |rest| && IsLineBreak(rest[j]) ensures rest[j] == '\n' {
          assert rest[j] == s[k + 1 + j];
        }
        assert rest[|rest| - 1] == s[|s| - 1];
        SplitLinesThenJoin(rest);
        var tail := SplitLines(rest);
        assert tail != [];
        SplitLinesStep(s, k);
        JoinLinesStep(s[..k], tail);
        CutAt(s, k);
      }
    }
  }

  /** Lines without boundaries, the last of them not empty, come back from
      `splitlines()` after `"\n".join`. */
  lemma {:induction false} JoinThenSplitLines(lines: seq<string>)
    requires lines != [] && lines[|lines| - 1] != []
    requires forall n, j :: 0 <= n < |lines| && 0 <= j < |lines[n]| ==> !IsLineBreak(lines[n][j])
    ensures SplitLines(JoinLines(lines)) == lines
    decreases |lines|
  {
    if |lines| > 1 {
      var first, others := lines[0], lines[1..];
      assert lines == [first] + others;
      assert others[|others| - 1] == lines[|lines| - 1];
      forall n, j | 0 <= n < |others| && 0 <= j < |others[n]| ensures !IsLineBreak(others[n][j]) {
        assert others[n] == lines[n + 1];
      }
      JoinThenSplitLines(others);
      var rest := JoinLines(others);
      JoinLinesStep(first, others);
      FirstLineEnd(first, rest);
      SplitLinesStep(first + "\n" + rest, |first|);
    }
  }

  /** `s` is the text before its `\n` at `k`, the `\n`, and the text after. */
  lemma CutAt(s: string, k: nat)
    requires k < |s| && s[k] == '\n'
    ensures s == s[..k] + "\n" + s[k + 1..]
  {
    assert s[k..k + 1] == "\n";
    assert s == s[..k] + s[k..k + 1] + s[k + 1..];
  }

  /** The first boundary of `first + "\n" + rest` ends `first` when `first`
      has none. */
  lemma FirstLineEnd(first: string, rest: string)
    requires forall j :: 0 <= j < |first| ==> !IsLineBreak(first[j])
    ensures LineEnd(first + "\n" + rest, 0) == |first|
    ensures (first + "\n" + rest)[|first|] == '\n'
    ensures (first + "\n" + rest)[..|first|] == first
    ensures (first + "\n" + rest)[|first| + 1..] == rest
  {
    var s := first + "\n" + rest;
    assert s[|first|] == '\n';
    assert forall j :: 0 <= j < |first| ==> s[j] == first[j];
  }
}
