/**
 * `PMID_RE = re.compile(r"\bPMID\s*:\s*(\d+)\b", re.IGNORECASE)` as a
 * scanner over a string, with `findall` and `search`.
 *
 * Backtracking never rescues a failed greedy attempt of this pattern: the
 * first `\s*` must be followed by `:`, the second by a digit, and between two
 * digits there is no word boundary. So matching at a position is a single
 * deterministic pass with maximal runs, which is what `MatchAt` does.
 */
module PmidPattern {
  import opened Wrappers
  import opened AsciiText

  /** Where a match sits: the marker `PMID` starts at `start`, the colon is
      at `colon`, and the captured digits are `s[digits..end]`. */
  datatype Span = Span(start: nat, colon: nat, digits: nat, end: nat)

  /** `s[m.start..m.end]` is a match of the pattern, read declaratively. */
  predicate IsMatchAt(s: string, m: Span)
  {
    && m.start + 4 <= m.colon < m.digits < m.end <= |s|
    && (m.start == 0 || !IsWordChar(s[m.start - 1]))   // \b before PMID
    && IsMarkerAt(s, m.start)                           // PMID, any case
    && SpacesBetween(s, m.start + 4, m.colon)           // \s*
    && s[m.colon] == ':'                                // :
    && SpacesBetween(s, m.colon + 1, m.digits)          // \s*
    && DigitsBetween(s, m.digits, m.end)                // (\d+)
    && (m.end == |s| || !IsWordChar(s[m.end]))          // \b after the digits
  }

  /** The group the pattern captures. */
  function Capture(s: string, m: Span): (id: string)
    requires IsMatchAt(s, m)
    ensures IsDigits(id)
  {
    var id := s[m.digits..m.end];
    assert forall k :: 0 <= k < |id| ==> id[k] == s[m.digits + k];
    id
  }

  /** No match starts in `[lo, hi)`. */
  ghost predicate NoMatchBetween(s: string, lo: nat, hi: nat) {
    forall m: Span :: lo <= m.start < hi ==> !IsMatchAt(s, m)
  }

  function SkipSpaces(s: string, i: nat): (j: nat)
    requires i <= |s|
    ensures i <= j <= |s| && SpacesBetween(s, i, j)
    ensures j == |s| || !IsSpace(s[j])
    decreases |s| - i
  {
    if i < |s| && IsSpace(s[i]) then SkipSpaces(s, i + 1) else i
  }

  function SkipDigits(s: string, i: nat): (j: nat)
    requires i <= |s|
    ensures i <= j <= |s| && DigitsBetween(s, i, j)
    ensures j == |s| || !IsDigit(s[j])
    decreases |s| - i
  {
    if i < |s| && IsDigit(s[i]) then SkipDigits(s, i + 1) else i
  }

  /** A match is fixed by where it starts: its colon ends the first run of
      spaces, its digits start after the second, and they run to the first
      non-digit. */
  lemma MatchDetermined(s: string, m: Span)
    requires IsMatchAt(s, m)
    ensures m.colon == SkipSpaces(s, m.start + 4)
    ensures m.digits == SkipSpaces(s, m.colon + 1)
    ensures m.end == SkipDigits(s, m.digits)
  {
    var c, d, e := SkipSpaces(s, m.start + 4), SkipSpaces(s, m.colon + 1), SkipDigits(s, m.digits);
  }

  /** A match begins with `p` or `P`, captures only digits, and is not
      followed by another digit. */
  lemma MatchBoundaries(s: string, m: Span)
    requires IsMatchAt(s, m)
    ensures m.start < m.end <= |s| && (s[m.start] == 'p' || s[m.start] == 'P')
    ensures IsDigits(Capture(s, m)) && (m.end == |s| || !IsDigit(s[m.end]))
  {
  }

  /** The regular expression tried at position `i`: it matches there exactly
      when some span starting at `i` is a match (`MatchAtFinds` adds that the
      span is the only one). */
  function MatchAt(s: string, i: nat): (r: Option<Span>)
    requires i <= |s|
    ensures r.Some? ==> r.value.start == i && IsMatchAt(s, r.value)
    ensures r.None? ==> NoMatchBetween(s, i, i + 1)
  {
    forall m: Span | m.start == i && IsMatchAt(s, m) { MatchDetermined(s, m); }
    if !IsMarkerAt(s, i) || (i > 0 && IsWordChar(s[i - 1])) then None
    else
      var c := SkipSpaces(s, i + 4);
      if c == |s| || s[c] != ':' then None
      else
        var d := SkipSpaces(s, c + 1);
        var e := SkipDigits(s, d);
        if e == d || (e < |s| && IsWordChar(s[e])) then None
        else Some(Span(i, c, d, e))
  }

  /** Two matches never overlap: inside a match there is no `p` that a word
      boundary precedes. */
  lemma {:induction false} MatchesDoNotOverlap(s: string, m1: Span, m2: Span)
    requires IsMatchAt(s, m1) && IsMatchAt(s, m2)
    requires m1.start <= m2.start < m1.end
    ensures m1 == m2
  {
    MatchDetermined(s, m1);
    MatchDetermined(s, m2);
  }

  /** Where a match starts, the pattern tried there finds exactly it. */
  lemma MatchAtFinds(s: string, m: Span)
    requires IsMatchAt(s, m)
    ensures MatchAt(s, m.start) == Some(m)
  {
    MatchDetermined(s, m);
    var r := MatchAt(s, m.start);
    if r.Some? {
      MatchDetermined(s, r.value);
    }
  }

  /** `PMID_RE.finditer(s)` from position `i`, as spans: every span is a
      match at or after `i`, and they come left to right without overlapping.
      `EveryMatchFound` shows that no match is missed. */
  function FindFrom(s: string, i: nat): (r: seq<Span>)
    requires i <= |s|
    ensures forall k :: 0 <= k < |r| ==> IsMatchAt(s, r[k]) && i <= r[k].start
    ensures forall j, k :: 0 <= j < k < |r| ==> r[j].end <= r[k].start
    decreases |s| - i
  {
    if i == |s| then []
    else
      match MatchAt(s, i)
      case Some(m) => [m] + FindFrom(s, m.end)
      case None => FindFrom(s, i + 1)
  }

  /** Since matches cannot overlap, the scan finds every match there is. */
  lemma {:induction false} EveryMatchFound(s: string, i: nat, m: Span)
    requires i <= m.start && IsMatchAt(s, m)
    ensures m in FindFrom(s, i)
    decreases |s| - i
  {
    var r := MatchAt(s, i);
    if r.Some? {
      assert FindFrom(s, i) == [r.value] + FindFrom(s, r.value.end);
      if m.start < r.value.end {
        MatchesDoNotOverlap(s, r.value, m);
      } else {
        EveryMatchFound(s, r.value.end, m);
      }
    } else {
      assert m.start != i && FindFrom(s, i) == FindFrom(s, i + 1);
      EveryMatchFound(s, i + 1, m);
    }
  }

  /** At the start of a match, the scan takes that match and resumes at
      its end. */
  lemma MatchStep(s: string, m: Span)
    requires IsMatchAt(s, m)
    ensures FindFrom(s, m.start) == [m] + FindFrom(s, m.end)
  {
    MatchAtFinds(s, m);
  }

  /** `PMID_RE.search(s)` from position `i`: the leftmost match, if any. */
  function SearchFrom(s: string, i: nat): (r: Option<Span>)
    requires i <= |s|
    ensures r.Some? ==> IsMatchAt(s, r.value) && i <= r.value.start
                        && NoMatchBetween(s, i, r.value.start)
    ensures r.None? ==> NoMatchBetween(s, i, |s|)
    decreases |s| - i
  {
    if i == |s| then None
    else if MatchAt(s, i).Some? then MatchAt(s, i)
    else SearchFrom(s, i + 1)
  }

  /** `search` finds the first match of `findall`. */
  lemma {:induction false} SearchIsFirstFound(s: string, i: nat)
    requires i <= |s|
    ensures SearchFrom(s, i) == if FindFrom(s, i) == [] then None else Some(FindFrom(s, i)[0])
    decreases |s| - i
  {
    if i < |s| && MatchAt(s, i).None? {
      SearchIsFirstFound(s, i + 1);
    }
  }

  function Captures(s: string, r: seq<Span>): (ids: seq<string>)
    requires forall k :: 0 <= k < |r| ==> IsMatchAt(s, r[k])
    ensures |ids| == |r|
    ensures forall k :: 0 <= k < |r| ==> ids[k] == Capture(s, r[k]) && IsDigits(ids[k])
  {
    seq(|r|, k requires 0 <= k < |r| => Capture(s, r[k]))
  }

  /** `PMID_RE.findall(s)`: the captured digit runs, left to right. */
  function FindAll(s: string): (ids: seq<string>)
    ensures forall k :: 0 <= k < |ids| ==> IsDigits(ids[k])
  {
    Captures(s, FindFrom(s, 0))
  }

  /** `m.group(1)` for `m = PMID_RE.search(s)`, or nothing without a match. */
  function Search(s: string): (r: Option<string>)
    ensures r.Some? ==> IsDigits(r.value)
  {
    match SearchFrom(s, 0)
    case Some(m) => Some(Capture(s, m))
    case None => None
  }

  /** `findall` returns the capture of every match in the text, and nothing
      else. */
  lemma FindAllIsEveryMatch(s: string, id: string)
    ensures id in FindAll(s) <==> exists m :: IsMatchAt(s, m) && Capture(s, m) == id
  {
    if id in FindAll(s) {
      FoundIsMatch(s, id);
    }
    if m :| IsMatchAt(s, m) && Capture(s, m) == id {
      MatchIsFound(s, m);
    }
  }

  lemma FoundIsMatch(s: string, id: string)
    requires id in FindAll(s)
    ensures exists m :: IsMatchAt(s, m) && Capture(s, m) == id
  {
    var r := FindFrom(s, 0);
    var k :| 0 <= k < |r| && FindAll(s)[k] == id;
    assert IsMatchAt(s, r[k]);
  }

  lemma MatchIsFound(s: string, m: Span)
    requires IsMatchAt(s, m)
    ensures Capture(s, m) in FindAll(s)
  {
    var r := FindFrom(s, 0);
    EveryMatchFound(s, 0, m);
    var k :| 0 <= k < |r| && r[k] == m;
    assert FindAll(s)[k] == Capture(s, m);
  }

  /** `search` yields the first `findall` capture. */
  lemma SearchIsFirstOfFindAll(s: string)
    ensures Search(s) == if FindAll(s) == [] then None else Some(FindAll(s)[0])
  {
    SearchIsFirstFound(s, 0);
  }

  /** A stretch without the letter `p` holds no match, so the scan passes
      over it. */
  lemma {:induction false} ScanSkips(s: string, i: nat, j: nat)
    requires i <= j <= |s|
    requires forall k :: i <= k < j ==> s[k] != 'p' && s[k] != 'P'
    ensures FindFrom(s, i) == FindFrom(s, j)
    decreases j - i
  {
    if i < j {
      assert MatchAt(s, i).None?;
      ScanSkips(s, i + 1, j);
    }
  }
}
