/**
 * The two file readers of the script, given the file's text (reading the
 * file is I/O): `extract_pmids_from_md` and `load_pmids_file`.
 */
module Sources {
  import opened Wrappers
  import opened AsciiText
  import opened Dedup
  import opened PmidPattern

  /** `extract_pmids_from_md`: the captures of the pattern's matches in the
      text, each kept once, in the order of first mention. */
  function ExtractPmidsFromMd(text: string): (ids: seq<string>)
    ensures NoDuplicates(ids)
    ensures forall k :: 0 <= k < |ids| ==> IsDigits(ids[k])
  {
    var ids := Unique(FindAll(text));
    assert forall k :: 0 <= k < |ids| ==> ids[k] in FindAll(text);
    ids
  }

  /** An ID comes out of a text exactly when some match in it captures that
      ID: no mention is missed and nothing else is reported. */
  lemma ExtractedAreTheMentions(text: string, id: string)
    ensures id in ExtractPmidsFromMd(text) <==> exists m :: IsMatchAt(text, m) && Capture(text, m) == id
  {
    FindAllIsEveryMatch(text, id);
  }

  /** What one line of a PMID list contributes, after `strip()`: nothing for
      a blank line; for a line starting with `pmid` in any case, the first
      match of the pattern, if any; the line itself when it is all digits;
      nothing otherwise. */
  function LineId(line: string): (r: Option<string>)
    ensures r.Some? ==> IsDigits(r.value)
  {
    var t := Strip(line);
    if t == [] then None
    else if IsMarkerAt(t, 0) then Search(t)
    else if IsDigits(t) then Some(t)
    else None
  }

  function OptionToSeq<T>(o: Option<T>): (s: seq<T>)
    ensures o.Some? ==> s == [o.value]
    ensures o.None? ==> s == []
  {
    match o
    case Some(v) => [v]
    case None => []
  }

  /** What the lines contribute in line order, each line's contribution
      given by the rule `f`: the appends of the loop in `load_pmids_file`. */
  function Contributions(lines: seq<string>, f: string -> Option<string>): (ids: seq<string>)
    ensures |ids| <= |lines|
  {
    if lines == [] then []
    else Contributions(lines[..|lines| - 1], f) + OptionToSeq(f(lines[|lines| - 1]))
  }

  /** The IDs the lines contribute, in line order, before deduplication. */
  function LinesIds(lines: seq<string>): (ids: seq<string>)
    ensures |ids| <= |lines|
  {
    Contributions(lines, LineId)
  }

  /** `load_pmids_file` on the file's text. */
  method LoadPmidsFile(text: string) returns (pmids: seq<string>)
    ensures pmids == Unique(LinesIds(SplitLines(text)))
  {
    var lines := SplitLines(text);
    pmids := [];
    for i := 0 to |lines|
      invariant pmids == LinesIds(lines[..i])
    {
      LinesIdsStep(lines, i);
      var ln := Strip(lines[i]);
      if ln == [] {
        continue;
      }
      if IsMarkerAt(ln, 0) {
        var m := Search(ln);
        if m.Some? {
          pmids := pmids + [m.value];
        }
      } else if IsDigits(ln) {
        pmids := pmids + [ln];
      }
    }
    assert lines[..|lines|] == lines;
    pmids := Unique(pmids);
  }

  lemma LinesIdsStep(lines: seq<string>, i: nat)
    requires i < |lines|
    ensures LinesIds(lines[..i + 1]) == LinesIds(lines[..i]) + OptionToSeq(LineId(lines[i]))
  {
    assert lines[..i + 1][..i] == lines[..i];
  }

  /** What `load_pmids_file` returns is a list of distinct digit strings. */
  lemma LoadedIdsAreDistinctDigits(lines: seq<string>)
    ensures NoDuplicates(Unique(LinesIds(lines)))
    ensures forall k :: 0 <= k < |Unique(LinesIds(lines))| ==> IsDigits(Unique(LinesIds(lines))[k])
  {
    var u := Unique(LinesIds(lines));
    LinesIdsAreDigits(lines);
    assert forall k :: 0 <= k < |u| ==> u[k] in LinesIds(lines);
  }

  /** Every ID a line contributes is a run of digits. */
  lemma {:induction false} LinesIdsAreDigits(lines: seq<string>)
    ensures forall k :: 0 <= k < |LinesIds(lines)| ==> IsDigits(LinesIds(lines)[k])
  {
    if lines != [] {
      var init := lines[..|lines| - 1];
      LinesIdsAreDigits(init);
      assert LinesIds(lines) == LinesIds(init) + OptionToSeq(LineId(lines[|lines| - 1]));
    }
  }

  /** A line of digits alone contributes itself. */
  lemma DigitLine(line: string)
    requires IsDigits(line)
    ensures LineId(line) == Some(line)
  {
    StripUnchanged(line);
  }

  /** Blank lines contribute nothing. */
  lemma BlankLineSkipped(line: string)
    requires SpacesBetween(line, 0, |line|)
    ensures LineId(line) == None
  {
  }

  /** A line marked `pmid` contributes the first match on it and no other,
      so at most one ID per line. */
  lemma MarkedLineGivesFirstMatch(line: string)
    requires IsMarkerAt(Strip(line), 0)
    ensures LineId(line) == if FindAll(Strip(line)) == [] then None else Some(FindAll(Strip(line))[0])
  {
    SearchIsFirstOfFindAll(Strip(line));
  }

  /** Any other line contributes itself when it is all digits and is
      silently ignored otherwise. */
  lemma UnmarkedLine(line: string)
    requires !IsMarkerAt(Strip(line), 0)
    ensures LineId(line) == if IsDigits(Strip(line)) then Some(Strip(line)) else None
  {
  }
}
