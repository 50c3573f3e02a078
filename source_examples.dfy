/**
 * Worked examples: a Markdown sentence that mentions one ID twice, a PMID
 * list with a marked line, a bare number, a word and a blank line, and texts
 * the word boundaries of the pattern reject.
 */
module SourceExamples {
  import opened Wrappers
  import opened AsciiText
  import opened Dedup
  import opened PmidPattern
  import opened Sources

  // Each example takes its text as a parameter equal to the literal, so that
  // the verifier follows the steps given here: each match is shown to be
  // one, and the stretches without a `p` are passed over with `ScanSkips`.

  // The sentence `See PMID:123456 and PMID: 123456 again.`: the first
  // mention spans 4 to 15 with its digits at 9, the second spans 20 to 32
  // with its digits at 26.

  lemma FirstMentionIsMatch(s: string)
    requires s == "See PMID:123456 and PMID: 123456 again."
    ensures IsMatchAt(s, Span(4, 8, 9, 15))
  {
  }

  lemma SecondMentionIsMatch(s: string)
    requires s == "See PMID:123456 and PMID: 123456 again."
    ensures IsMatchAt(s, Span(20, 24, 26, 32))
  {
  }

  lemma NoMatchBeforeFirst(s: string)
    requires s == "See PMID:123456 and PMID: 123456 again."
    ensures FindFrom(s, 0) == FindFrom(s, 4)
  {
    ScanSkips(s, 0, 4);
  }

  lemma NoMatchBetweenMentions(s: string)
    requires s == "See PMID:123456 and PMID: 123456 again."
    ensures FindFrom(s, 15) == FindFrom(s, 20)
  {
    ScanSkips(s, 15, 20);
  }

  lemma NoMatchAfterSecond(s: string)
    requires s == "See PMID:123456 and PMID: 123456 again."
    ensures FindFrom(s, 32) == []
  {
    ScanSkips(s, 32, |s|);
  }

  lemma FirstMentionDigits(s: string)
    requires s == "See PMID:123456 and PMID: 123456 again."
    ensures s[9..15] == "123456"
  {
    assert s[9] == '1';
    assert s[10] == '2';
    assert s[11] == '3';
    assert s[12] == '4';
    assert s[13] == '5';
    assert s[14] == '6';
  }

  lemma SecondMentionDigits(s: string)
    requires s == "See PMID:123456 and PMID: 123456 again."
    ensures s[26..32] == "123456"
  {
    assert s[26] == '1';
    assert s[27] == '2';
    assert s[28] == '3';
    assert s[29] == '4';
    assert s[30] == '5';
    assert s[31] == '6';
  }

  /** A text whose only matches are `m1` and then `m2`, with no match before,
      between or after them, is scanned as those two. */
  lemma TwoMatchesScan(s: string, m1: Span, m2: Span)
    requires IsMatchAt(s, m1) && IsMatchAt(s, m2)
    requires FindFrom(s, 0) == FindFrom(s, m1.start) && FindFrom(s, m1.end) == FindFrom(s, m2.start)
    requires FindFrom(s, m2.end) == []
    ensures FindFrom(s, 0) == [m1, m2]
  {
    MatchStep(s, m1);
    MatchStep(s, m2);
  }

  lemma MentionsScan(s: string)
    requires s == "See PMID:123456 and PMID: 123456 again."
    ensures FindFrom(s, 0) == [Span(4, 8, 9, 15), Span(20, 24, 26, 32)]
  {
    FirstMentionIsMatch(s);
    SecondMentionIsMatch(s);
    NoMatchBeforeFirst(s);
    NoMatchBetweenMentions(s);
    NoMatchAfterSecond(s);
    TwoMatchesScan(s, Span(4, 8, 9, 15), Span(20, 24, 26, 32));
  }

  lemma TwoCaptures(s: string, m1: Span, m2: Span)
    requires FindFrom(s, 0) == [m1, m2]
    ensures IsMatchAt(s, m1) && IsMatchAt(s, m2)
    ensures FindAll(s) == [Capture(s, m1), Capture(s, m2)]
  {
    assert FindFrom(s, 0)[0] == m1 && FindFrom(s, 0)[1] == m2;
  }

  lemma MentionsFound(s: string)
    requires s == "See PMID:123456 and PMID: 123456 again."
    ensures |FindAll(s)| == 2 && FindAll(s)[0] == "123456" && FindAll(s)[1] == "123456"
  {
    MentionsScan(s);
    TwoCaptures(s, Span(4, 8, 9, 15), Span(20, 24, 26, 32));
    FirstMentionDigits(s);
    SecondMentionDigits(s);
  }

  /** Deduplicating repetitions of one element leaves that element once. */
  lemma {:induction false} UniqueOfRepeat<T(!new)>(xs: seq<T>, x: T)
    requires xs != [] && forall k :: 0 <= k < |xs| ==> xs[k] == x
    ensures Unique(xs) == [x]
  {
    var init := xs[..|xs| - 1];
    if init != [] {
      UniqueOfRepeat(init, x);
    } else {
      assert Unique(init) == [];
    }
  }

  /** Two mentions of one ID, with and without a space after the colon, give
      that ID once. */
  lemma ExampleRepeatedMention(s: string)
    requires s == "See PMID:123456 and PMID: 123456 again."
    ensures ExtractPmidsFromMd(s) == ["123456"]
  {
    MentionsFound(s);
    OneIdTwice(s, "123456");
  }

  lemma OneIdTwice(s: string, id: string)
    requires |FindAll(s)| == 2 && FindAll(s)[0] == id && FindAll(s)[1] == id
    ensures ExtractPmidsFromMd(s) == [id]
  {
    UniqueOfRepeat(FindAll(s), id);
  }

  /** Digits followed by a letter are no match (no word boundary). */
  lemma ExampleDigitsRunIntoLetters(s: string)
    requires s == "PMID:123abc"
    ensures ExtractPmidsFromMd(s) == []
  {
    assert SkipSpaces(s, 4) == 4;
    assert SkipSpaces(s, 5) == 5;
    assert SkipDigits(s, 5) == 8 by {
      assert SkipDigits(s, 8) == 8;
    }
    assert MatchAt(s, 0) == None;
    ScanSkips(s, 1, |s|);
  }

  /** A marker glued to a preceding letter is no match (no word boundary). */
  lemma ExampleMarkerInsideWord(s: string)
    requires s == "XPMID:1"
    ensures ExtractPmidsFromMd(s) == []
  {
    assert MatchAt(s, 1) == None;
    ScanSkips(s, 0, 1);
    ScanSkips(s, 2, |s|);
  }

  lemma MarkedLineScan(s: string, m: Span)
    requires IsMarkerAt(s, 0) && !IsSpace(s[0]) && !IsSpace(s[|s| - 1])
    requires m.start == 0 && IsMatchAt(s, m)
    ensures LineId(s) == Some(Capture(s, m))
  {
    StripUnchanged(s);
    MatchAtFinds(s, m);
  }

  lemma ExampleMarkedLine(line: string)
    requires line == "PMID:111"
    ensures LineId(line) == Some("111")
  {
    MarkedLineScan(line, Span(0, 4, 5, 8));
    assert Capture(line, Span(0, 4, 5, 8)) == line[5..8] == "111";
  }

  lemma ExampleDigitLine(line: string)
    requires line == "222"
    ensures LineId(line) == Some("222")
  {
    DigitLine(line);
  }

  lemma ExampleOtherLine(line: string)
    requires line == "not-a-number"
    ensures LineId(line) == None
  {
    StripUnchanged(line);
  }

  /** Two lines with an ID, then two without, give the two IDs. */
  lemma FourLines(lines: seq<string>, f: string -> Option<string>, x: string, y: string)
    requires |lines| == 4
    requires f(lines[0]) == Some(x) && f(lines[1]) == Some(y)
    requires f(lines[2]) == None && f(lines[3]) == None
    ensures Contributions(lines, f) == [x, y]
  {
    assert lines[..1][..0] == [];
    assert Contributions(lines[..1], f) == [x];
    assert lines[..2][..1] == lines[..1];
    assert Contributions(lines[..2], f) == [x, y];
    assert lines[..3][..2] == lines[..2];
    assert Contributions(lines[..3], f) == [x, y];
    assert lines[..4][..3] == lines[..3];
    assert lines[..4] == lines;
  }

  lemma UniqueOfPair<T(!new)>(x: T, y: T)
    requires x != y
    ensures Unique([x, y]) == [x, y]
  {
    UniqueOfDistinct([x, y]);
  }

  lemma ExampleLineFacts(lines: seq<string>)
    requires |lines| == 4 && lines[0] == "PMID:111" && lines[1] == "222"
    requires lines[2] == "not-a-number" && lines[3] == ""
    ensures LineId(lines[0]) == Some("111") && LineId(lines[1]) == Some("222")
    ensures LineId(lines[2]) == None && LineId(lines[3]) == None
  {
    ExampleMarkedLine(lines[0]);
    ExampleDigitLine(lines[1]);
    ExampleOtherLine(lines[2]);
    BlankLineSkipped(lines[3]);
  }

  /** The list `PMID:111`, `222`, `not-a-number` and a blank line gives
      `111` and `222`. */
  lemma ExampleLineList(lines: seq<string>)
    requires |lines| == 4 && lines[0] == "PMID:111" && lines[1] == "222"
    requires lines[2] == "not-a-number" && lines[3] == ""
    ensures Unique(LinesIds(lines)) == ["111", "222"]
  {
    ExampleLineFacts(lines);
    FourLines(lines, LineId, "111", "222");
    UniqueOfPair("111", "222");
  }

  /** Only the first of several matches on a marked line counts. */
  lemma ExampleTwoMatchesOnALine(s: string)
    requires s == "PMID:1 PMID:2"
    ensures LineId(s) == Some("1")
  {
    assert IsMatchAt(s, Span(0, 4, 5, 6));
    MarkedLineScan(s, Span(0, 4, 5, 6));
    assert Capture(s, Span(0, 4, 5, 6)) == [s[5]];
  }
}
