# pmid_fetch, modelled in Dafny

`scripts/pmid_fetch.py` builds a local cache of PubMed summaries. It gathers
PubMed IDs (PMIDs) from three places:

- `PMID:` mentions in a Markdown file;
- a list file with one ID per line;
- the command-line arguments.

It keeps the distinct all-digit IDs in the order they were first seen. It
reads the existing JSON cache, if there is one, and asks the NCBI E-utilities
esummary service only for the IDs that cache lacks, in groups of 200 per
request. It merges the summaries that come back into the cache and writes
the cache out again.

The model follows the script function by function:

- `PmidPattern`: the regular expression `\bPMID\s*:\s*(\d+)\b` with
  `IGNORECASE`, as a scanner over the text. There is `findall` (`FindAll`)
  and `search` (`Search`), plus a declarative reading of what a match is
  (`IsMatchAt`).
- `Sources`: `extract_pmids_from_md` and `load_pmids_file`. Each is given the
  file's text. `LoadPmidsFile` is a method with the script's loop.
- `Dedup`: `list(dict.fromkeys(...))` (`Unique`) and list comprehensions with
  a condition (`Filter`).
- `Chunking`: `chunk`.
- `Fetcher`: `fetch_esummary`.
  - The network round trip (URL encoding, `urlopen` and decoding the JSON
    reply) is a function `lookup` from the query parameters to the `Reply`.
  - `FetchEsummary` is the script's loop as a method. It is proved to compute
    the pure fold `Fetch` and to send exactly the requests `Issued` names.
- `Pipeline`: the body of `main` after argument parsing.
  - `Run` is a method over the output file, a `CacheFile` object whose
    `stored` field the run overwrites.
  - It is proved equal to the specification function `RunSpec`.
  - The lemmas about `RunSpec` state what a run promises: when nothing is
    collected, what `--merge` does, what is fetched, and what the cache holds
    afterwards.
- `AsciiText`: `str.strip`, `str.splitlines`, `str.lower` and the character
  classes `\s`, `\d` and `\w`, on ASCII.
- `SourceExamples`: worked examples on concrete inputs:
  - the Markdown sentence `See PMID:123456 and PMID: 123456 again.`, which
    mentions one ID twice and yields it once;
  - the list file with the lines `PMID:111`, `222`, `not-a-number` and a
    blank line, which yields `111` and `222`;
  - texts whose word boundaries reject a match (`PMID:123abc`, `XPMID:1`) and
    a line with two matches of which only the first counts.

`existing.update(fetched)` overwrites any cached entry the service lists, so
`CachedEntriesKept` assumes the replies list only requested IDs;
`FetchedEntries` and `Update` cover the rest.

## Model

| member | source | states |
|---|---|---|
| PmidPattern.MatchAt | scripts/pmid_fetch.py:41 | the pattern tried at one position finds a span that is a match by the declarative reading, and finds none only when no match starts there |
| PmidPattern.MatchDetermined | scripts/pmid_fetch.py:41 | a match is fixed by its start: the colon ends the first run of spaces, the digits start after the second, and they run to the first non-digit (greedy runs lose nothing) |
| PmidPattern.MatchBoundaries | scripts/pmid_fetch.py:41 | a match by the declarative reading `IsMatchAt` begins with `p` or `P`, captures only digits, and is not followed by another digit |
| PmidPattern.Capture | scripts/pmid_fetch.py:41 | the group `(\d+)` of a match is one or more digits |
| PmidPattern.MatchStep | scripts/pmid_fetch.py:41 | `finditer` from the start of a match yields that match and then goes on from its end |
| PmidPattern.MatchAtFinds | scripts/pmid_fetch.py:41 | wherever a match starts, the pattern tried there returns exactly that match |
| PmidPattern.MatchesDoNotOverlap | scripts/pmid_fetch.py:41 | two matches that overlap are the same match, because a word boundary cannot precede a `p` inside a match |
| PmidPattern.FindFrom | scripts/pmid_fetch.py:41 | `finditer` from a position gives matches at or after it, left to right and not overlapping |
| PmidPattern.EveryMatchFound | scripts/pmid_fetch.py:41 | every match at or after the position is among those `finditer` gives |
| PmidPattern.Captures | scripts/pmid_fetch.py:41 | the group of each match, in order: one all-digit string per match |
| PmidPattern.FindAll | scripts/pmid_fetch.py:46 | `findall` returns only all-digit strings |
| PmidPattern.FoundIsMatch | scripts/pmid_fetch.py:46 | every string `findall` returns is the capture of some match |
| PmidPattern.MatchIsFound | scripts/pmid_fetch.py:46 | the capture of every match is among what `findall` returns |
| PmidPattern.FindAllIsEveryMatch | scripts/pmid_fetch.py:46 | a string is in `findall`'s result if and only if some match of the pattern captures it |
| PmidPattern.SearchFrom | scripts/pmid_fetch.py:55 | `search` returns a match with no match before it, and returns nothing only when the text holds no match |
| PmidPattern.SearchIsFirstFound | scripts/pmid_fetch.py:55 | `search` returns the first span `finditer` gives, and nothing when that is empty |
| PmidPattern.Search | scripts/pmid_fetch.py:55-57 | the group `search` captures is all digits |
| PmidPattern.SearchIsFirstOfFindAll | scripts/pmid_fetch.py:55-57 | the capture of `search` is the first element of `findall`, and there is none when `findall` is empty |
| PmidPattern.ScanSkips | scripts/pmid_fetch.py:41 | `finditer` passes over a stretch of text without a `p` or `P` |
| Sources.ExtractPmidsFromMd | scripts/pmid_fetch.py:44-46 | the IDs taken from a Markdown text are distinct and all digits |
| Sources.ExtractedAreTheMentions | scripts/pmid_fetch.py:44-46 | an ID comes out of the text if and only if a match in it captures that ID |
| Sources.LineId | scripts/pmid_fetch.py:51-59 | what one list line contributes is all digits when there is anything |
| Sources.BlankLineSkipped | scripts/pmid_fetch.py:51-53 | a line of whitespace contributes nothing |
| Sources.MarkedLineGivesFirstMatch | scripts/pmid_fetch.py:54-57 | a stripped line that starts with `pmid` in any case contributes the first capture of the pattern, or nothing when there is no match |
| Sources.UnmarkedLine | scripts/pmid_fetch.py:58-59 | any other line contributes its stripped self when that is all digits, and nothing otherwise |
| Sources.DigitLine | scripts/pmid_fetch.py:58-59 | an all-digit line contributes itself |
| Sources.Contributions | scripts/pmid_fetch.py:49-59 | whatever the rule for one line, the lines contribute at most one ID each |
| Sources.LinesIds | scripts/pmid_fetch.py:49-59 | the lines contribute at most one ID each |
| Sources.LinesIdsStep | scripts/pmid_fetch.py:50-59 | one more line appends exactly that line's contribution |
| Sources.LinesIdsAreDigits | scripts/pmid_fetch.py:49-59 | every ID the lines contribute is all digits |
| Sources.LoadPmidsFile | scripts/pmid_fetch.py:48-60 | the loop over `splitlines()` returns the deduplicated contributions of the lines, in order |
| Sources.LoadedIdsAreDistinctDigits | scripts/pmid_fetch.py:60 | what a list file yields is distinct and all digits |
| AsciiText.LowerChar | scripts/pmid_fetch.py:54 | `lower()` maps `A` to `Z` onto `a` to `z` and leaves every other character alone |
| AsciiText.StripStart | scripts/pmid_fetch.py:51 | stripping at the front removes a run of whitespace and leaves a suffix that starts with a non-space |
| AsciiText.StripEnd | scripts/pmid_fetch.py:51 | stripping at the back removes a run of whitespace and leaves a prefix that ends with a non-space |
| AsciiText.Strip | scripts/pmid_fetch.py:51-52 | `strip()` is empty if and only if the line is all whitespace, and otherwise starts and ends with a non-space |
| AsciiText.StripIsTrimmedSlice | scripts/pmid_fetch.py:51 | `strip()` is a slice of the line with only whitespace before and after it |
| AsciiText.StripUnchanged | scripts/pmid_fetch.py:51 | a line with no whitespace at either end strips to itself |
| AsciiText.LineEnd | scripts/pmid_fetch.py:50 | the first line boundary at or after a position, with no boundary before it |
| AsciiText.IsDigits | scripts/pmid_fetch.py:42 | a string `DIGITS_RE` accepts consists of word characters and holds no whitespace |
| AsciiText.IsMarkerAt | scripts/pmid_fetch.py:54 | a line that starts with `pmid` in any case starts with the word character `p` or `P` |
| AsciiText.SplitLines | scripts/pmid_fetch.py:50 | `splitlines()` gives no line for an empty text, and no line contains a boundary |
| AsciiText.JoinLines | scripts/pmid_fetch.py:50 | joining a single line gives that line |
| AsciiText.SplitLinesStep | scripts/pmid_fetch.py:50 | a `\n` boundary ends the first line, and the rest of the text gives the other lines |
| AsciiText.SplitLinesThenJoin | scripts/pmid_fetch.py:50 | a text whose boundaries are all `\n`, and that does not end in one, is its lines joined with `\n` |
| AsciiText.JoinThenSplitLines | scripts/pmid_fetch.py:50 | lines without boundaries, the last not empty, joined with `\n` split back into the same lines |
| Dedup.FirstIndex | scripts/pmid_fetch.py:46 | the position of the first occurrence, with no occurrence before it |
| Dedup.Unique | scripts/pmid_fetch.py:46 | `dict.fromkeys` keeps each element once, the same elements, in order of first occurrence |
| Dedup.UniqueAppend | scripts/pmid_fetch.py:60 | appending one element to the input keeps the result distinct, with the same elements and in first-occurrence order |
| Dedup.UniqueOfDistinct | scripts/pmid_fetch.py:111 | a list without repeats is left as it is |
| Dedup.UniqueIdempotent | scripts/pmid_fetch.py:111 | deduplicating twice is deduplicating once |
| Dedup.Filter | scripts/pmid_fetch.py:110 | a conditional comprehension keeps exactly the elements that pass |
| Dedup.FilterKeepsFirstOrder | scripts/pmid_fetch.py:110 | filtering keeps the relative order of first occurrences, in both directions |
| Dedup.FilterDistinct | scripts/pmid_fetch.py:126 | filtering a list without repeats gives a list without repeats, in the same order |
| Dedup.FirstIndexInPrefix | scripts/pmid_fetch.py:111 | the first occurrence of an element that occurs in a prefix lies in that prefix |
| Chunking.Chunk | scripts/pmid_fetch.py:62-63 | every group has between 1 and `n` elements, all but the last exactly `n`, and there are no groups only for an empty input |
| Chunking.FlattenChunk | scripts/pmid_fetch.py:62-63 | the groups, put back together, are the input |
| Chunking.ChunkMember | scripts/pmid_fetch.py:62-63 | each element of a group comes from the input |
| Chunking.ChunkCount | scripts/pmid_fetch.py:62-63 | the number of groups is the input length divided by `n`, rounded up |
| Chunking.ChunkOf450 | scripts/pmid_fetch.py:68 | 450 IDs go out in three requests of 200, 200 and 50 |
| Chunking.Min | scripts/pmid_fetch.py:63 | the smaller of two lengths |
| Fetcher.JoinComma | scripts/pmid_fetch.py:69 | joining no IDs gives the empty string |
| Fetcher.SplitComma | scripts/pmid_fetch.py:69 | splitting on commas gives at least one piece, and a string without commas is one piece |
| Fetcher.SplitAfterPiece | scripts/pmid_fetch.py:69 | a piece without commas followed by a comma splits off as the first piece |
| Fetcher.SplitJoin | scripts/pmid_fetch.py:69 | the `id` parameter splits back into exactly the group's IDs |
| Fetcher.ParamsFor | scripts/pmid_fetch.py:69-73 | a request's parameters are `db=pubmed`, `retmode=json` and the comma-joined group, plus `email` and `api_key` exactly when they are given and non-empty |
| Fetcher.Requests | scripts/pmid_fetch.py:68-73 | there is one request per group |
| Fetcher.RequestAt | scripts/pmid_fetch.py:68-73 | request `k` carries the parameters of group `k` |
| Fetcher.RequestedIds | scripts/pmid_fetch.py:69 | the IDs named by each request, one list per request |
| Fetcher.RequestsCoverIds | scripts/pmid_fetch.py:68-69 | the requests ask for every ID once, in order, at most 200 per request |
| Fetcher.ResultOf | scripts/pmid_fetch.py:86 | a reply without `result` counts as an empty result |
| Fetcher.UidsOf | scripts/pmid_fetch.py:87 | a result without `uids` lists nothing |
| Fetcher.Entry | scripts/pmid_fetch.py:88 | an ID's summary is its member of the result, or `{}` when it has none |
| Fetcher.AddUids | scripts/pmid_fetch.py:87-88 | folding a reply in adds exactly its listed IDs, each with its summary, and leaves every other entry alone |
| Fetcher.AddUidsStep | scripts/pmid_fetch.py:87-88 | one more listed ID sets that ID's entry to its summary |
| Fetcher.AddUidsInPlace | scripts/pmid_fetch.py:87-88 | the inner loop's map updates give that fold |
| Fetcher.ReplyUids | scripts/pmid_fetch.py:79-87 | a failed reply lists no IDs |
| Fetcher.Step | scripts/pmid_fetch.py:79-88 | one request fails if and only if the transport fails or the status is not 200; otherwise its reply is folded in |
| Fetcher.FetchGroup | scripts/pmid_fetch.py:69-88 | one pass of the loop body is that step on the reply to the group's request |
| Fetcher.FetchFrom | scripts/pmid_fetch.py:68-90 | the loop from some group on, when it succeeds, keeps every entry it started from |
| Fetcher.Fetch | scripts/pmid_fetch.py:65-90 | fetching no IDs succeeds with the empty map |
| Fetcher.Issued | scripts/pmid_fetch.py:68-85 | the requests sent are a non-empty prefix of those planned, unless none were planned |
| Fetcher.FetchStep | scripts/pmid_fetch.py:68-88 | a request that does not fail moves the fold on by its reply |
| Fetcher.FetchEsummary | scripts/pmid_fetch.py:65-90 | the loop returns what the fold `Fetch` gives and sends exactly the requests `Issued` names |
| Fetcher.FetchFailsIff | scripts/pmid_fetch.py:79-85 | the fetch fails if and only if some request fails |
| Fetcher.FirstFailureDecides | scripts/pmid_fetch.py:79-85 | the first failing request decides the error |
| Fetcher.FirstFailureLastSent | scripts/pmid_fetch.py:79-85 | nothing is sent after the first failing request |
| Fetcher.AllSentOnSuccess | scripts/pmid_fetch.py:68-90 | without a failure every planned request is sent |
| Fetcher.Replies | scripts/pmid_fetch.py:80-83 | reply `i` is the answer to request `i` |
| Fetcher.FetchedEntries | scripts/pmid_fetch.py:86-90 | a successful fetch maps exactly the IDs some reply lists; an ID several replies list gets its summary from the last one; entries no reply lists are kept |
| Fetcher.FetchHead | scripts/pmid_fetch.py:68-88 | in a successful fetch the first request does not fail, and the rest of the loop goes on from its reply |
| Fetcher.FetchedKeys | scripts/pmid_fetch.py:86-90 | a successful fetch maps exactly the starting keys and the IDs some reply lists |
| Fetcher.LastListingWins | scripts/pmid_fetch.py:87-88 | an ID several replies list gets its summary from the last of them |
| Fetcher.UnlistedKept | scripts/pmid_fetch.py:87-88 | an entry no reply lists keeps its starting value |
| Pipeline.CacheFile.constructor | scripts/pmid_fetch.py:117 | the output file starts with what it holds |
| Pipeline.ExitCode | scripts/pmid_fetch.py:113-115 | the exit status is 0 exactly when the cache was written and 2 exactly when there were no IDs |
| Pipeline.StrippedArgs | scripts/pmid_fetch.py:108 | the kept arguments are at most the given ones and none is empty |
| Pipeline.Strips | scripts/pmid_fetch.py:108 | each argument stripped, position by position |
| Pipeline.StrippedArgsInOrder | scripts/pmid_fetch.py:108 | the kept arguments are the stripped arguments that are not empty, in the order given |
| Pipeline.StrippedArgsMembers | scripts/pmid_fetch.py:108 | an argument is kept if and only if it is the non-empty strip of some argument |
| Pipeline.MdIds | scripts/pmid_fetch.py:104-105 | without `--md` nothing comes from Markdown |
| Pipeline.FileIds | scripts/pmid_fetch.py:106-107 | without `--pmids-file` nothing comes from a list |
| Pipeline.Gathered | scripts/pmid_fetch.py:103-108 | an ID is gathered if and only if it comes from `--md`, from `--pmids-file` or from the kept arguments, and the Markdown IDs come first |
| Pipeline.GatheredFrom | scripts/pmid_fetch.py:103-108 | an ID is gathered if and only if it comes from `--md`, from `--pmids-file`, or is the non-empty strip of an argument |
| Pipeline.Collect | scripts/pmid_fetch.py:103-111 | the collected IDs are distinct, and an ID is collected if and only if it was gathered and is all digits |
| Pipeline.CollectPmids | scripts/pmid_fetch.py:103-111 | the statements of `main` build that list |
| Pipeline.CollectKeepsFirstOrder | scripts/pmid_fetch.py:110-111 | every collected ID is all digits, and the IDs keep the order in which they were first gathered |
| Pipeline.NoPmidsIff | scripts/pmid_fetch.py:113-115 | a run ends with "No PMIDs" if and only if nothing gathered is all digits; it then exits 2, sends nothing and leaves the file alone |
| Pipeline.LoadExisting | scripts/pmid_fetch.py:118-124 | the cache is the file's records when the file parses, and `{}` when it is absent or does not parse |
| Pipeline.LoadCache | scripts/pmid_fetch.py:118-124 | the statements of `main` load that cache |
| Pipeline.MergeFlagIgnored | scripts/pmid_fetch.py:119-120 | `--merge` makes no difference to a run |
| Pipeline.Missing | scripts/pmid_fetch.py:126 | an ID is missing if and only if it was collected and the cache lacks it |
| Pipeline.MissingKeepsOrder | scripts/pmid_fetch.py:126 | the missing IDs are distinct and keep the collected order |
| Pipeline.Update | scripts/pmid_fetch.py:129 | the merge holds the keys of both, the fetched summary where both have one, and every other cached entry |
| Pipeline.FetchAndMerge | scripts/pmid_fetch.py:126-133 | once IDs are collected, a run never ends with "No PMIDs"; unless it writes, the file keeps what it held; when it writes, the file holds records and the reported count is their number |
| Pipeline.RunSpec | scripts/pmid_fetch.py:103-134 | a run that does not write leaves the file as it was; one that writes leaves records in it and reports their number |
| Pipeline.RunFailsIff | scripts/pmid_fetch.py:126-129 | a run fails if and only if IDs were collected and one of the requests for the missing ones raises; it then exits 1 and leaves the file alone |
| Pipeline.SendsIffMissing | scripts/pmid_fetch.py:126-128 | once IDs are collected, a run sends requests if and only if some ID is missing |
| Pipeline.FetchesIffMissing | scripts/pmid_fetch.py:126-128 | a run sends requests if and only if some collected ID is not in the cache |
| Pipeline.CachedEntriesKept | scripts/pmid_fetch.py:126-129 | when the service returns only requested IDs, no cached entry changes |
| Pipeline.RerunMissing | scripts/pmid_fetch.py:126-129 | after the merge the IDs still missing are the missing ones the service did not return, in order |
| Pipeline.NothingMissing | scripts/pmid_fetch.py:126 | when the cache holds every collected ID nothing is missing |
| Pipeline.CachedRunIsQuiet | scripts/pmid_fetch.py:126-132 | with every collected ID cached, a run sends nothing and writes the same records back |
| Pipeline.CompleteRunCachesAll | scripts/pmid_fetch.py:126-132 | when the replies list every missing ID, the written cache holds every collected ID, so the next run is quiet |
| Pipeline.Run | scripts/pmid_fetch.py:103-134 | `main` leaves the file as `RunSpec` says, and reports its outcome and the requests it sent; on a fetch error the file is untouched |
| SourceExamples.FirstMentionIsMatch | scripts/pmid_fetch.py:41 | in `See PMID:123456 and PMID: 123456 again.`, `PMID:123456` is a match |
| SourceExamples.SecondMentionIsMatch | scripts/pmid_fetch.py:41 | in the same sentence, `PMID: 123456` (with a space after the colon) is a match |
| SourceExamples.NoMatchBeforeFirst | scripts/pmid_fetch.py:41 | no match starts in `See ` |
| SourceExamples.NoMatchBetweenMentions | scripts/pmid_fetch.py:41 | no match starts in ` and ` |
| SourceExamples.NoMatchAfterSecond | scripts/pmid_fetch.py:41 | no match starts in ` again.` |
| SourceExamples.FirstMentionDigits | scripts/pmid_fetch.py:41 | the first mention captures `123456` |
| SourceExamples.SecondMentionDigits | scripts/pmid_fetch.py:41 | the second mention captures `123456` |
| SourceExamples.TwoMatchesScan | scripts/pmid_fetch.py:41 | two matches with no other match around them are all that `finditer` yields |
| SourceExamples.MentionsScan | scripts/pmid_fetch.py:41 | `finditer` on the sentence yields the two mentions |
| SourceExamples.TwoCaptures | scripts/pmid_fetch.py:46 | a text with two matches gives their two captures |
| SourceExamples.MentionsFound | scripts/pmid_fetch.py:46 | `findall` on the sentence gives `123456` twice |
| SourceExamples.UniqueOfRepeat | scripts/pmid_fetch.py:46 | deduplicating repeats of one element leaves it once |
| SourceExamples.OneIdTwice | scripts/pmid_fetch.py:44-46 | a text whose two matches capture the same ID yields that ID once |
| SourceExamples.ExampleRepeatedMention | scripts/pmid_fetch.py:44-46 | `See PMID:123456 and PMID: 123456 again.` yields the single ID `123456` |
| SourceExamples.ExampleDigitsRunIntoLetters | scripts/pmid_fetch.py:41 | `PMID:123abc` yields nothing, since no word boundary follows the digits |
| SourceExamples.ExampleMarkerInsideWord | scripts/pmid_fetch.py:41 | `XPMID:1` yields nothing, since no word boundary precedes the marker |
| SourceExamples.MarkedLineScan | scripts/pmid_fetch.py:54-57 | a marked line with a match at its start contributes that match's capture |
| SourceExamples.ExampleMarkedLine | scripts/pmid_fetch.py:54-57 | the line `PMID:111` contributes `111` |
| SourceExamples.ExampleDigitLine | scripts/pmid_fetch.py:58-59 | the line `222` contributes `222` |
| SourceExamples.ExampleOtherLine | scripts/pmid_fetch.py:58 | the line `not-a-number` contributes nothing |
| SourceExamples.FourLines | scripts/pmid_fetch.py:49-59 | two contributing lines followed by two silent ones contribute those two IDs |
| SourceExamples.ExampleLineFacts | scripts/pmid_fetch.py:51-59 | what each of the lines `PMID:111`, `222`, `not-a-number` and the blank line contributes |
| SourceExamples.UniqueOfPair | scripts/pmid_fetch.py:60 | two different IDs stay as they are |
| SourceExamples.ExampleLineList | scripts/pmid_fetch.py:48-60 | the lines `PMID:111`, `222`, `not-a-number` and a blank line give `111` and `222` |
| SourceExamples.ExampleTwoMatchesOnALine | scripts/pmid_fetch.py:54-57 | on the line `PMID:1 PMID:2` only the first match counts |

## Left out

- Unicode: `\s`, `\d`, `\w`, `str.strip`, `str.lower`, `str.splitlines` and the case folding of `IGNORECASE` are modelled on ASCII characters. Python also counts non-ASCII digits, spaces, letters and line separators.
- Reading the files is not modelled. `--md` and `--pmids-file` are given as the file's text. A missing or unreadable file, which makes the script raise, is not modelled.
- Argument parsing (`argparse`), the `NCBI_EMAIL` and `NCBI_API_KEY` environment defaults and the `-o` path are not modelled. The model starts from the parsed values.
- The network round trip is the parameter `lookup`. This covers URL encoding, the `User-Agent` header, the 30-second timeout and UTF-8 decoding.
- `Fetcher.FetchEsummary`: a reply body that is not valid JSON, or whose top level or `result` is not an object, raises in the script. The model's `Body` is always a decoded object.
- `Fetcher.UidsOf`: the `uids` are taken as strings, so `str(uid)` is the identity here.
- The 0.34-second `time.sleep` between groups is left out. It has no effect on the results.
- Writing the file is modelled as replacing what `CacheFile` holds. `mkdir`, the `indent`/`sort_keys` serialisation and the printed messages are left out. `Outcome.Wrote` carries the two counts the final message prints, `len(existing)` and `len(missing)`. The second counts the IDs asked for, not the records received.
- A cache file whose JSON is not an object is not modelled; such a file is `Stored.Records` or `Stored.Unparsable`. In the script, `null`, a boolean or a number raises `TypeError` at line 126 (`p not in existing`). A list holding every collected ID, or a string containing every one as a substring, leaves nothing missing, so the script writes it back unchanged and exits 0. Any other list or string fails at `existing.update` on line 129.
- `Chunking.Chunk: requires n > 0`. Python raises `ValueError` for `n == 0` and returns `[]` for a negative `n`. The script only ever uses 200.
- `DIGITS_RE`'s `$` also accepts a trailing newline. This never matters here: every candidate is either stripped or a run of digits, so `IsDigits` is exact.
