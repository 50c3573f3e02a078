/**
 * `main`: gather the IDs from the Markdown file, the list file and the
 * command line; keep the distinct all-digit ones; fetch those the cache in
 * the output file lacks; and write the cache back with the new records
 * merged in.
 */
module Pipeline {
  import opened Wrappers
  import opened AsciiText
  import opened Dedup
  import opened Sources
  import opened Fetcher

  /** One run's inputs: the text of `--md` and of `--pmids-file` when those
      options name a file, the positional arguments, `--merge`, `--email` and
      `--api-key`. */
  datatype Invocation = Invocation(
    md: Option<string>,
    pmidsFile: Option<string>,
    args: seq<string>,
    merge: bool,
    email: Option<string>,
    apiKey: Option<string>)

  /** What an existing output file holds: a JSON object of records keyed by
      ID, or text that `json.loads` rejects. */
  datatype Stored = Unparsable | Records(records: map<string, Json>)

  /** The output file: absent (`None`) or present with what it holds. */
  class CacheFile {
    var stored: Option<Stored>

    constructor (initial: Option<Stored>)
      ensures stored == initial
    {
      stored := initial;
    }
  }

  /** How a run ends: no IDs at all, an error raised by the fetch, or the
      cache written with its record count and the number of IDs fetched. */
  datatype Outcome = NoPmids | Failed(error: FetchError) | Wrote(records: nat, fetched: nat)

  /** The process exit status: 2 for no IDs, 1 for the uncaught
      `RuntimeError`, 0 otherwise. */
  function ExitCode(o: Outcome): (code: int)
    ensures code == 0 <==> o.Wrote?
    ensures code == 2 <==> o.NoPmids?
  {
    match o
    case NoPmids => 2
    case Failed(_) => 1
    case Wrote(_, _) => 0
  }

  /** `[p.strip() for p in args if p.strip()]`. */
  function StrippedArgs(args: seq<string>): (r: seq<string>)
    ensures |r| <= |args|
    ensures forall k :: 0 <= k < |r| ==> r[k] != []
  {
    if args == [] then []
    else if Strip(args[0]) != [] then [Strip(args[0])] + StrippedArgs(args[1..])
    else StrippedArgs(args[1..])
  }

  /** Every argument stripped, in order. */
  function Strips(args: seq<string>): (r: seq<string>)
    ensures |r| == |args|
    ensures forall k :: 0 <= k < |args| ==> r[k] == Strip(args[k])
  {
    if args == [] then [] else [Strip(args[0])] + Strips(args[1..])
  }

  /** The arguments kept are the stripped arguments that are not empty, in
      the order they were given. */
  lemma {:induction false} StrippedArgsInOrder(args: seq<string>)
    ensures StrippedArgs(args) == Filter(Strips(args), t => t != [])
  {
    if args != [] {
      StrippedArgsInOrder(args[1..]);
      var r := Strips(args);
      assert r[0] == Strip(args[0]) && r[1..] == Strips(args[1..]);
    }
  }

  /** The arguments kept are exactly the non-blank ones, stripped. */
  lemma {:induction false} StrippedArgsMembers(args: seq<string>, x: string)
    ensures x in StrippedArgs(args) <==> x != [] && exists k :: 0 <= k < |args| && Strip(args[k]) == x
  {
    if args != [] {
      StrippedArgsMembers(args[1..], x);
      if k :| 0 <= k < |args| && Strip(args[k]) == x && k > 0 {
        assert Strip(args[1..][k - 1]) == x;
      }
      if k :| 0 <= k < |args[1..]| && Strip(args[1..][k]) == x {
        assert Strip(args[k + 1]) == x;
      }
    }
  }

  /** Everything gathered before filtering, in the order md, file,
      arguments. */
  function Gathered(inv: Invocation): (ids: seq<string>)
    ensures forall x :: x in ids <==> x in MdIds(inv) || x in FileIds(inv) || x in StrippedArgs(inv.args)
    ensures |MdIds(inv)| <= |ids| && ids[..|MdIds(inv)|] == MdIds(inv)
  {
    var md, file, args := MdIds(inv), FileIds(inv), StrippedArgs(inv.args);
    assert (md + file + args)[..|md|] == md;
    md + file + args
  }

  /** What `extract_pmids_from_md` gives for `--md`, if given. */
  function MdIds(inv: Invocation): (ids: seq<string>)
    ensures inv.md.None? ==> ids == []
  {
    if inv.md.Some? then ExtractPmidsFromMd(inv.md.value) else []
  }

  /** What `load_pmids_file` gives for `--pmids-file`, if given. */
  function FileIds(inv: Invocation): (ids: seq<string>)
    ensures inv.pmidsFile.None? ==> ids == []
  {
    if inv.pmidsFile.Some? then Unique(LinesIds(SplitLines(inv.pmidsFile.value))) else []
  }

  /** The list `main` works on: the all-digit gathered IDs, each once, in
      the order they were first gathered. */
  function Collect(inv: Invocation): (pmids: seq<string>)
    ensures NoDuplicates(pmids)
    ensures forall x :: x in pmids <==> x in Gathered(inv) && IsDigits(x)
  {
    Unique(Filter(Gathered(inv), IsDigits))
  }

  /** The cache as `main` loads it: read when the file exists, whatever
      `--merge` says; `{}` when it is absent or fails to parse. */
  function LoadExisting(merge: bool, stored: Option<Stored>): (existing: map<string, Json>)
    ensures stored.Some? && stored.value.Records? ==> existing == stored.value.records
    ensures stored.None? || stored.value.Unparsable? ==> existing == map[]
  {
    var doMerge := merge || stored.Some?;
    if doMerge && stored.Some? then
      match stored.value
      case Unparsable => map[]
      case Records(m) => m
    else map[]
  }

  /** `[p for p in pmids if p not in existing]`. */
  function Missing(pmids: seq<string>, existing: map<string, Json>): (missing: seq<string>)
    ensures forall x :: x in missing <==> x in pmids && x !in existing
  {
    Filter(pmids, p => p !in existing)
  }

  /** `existing.update(fetched)`: every key of either, the fetched value
      where both have one, and every other cached entry unchanged. */
  function Update(existing: map<string, Json>, fetched: map<string, Json>): (r: map<string, Json>)
    ensures r.Keys == existing.Keys + fetched.Keys
    ensures forall k :: k in fetched ==> r[k] == fetched[k]
    ensures forall k :: k in existing && k !in fetched ==> r[k] == existing[k]
  {
    existing + fetched
  }

  /** What a run does: how it ends, what the output file holds afterwards,
      and the requests it sends. */
  datatype Effect = Effect(outcome: Outcome, stored: Option<Stored>, sent: seq<Params>)

  /** A run of `main` on `inv` against the output file holding `stored`,
      the service answering through `lookup`. */
  function RunSpec(inv: Invocation, lookup: Params -> Reply, stored: Option<Stored>): (e: Effect)
    ensures !e.outcome.Wrote? ==> e.stored == stored
    ensures e.outcome.Wrote? ==>
      e.stored.Some? && e.stored.value.Records? && e.outcome.records == |e.stored.value.records|
  {
    var pmids := Collect(inv);
    if pmids == [] then Effect(NoPmids, stored, [])
    else FetchAndMerge(pmids, LoadExisting(inv.merge, stored), inv.email, inv.apiKey, lookup, stored)
  }

  /** Lines 126 to 133 of `main`, once the IDs are collected and the cache
      loaded. */
  function FetchAndMerge(pmids: seq<string>, existing: map<string, Json>, email: Option<string>,
                         apiKey: Option<string>, lookup: Params -> Reply, stored: Option<Stored>): (e: Effect)
    ensures !e.outcome.NoPmids?
    ensures !e.outcome.Wrote? ==> e.stored == stored
    ensures e.outcome.Wrote? ==>
      e.stored.Some? && e.stored.value.Records? && e.outcome.records == |e.stored.value.records|
  {
    var missing := Missing(pmids, existing);
    if missing == [] then Effect(Wrote(|existing|, 0), Some(Records(existing)), [])
    else
      var sent := Issued(Requests(missing, email, apiKey), lookup);
      match Fetch(missing, email, apiKey, lookup)
      case Failure(err) => Effect(Failed(err), stored, sent)
      case Success(fetched) =>
        var merged := Update(existing, fetched);
        Effect(Wrote(|merged|, |missing|), Some(Records(merged)), sent)
  }

  /** Lines 103 to 111 of `main`: gather, keep the all-digit IDs, drop
      repeats. */
  method CollectPmids(inv: Invocation) returns (pmids: seq<string>)
    ensures pmids == Collect(inv)
  {
    pmids := [];
    if inv.md.Some? {
      assert [] + MdIds(inv) == MdIds(inv);
      pmids := pmids + ExtractPmidsFromMd(inv.md.value);
    }
    assert pmids + [] == pmids;
    if inv.pmidsFile.Some? {
      var fromFile := LoadPmidsFile(inv.pmidsFile.value);
      pmids := pmids + fromFile;
    }
    assert pmids == MdIds(inv) + FileIds(inv);
    pmids := pmids + StrippedArgs(inv.args);
    pmids := Filter(pmids, IsDigits);
    pmids := Unique(pmids);
  }

  /** Lines 118 to 124 of `main`: load the cache if the file exists. */
  method LoadCache(merge: bool, file: CacheFile) returns (existing: map<string, Json>)
    ensures existing == LoadExisting(merge, file.stored)
  {
    existing := map[];
    var doMerge := merge || file.stored.Some?;
    if doMerge && file.stored.Some? {
      match file.stored.value
      case Unparsable =>
        existing := map[];
      case Records(m) =>
        existing := m;
    }
  }

  /** `main` as written, on the output file `file`. */
  method Run(inv: Invocation, lookup: Params -> Reply, file: CacheFile) returns (outcome: Outcome, sent: seq<Params>)
    modifies file
    ensures RunSpec(inv, lookup, old(file.stored)) == Effect(outcome, file.stored, sent)
  {
    var pmids := CollectPmids(inv);
    if pmids == [] {
      return NoPmids, [];
    }
    var existing := LoadCache(inv.merge, file);
    var missing := Missing(pmids, existing);
    sent := [];
    if missing != [] {
      var fetched;
      fetched, sent := FetchEsummary(missing, inv.email, inv.apiKey, lookup);
      if fetched.Failure? {
        return Failed(fetched.error), sent;
      }
      existing := Update(existing, fetched.value);
    }
    file.stored := Some(Records(existing));
    outcome := Wrote(|existing|, |missing|);
  }

  /** The collected list keeps the order in which its IDs were first
      gathered, and every one of them is all digits. */
  lemma CollectKeepsFirstOrder(inv: Invocation)
    ensures var c := Collect(inv);
      (forall k :: 0 <= k < |c| ==> IsDigits(c[k]))
      && forall i, j :: 0 <= i < j < |c| ==> FirstIndex(Gathered(inv), c[i]) < FirstIndex(Gathered(inv), c[j])
  {
    var g := Gathered(inv);
    var f := Filter(g, IsDigits);
    var c := Collect(inv);
    forall k | 0 <= k < |c|
      ensures IsDigits(c[k])
    {
      assert c[k] in f;
    }
    forall i, j | 0 <= i < j < |c|
      ensures FirstIndex(g, c[i]) < FirstIndex(g, c[j])
    {
      assert c[i] in f && c[j] in f;
      FilterKeepsFirstOrder(g, IsDigits, c[i], c[j]);
    }
  }

  /** Something is gathered exactly when it comes from `--md`, from
      `--pmids-file`, or from a non-blank argument, stripped. */
  lemma GatheredFrom(inv: Invocation, x: string)
    ensures x in Gathered(inv) <==>
      (x in MdIds(inv) || x in FileIds(inv) || (x != [] && exists k :: 0 <= k < |inv.args| && Strip(inv.args[k]) == x))
  {
    StrippedArgsMembers(inv.args, x);
  }

  /** `main` stops with status 2 exactly when nothing gathered is all
      digits, and then it sends nothing and leaves the output file alone. */
  lemma NoPmidsIff(inv: Invocation, lookup: Params -> Reply, stored: Option<Stored>)
    ensures var e := RunSpec(inv, lookup, stored);
      (e.outcome == NoPmids <==> forall x :: x in Gathered(inv) ==> !IsDigits(x))
      && (e.outcome == NoPmids ==> ExitCode(e.outcome) == 2 && e.stored == stored && e.sent == [])
  {
    var c := Collect(inv);
    if c != [] {
      assert c[0] in Gathered(inv) && IsDigits(c[0]);
    } else {
      assert forall x :: x in Gathered(inv) ==> !IsDigits(x);
    }
  }

  /** A run fails exactly when it has IDs to fetch and one of its requests
      raises; it then exits with status 1 and leaves the output file
      alone. */
  lemma RunFailsIff(inv: Invocation, lookup: Params -> Reply, stored: Option<Stored>)
    ensures var e := RunSpec(inv, lookup, stored);
      var reqs := Requests(Missing(Collect(inv), LoadExisting(inv.merge, stored)), inv.email, inv.apiKey);
      (e.outcome.Failed? <==> Collect(inv) != [] && exists i :: 0 <= i < |reqs| && Raises(lookup(reqs[i])))
      && (e.outcome.Failed? ==> e.stored == stored && ExitCode(e.outcome) == 1)
  {
    var reqs := Requests(Missing(Collect(inv), LoadExisting(inv.merge, stored)), inv.email, inv.apiKey);
    FetchFailsIff(reqs, lookup, map[]);
  }

  /** `--merge` changes nothing: the cache is loaded whenever the file
      exists. */
  lemma MergeFlagIgnored(inv: Invocation, lookup: Params -> Reply, stored: Option<Stored>)
    ensures RunSpec(inv.(merge := true), lookup, stored) == RunSpec(inv.(merge := false), lookup, stored)
  {
    var withFlag, withoutFlag := inv.(merge := true), inv.(merge := false);
    assert withFlag.md == withoutFlag.md && withFlag.pmidsFile == withoutFlag.pmidsFile;
    assert withFlag.args == withoutFlag.args;
    assert MdIds(withFlag) == MdIds(withoutFlag) && FileIds(withFlag) == FileIds(withoutFlag);
    assert Collect(withFlag) == Collect(withoutFlag);
    assert LoadExisting(true, stored) == LoadExisting(false, stored);
  }

  /** `missing` holds each requested ID the cache lacks, once, in the
      requested order. */
  lemma MissingKeepsOrder(pmids: seq<string>, existing: map<string, Json>)
    requires NoDuplicates(pmids)
    ensures var m := Missing(pmids, existing);
      NoDuplicates(m) && forall i, j :: 0 <= i < j < |m| ==> FirstIndex(pmids, m[i]) < FirstIndex(pmids, m[j])
  {
    FilterDistinct(pmids, p => p !in existing);
  }

  /** A run sends requests exactly when some collected ID is not cached. */
  lemma FetchesIffMissing(inv: Invocation, lookup: Params -> Reply, stored: Option<Stored>)
    ensures RunSpec(inv, lookup, stored).sent != [] <==>
      exists p :: p in Collect(inv) && p !in LoadExisting(inv.merge, stored)
  {
    var c := Collect(inv);
    var existing := LoadExisting(inv.merge, stored);
    var missing := Missing(c, existing);
    if c != [] {
      SendsIffMissing(c, existing, inv.email, inv.apiKey, lookup, stored);
    }
    if missing != [] {
      assert missing[0] in c && missing[0] !in existing;
    }
  }

  lemma SendsIffMissing(pmids: seq<string>, existing: map<string, Json>, email: Option<string>,
                        apiKey: Option<string>, lookup: Params -> Reply, stored: Option<Stored>)
    ensures FetchAndMerge(pmids, existing, email, apiKey, lookup, stored).sent != [] <==> Missing(pmids, existing) != []
  {
    var missing := Missing(pmids, existing);
    if missing != [] {
      assert |Requests(missing, email, apiKey)| > 0;
    }
  }

  /** When every record the service returns was asked for, no cached entry
      changes. */
  lemma CachedEntriesKept(pmids: seq<string>, existing: map<string, Json>, fetched: map<string, Json>)
    requires forall k :: k in fetched ==> k in Missing(pmids, existing)
    ensures forall k :: k in existing ==> Update(existing, fetched)[k] == existing[k]
  {
  }

  /** After the merge, the IDs still missing are those the service did not
      return. */
  lemma {:induction false} RerunMissing(pmids: seq<string>, existing: map<string, Json>, fetched: map<string, Json>)
    ensures Missing(pmids, Update(existing, fetched)) == Filter(Missing(pmids, existing), p => p !in fetched)
  {
    if pmids != [] {
      RerunMissing(pmids[1..], existing, fetched);
    }
  }

  /** With every collected ID already in the cache, a run sends nothing and
      writes the same records back. */
  lemma CachedRunIsQuiet(inv: Invocation, lookup: Params -> Reply, m: map<string, Json>)
    requires forall p :: p in Collect(inv) ==> p in m
    ensures RunSpec(inv, lookup, Some(Records(m))).sent == []
    ensures RunSpec(inv, lookup, Some(Records(m))).stored == Some(Records(m))
  {
    var pmids := Collect(inv);
    if pmids != [] {
      NothingMissing(pmids, m);
      assert RunSpec(inv, lookup, Some(Records(m))) == FetchAndMerge(pmids, m, inv.email, inv.apiKey, lookup, Some(Records(m)));
    }
  }

  lemma {:induction false} NothingMissing(pmids: seq<string>, m: map<string, Json>)
    requires forall p :: p in pmids ==> p in m
    ensures Missing(pmids, m) == []
  {
    if pmids != [] {
      assert pmids[0] in m;
      NothingMissing(pmids[1..], m);
    }
  }

  /** A run whose replies list every ID it asked for leaves all collected IDs
      in the cache, so the next run is quiet. */
  lemma CompleteRunCachesAll(inv: Invocation, lookup: Params -> Reply, stored: Option<Stored>)
    requires RunSpec(inv, lookup, stored).outcome.Wrote?
    requires var missing := Missing(Collect(inv), LoadExisting(inv.merge, stored));
      var replies := Replies(Requests(missing, inv.email, inv.apiKey), lookup);
      forall p :: p in missing ==> exists i :: 0 <= i < |replies| && p in ReplyUids(replies[i])
    ensures var e := RunSpec(inv, lookup, stored);
      e.stored.Some? && e.stored.value.Records?
      && forall p :: p in Collect(inv) ==> p in e.stored.value.records
  {
    var existing := LoadExisting(inv.merge, stored);
    var missing := Missing(Collect(inv), existing);
    if missing != [] {
      var reqs := Requests(missing, inv.email, inv.apiKey);
      FetchedEntries(reqs, lookup, map[]);
    }
  }
}
