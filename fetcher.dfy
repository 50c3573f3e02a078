/**
 * `fetch_esummary`: the IDs go out in groups of 200, one esummary request
 * per group, and the `uids` of each reply are folded into one map from ID
 * to summary. The request itself (URL encoding, HTTP, decoding the JSON
 * reply) is a function `lookup` from the query parameters to what came
 * back.
 */
module Fetcher {
  import opened Wrappers
  import opened Chunking

  /** A JSON value as `json.loads` returns it. */
  datatype Json =
    | Null
    | Bool(b: bool)
    | Number(n: int)
    | Str(s: string)
    | Array(items: seq<Json>)
    | Object(fields: map<string, Json>)

  /** The `result` member of an esummary reply: its `uids` list, if it has
      one, and the other members, the summaries keyed by ID. */
  datatype Summary = Summary(uids: Option<seq<string>>, entries: map<string, Json>)

  /** A decoded reply body: its `result` member, if it has one. */
  datatype Body = Body(result: Option<Summary>)

  /** What one request brings back: an `HTTPError` or `URLError` raised by
      `urlopen`, or a response with its status and decoded body. */
  datatype Reply = TransportError(reason: string) | Http(status: int, body: Body)

  /** The two `RuntimeError`s the fetch raises. */
  datatype FetchError = BadStatus(status: int) | Unreachable(reason: string)

  /** The query string's parameters, before URL encoding. */
  type Params = map<string, string>

  /** The group size `fetch_esummary` uses. */
  const GroupSize: nat := 200

  /** `",".join(ids)`. */
  function JoinComma(ids: seq<string>): (s: string)
    ensures ids == [] ==> s == []
  {
    if ids == [] then []
    else if |ids| == 1 then ids[0]
    else ids[0] + [','] + JoinComma(ids[1..])
  }

  predicate NoComma(s: string) {
    forall i :: 0 <= i < |s| ==> s[i] != ','
  }

  /** `s.split(",")`: the pieces between commas, always at least one. */
  function SplitComma(s: string): (parts: seq<string>)
    ensures |parts| >= 1
    ensures NoComma(s) ==> parts == [s]
  {
    if s == [] then [[]]
    else
      var rest := SplitComma(s[1..]);
      assert [s[0]] + s[1..] == s;
      if s[0] == ',' then [[]] + rest
      else [[s[0]] + rest[0]] + rest[1..]
  }

  /** Splitting at the first comma of `a + "," + t`, when `a` holds no
      comma, gives `a` and then the pieces of `t`. */
  lemma {:induction false} SplitAfterPiece(a: string, t: string)
    requires NoComma(a)
    ensures SplitComma(a + [','] + t) == [a] + SplitComma(t)
    decreases |a|
  {
    if a == [] {
      assert a + [','] + t == [','] + t;
      assert ([','] + t)[1..] == t;
    } else {
      var s := a + [','] + t;
      assert s[1..] == a[1..] + [','] + t;
      SplitAfterPiece(a[1..], t);
      assert [a[0]] + a[1..] == a;
    }
  }

  /** Joining IDs that hold no comma and splitting again gives them back. */
  lemma {:induction false} SplitJoin(ids: seq<string>)
    requires ids != []
    requires forall k :: 0 <= k < |ids| ==> NoComma(ids[k])
    ensures SplitComma(JoinComma(ids)) == ids
    decreases |ids|
  {
    if |ids| > 1 {
      SplitJoin(ids[1..]);
      SplitAfterPiece(ids[0], JoinComma(ids[1..]));
      assert [ids[0]] + ids[1..] == ids;
    }
  }

  /** Whether an optional argument counts as given: `if email:` is false for
      `None` and for the empty string. */
  predicate Given(o: Option<string>) {
    o.Some? && o.value != []
  }

  /** The query parameters of one group's request. */
  function ParamsFor(group: seq<string>, email: Option<string>, apiKey: Option<string>): (p: Params)
    ensures p.Keys == {"db", "id", "retmode"} + (if Given(email) then {"email"} else {})
                      + (if Given(apiKey) then {"api_key"} else {})
    ensures p["db"] == "pubmed" && p["retmode"] == "json"
    ensures p["id"] == JoinComma(group)
    ensures Given(email) ==> p["email"] == email.value
    ensures Given(apiKey) ==> p["api_key"] == apiKey.value
  {
    var base := map["db" := "pubmed", "id" := JoinComma(group), "retmode" := "json"];
    var withEmail := if Given(email) then base["email" := email.value] else base;
    if Given(apiKey) then withEmail["api_key" := apiKey.value] else withEmail
  }

  /** The requests `fetch_esummary` makes when every one of them succeeds:
      one per group of 200, in order. */
  function Requests(pmids: seq<string>, email: Option<string>, apiKey: Option<string>): (reqs: seq<Params>)
    ensures |reqs| == |Chunk(pmids, GroupSize)|
  {
    var groups := Chunk(pmids, GroupSize);
    seq(|groups|, k requires 0 <= k < |groups| => ParamsFor(groups[k], email, apiKey))
  }

  /** Request `k` asks for group `k`. */
  lemma RequestAt(pmids: seq<string>, email: Option<string>, apiKey: Option<string>, k: nat)
    requires k < |Chunk(pmids, GroupSize)|
    ensures Requests(pmids, email, apiKey)[k] == ParamsFor(Chunk(pmids, GroupSize)[k], email, apiKey)
  {
  }

  /** The IDs the requests carry, split back out of their `id` parameters. */
  function RequestedIds(reqs: seq<Params>): (ids: seq<seq<string>>)
    ensures |ids| == |reqs|
  {
    seq(|reqs|, k requires 0 <= k < |reqs| => if "id" in reqs[k] then SplitComma(reqs[k]["id"]) else [])
  }

  /** Taken together, the requests ask for every ID once, in order, at most
      200 per request. */
  lemma RequestsCoverIds(pmids: seq<string>, email: Option<string>, apiKey: Option<string>)
    requires forall k :: 0 <= k < |pmids| ==> NoComma(pmids[k])
    ensures var reqs := Requests(pmids, email, apiKey);
      Flatten(RequestedIds(reqs)) == pmids
      && forall k :: 0 <= k < |reqs| ==> 0 < |RequestedIds(reqs)[k]| <= GroupSize
  {
    var groups := Chunk(pmids, GroupSize);
    var reqs := Requests(pmids, email, apiKey);
    FlattenChunk(pmids, GroupSize);
    forall k | 0 <= k < |groups|
      ensures RequestedIds(reqs)[k] == groups[k]
    {
      forall j | 0 <= j < |groups[k]|
        ensures NoComma(groups[k][j])
      {
        ChunkMember(pmids, GroupSize, k, j);
      }
      SplitJoin(groups[k]);
    }
    assert RequestedIds(reqs) == groups;
  }

  /** `result = j.get("result", {})`. */
  function ResultOf(body: Body): (s: Summary)
    ensures body.result.None? ==> s == Summary(None, map[])
  {
    body.result.GetOr(Summary(None, map[]))
  }

  /** `result.get("uids", [])`. */
  function UidsOf(s: Summary): (uids: seq<string>)
    ensures s.uids.None? ==> uids == []
  {
    s.uids.GetOr([])
  }

  /** `result.get(uid, {})`. */
  function Entry(s: Summary, uid: string): (e: Json)
    ensures uid in s.entries ==> e == s.entries[uid]
    ensures uid !in s.entries ==> e == Object(map[])
  {
    if uid in s.entries then s.entries[uid] else Object(map[])
  }

  /** `for uid in uids: out[uid] = result.get(uid, {})`: every listed ID is
      (re)set to its summary, or `{}` when the reply has none for it, and
      every other entry stays. */
  function AddUids(out: map<string, Json>, uids: seq<string>, s: Summary): (r: map<string, Json>)
    ensures r.Keys == out.Keys + set u | u in uids
    ensures forall u :: u in uids ==> r[u] == Entry(s, u)
    ensures forall k :: k in out && k !in uids ==> r[k] == out[k]
  {
    if uids == [] then out
    else
      var last := uids[|uids| - 1];
      assert uids == uids[..|uids| - 1] + [last];
      AddUids(out, uids[..|uids| - 1], s)[last := Entry(s, last)]
  }

  /** Whether a reply makes `fetch_esummary` raise. */
  predicate Raises(reply: Reply) {
    reply.TransportError? || reply.status != 200
  }

  /** The IDs a reply lists (none for a failed one). */
  function ReplyUids(reply: Reply): (uids: seq<string>)
    ensures Raises(reply) ==> uids == []
  {
    if Raises(reply) then [] else UidsOf(ResultOf(reply.body))
  }

  /** One group's reply folded into the accumulated map, or the error it
      raises. */
  function Step(out: map<string, Json>, reply: Reply): (r: Result<map<string, Json>, FetchError>)
    ensures r.Failure? <==> Raises(reply)
    ensures r.Success? ==> r.value == AddUids(out, ReplyUids(reply), ResultOf(reply.body))
  {
    match reply
    case TransportError(reason) => Failure(Unreachable(reason))
    case Http(status, body) =>
      if status != 200 then Failure(BadStatus(status))
      else Success(AddUids(out, UidsOf(ResultOf(body)), ResultOf(body)))
  }

  /** The loop of `fetch_esummary` from some group on, with the map built so
      far: the first failure ends it with that failure. */
  function FetchFrom(reqs: seq<Params>, lookup: Params -> Reply, out: map<string, Json>)
    : (r: Result<map<string, Json>, FetchError>)
    ensures r.Success? ==> out.Keys <= r.value.Keys
  {
    if reqs == [] then Success(out)
    else
      match Step(out, lookup(reqs[0]))
      case Failure(e) => Failure(e)
      case Success(next) => FetchFrom(reqs[1..], lookup, next)
  }

  /** `fetch_esummary(pmids, email, api_key)`, the service answering through
      `lookup`. */
  function Fetch(pmids: seq<string>, email: Option<string>, apiKey: Option<string>, lookup: Params -> Reply)
    : (r: Result<map<string, Json>, FetchError>)
    ensures pmids == [] ==> r == Success(map[])
  {
    FetchFrom(Requests(pmids, email, apiKey), lookup, map[])
  }

  /** The requests actually sent: all of them, up to and including the first
      that fails. */
  function Issued(reqs: seq<Params>, lookup: Params -> Reply): (sent: seq<Params>)
    ensures |sent| <= |reqs| && sent == reqs[..|sent|]
    ensures reqs != [] ==> sent != []
  {
    if reqs == [] then []
    else if Raises(lookup(reqs[0])) then [reqs[0]]
    else [reqs[0]] + Issued(reqs[1..], lookup)
  }

  /** One step of the loop: a group's request that does not fail moves the
      fold on by its reply. */
  lemma FetchStep(reqs: seq<Params>, lookup: Params -> Reply, i: nat, out: map<string, Json>)
    requires i < |reqs| && !Raises(lookup(reqs[i]))
    ensures FetchFrom(reqs[i..], lookup, out)
         == FetchFrom(reqs[i + 1..], lookup, AddUids(out, ReplyUids(lookup(reqs[i])), ResultOf(lookup(reqs[i]).body)))
  {
    assert reqs[i..][1..] == reqs[i + 1..];
  }

  /** A prefix one longer is the prefix and one more element. */
  lemma PrefixStep<T>(xs: seq<T>, i: nat)
    requires i < |xs|
    ensures xs[..i + 1] == xs[..i] + [xs[i]]
  {
  }

  /** Adding one more listed ID sets that one entry. */
  lemma AddUidsStep(out: map<string, Json>, uids: seq<string>, j: nat, s: Summary)
    requires j < |uids|
    ensures AddUids(out, uids[..j + 1], s) == AddUids(out, uids[..j], s)[uids[j] := Entry(s, uids[j])]
  {
    var prefix := uids[..j + 1];
    assert prefix[|prefix| - 1] == uids[j];
    assert prefix[..|prefix| - 1] == uids[..j];
  }

  /** The inner loop of `fetch_esummary`: `out[uid] = result.get(uid, {})`
      for each listed `uid` in turn. */
  method AddUidsInPlace(out: map<string, Json>, uids: seq<string>, result: Summary)
    returns (r: map<string, Json>)
    ensures r == AddUids(out, uids, result)
  {
    r := out;
    for j := 0 to |uids|
      invariant r == AddUids(out, uids[..j], result)
    {
      AddUidsStep(out, uids, j, result);
      r := r[uids[j] := Entry(result, uids[j])];
    }
    assert uids[..|uids|] == uids;
  }

  /** The body of the loop of `fetch_esummary` for one group: send the
      request, raise on a transport error or a status other than 200, and
      otherwise write the reply's `uids` into `out`. */
  method FetchGroup(out: map<string, Json>, params: Params, lookup: Params -> Reply)
    returns (step: Result<map<string, Json>, FetchError>)
    ensures step == Step(out, lookup(params))
  {
    var reply := lookup(params);
    if reply.TransportError? {
      return Failure(Unreachable(reply.reason));
    }
    if reply.status != 200 {
      return Failure(BadStatus(reply.status));
    }
    var result := ResultOf(reply.body);
    var next := AddUidsInPlace(out, UidsOf(result), result);
    return Success(next);
  }

  /** `fetch_esummary`, the loop as written: one request per group, and the
      `uids` of each reply written into `out`. It also returns the requests
      it sent, in order. */
  method FetchEsummary(pmids: seq<string>, email: Option<string>, apiKey: Option<string>, lookup: Params -> Reply)
    returns (r: Result<map<string, Json>, FetchError>, sent: seq<Params>)
    ensures r == Fetch(pmids, email, apiKey, lookup)
    ensures sent == Issued(Requests(pmids, email, apiKey), lookup)
  {
    var groups := Chunk(pmids, GroupSize);
    ghost var reqs := Requests(pmids, email, apiKey);
    var out: map<string, Json> := map[];
    sent := [];
    for i := 0 to |groups|
      invariant sent == reqs[..i]
      invariant forall j :: 0 <= j < i ==> !Raises(lookup(reqs[j]))
      invariant FetchFrom(reqs, lookup, map[]) == FetchFrom(reqs[i..], lookup, out)
    {
      var params := ParamsFor(groups[i], email, apiKey);
      RequestAt(pmids, email, apiKey, i);
      PrefixStep(reqs, i);
      sent := sent + [params];
      var step := FetchGroup(out, params, lookup);
      if step.Failure? {
        FirstFailureDecides(reqs, lookup, map[], i);
        FirstFailureLastSent(reqs, lookup, i);
        return step, sent;
      }
      FetchStep(reqs, lookup, i, out);
      out := step.value;
    }
    assert reqs[|groups|..] == [];
    AllSentOnSuccess(reqs, lookup);
    r := Success(out);
  }

  /** The fetch fails exactly when some group's reply fails: there is no
      partial result. */
  lemma {:induction false} FetchFailsIff(reqs: seq<Params>, lookup: Params -> Reply, out: map<string, Json>)
    ensures FetchFrom(reqs, lookup, out).Failure? <==> exists i :: 0 <= i < |reqs| && Raises(lookup(reqs[i]))
    decreases |reqs|
  {
    if reqs != [] && !Raises(lookup(reqs[0])) {
      var next := Step(out, lookup(reqs[0])).value;
      FetchFailsIff(reqs[1..], lookup, next);
      if i :| 0 <= i < |reqs| && Raises(lookup(reqs[i])) {
        assert reqs[1..][i - 1] == reqs[i];
      }
    }
  }

  /** The first failing group decides the error. */
  lemma {:induction false} FirstFailureDecides(reqs: seq<Params>, lookup: Params -> Reply, out: map<string, Json>, i: nat)
    requires i < |reqs| && Raises(lookup(reqs[i]))
    requires forall j :: 0 <= j < i ==> !Raises(lookup(reqs[j]))
    ensures FetchFrom(reqs, lookup, out) == Step(out, lookup(reqs[i]))
    decreases i
  {
    if i > 0 {
      var next := Step(out, lookup(reqs[0])).value;
      FirstFailureDecides(reqs[1..], lookup, next, i - 1);
      assert reqs[1..][i - 1] == reqs[i];
    }
  }

  /** The request of the first failing group is the last one sent. */
  lemma {:induction false} FirstFailureLastSent(reqs: seq<Params>, lookup: Params -> Reply, i: nat)
    requires i < |reqs| && Raises(lookup(reqs[i]))
    requires forall j :: 0 <= j < i ==> !Raises(lookup(reqs[j]))
    ensures Issued(reqs, lookup) == reqs[..i + 1]
    decreases i
  {
    if i > 0 {
      FirstFailureLastSent(reqs[1..], lookup, i - 1);
      assert reqs[1..][..i] == reqs[1..i + 1];
      assert [reqs[0]] + reqs[1..i + 1] == reqs[..i + 1];
    }
  }

  /** When no reply fails, every request is sent. */
  lemma {:induction false} AllSentOnSuccess(reqs: seq<Params>, lookup: Params -> Reply)
    requires forall i :: 0 <= i < |reqs| ==> !Raises(lookup(reqs[i]))
    ensures Issued(reqs, lookup) == reqs
    decreases |reqs|
  {
    if reqs != [] {
      AllSentOnSuccess(reqs[1..], lookup);
      assert [reqs[0]] + reqs[1..] == reqs;
    }
  }

  /** Whether reply `i` is the last of the replies to list `u`. */
  predicate LastListing(replies: seq<Reply>, i: nat, u: string)
    requires i < |replies|
  {
    u in ReplyUids(replies[i]) && forall j :: i < j < |replies| ==> u !in ReplyUids(replies[j])
  }

  function Replies(reqs: seq<Params>, lookup: Params -> Reply): (replies: seq<Reply>)
    ensures |replies| == |reqs|
    ensures forall i :: 0 <= i < |reqs| ==> replies[i] == lookup(reqs[i])
  {
    seq(|reqs|, i requires 0 <= i < |reqs| => lookup(reqs[i]))
  }

  /** A successful fetch maps every ID some reply lists, and keeps what it
      started from; an ID listed by several replies gets the summary from the
      last of them. */
  lemma FetchedEntries(reqs: seq<Params>, lookup: Params -> Reply, out: map<string, Json>)
    requires FetchFrom(reqs, lookup, out).Success?
    ensures var m, replies := FetchFrom(reqs, lookup, out).value, Replies(reqs, lookup);
      && (forall u :: u in m <==> u in out || exists i :: 0 <= i < |replies| && u in ReplyUids(replies[i]))
      && (forall i, u :: 0 <= i < |replies| && LastListing(replies, i, u) ==> m[u] == Entry(ResultOf(replies[i].body), u))
      && (forall u :: u in out && (forall i :: 0 <= i < |replies| ==> u !in ReplyUids(replies[i])) ==> m[u] == out[u])
  {
    FetchedKeys(reqs, lookup, out);
    LastListingWins(reqs, lookup, out);
    UnlistedKept(reqs, lookup, out);
  }

  /** The first reply of a successful fetch does not raise, and the rest of
      the fetch goes on from the map that reply gives. */
  lemma FetchHead(reqs: seq<Params>, lookup: Params -> Reply, out: map<string, Json>)
    requires reqs != [] && FetchFrom(reqs, lookup, out).Success?
    ensures !Raises(lookup(reqs[0]))
    ensures FetchFrom(reqs[1..], lookup, Step(out, lookup(reqs[0])).value) == FetchFrom(reqs, lookup, out)
    ensures var replies, rest := Replies(reqs, lookup), Replies(reqs[1..], lookup);
      |rest| == |replies| - 1 && forall i :: 0 <= i < |rest| ==> rest[i] == replies[i + 1]
  {
    FetchFailsIff(reqs, lookup, out);
  }

  lemma {:induction false} FetchedKeys(reqs: seq<Params>, lookup: Params -> Reply, out: map<string, Json>)
    requires FetchFrom(reqs, lookup, out).Success?
    ensures var m, replies := FetchFrom(reqs, lookup, out).value, Replies(reqs, lookup);
      forall u :: u in m <==> u in out || exists i :: 0 <= i < |replies| && u in ReplyUids(replies[i])
    decreases |reqs|
  {
    if reqs != [] {
      FetchHead(reqs, lookup, out);
      var next := Step(out, lookup(reqs[0])).value;
      FetchedKeys(reqs[1..], lookup, next);
      var m, replies, rest := FetchFrom(reqs, lookup, out).value, Replies(reqs, lookup), Replies(reqs[1..], lookup);
      forall u | u in m
        ensures u in out || exists i :: 0 <= i < |replies| && u in ReplyUids(replies[i])
      {
        if u !in next {
          var i :| 0 <= i < |rest| && u in ReplyUids(rest[i]);
          assert u in ReplyUids(replies[i + 1]);
        } else if u !in out {
          assert u in ReplyUids(replies[0]);
        }
      }
      forall u | u in out || exists i :: 0 <= i < |replies| && u in ReplyUids(replies[i])
        ensures u in m
      {
        if u !in out {
          var i :| 0 <= i < |replies| && u in ReplyUids(replies[i]);
          if i > 0 {
            assert u in ReplyUids(rest[i - 1]);
          }
        }
      }
    }
  }

  lemma {:induction false} LastListingWins(reqs: seq<Params>, lookup: Params -> Reply, out: map<string, Json>)
    requires FetchFrom(reqs, lookup, out).Success?
    ensures var m, replies := FetchFrom(reqs, lookup, out).value, Replies(reqs, lookup);
      forall i, u :: 0 <= i < |replies| && LastListing(replies, i, u) ==> u in m && m[u] == Entry(ResultOf(replies[i].body), u)
    decreases |reqs|
  {
    if reqs != [] {
      FetchHead(reqs, lookup, out);
      var next := Step(out, lookup(reqs[0])).value;
      LastListingWins(reqs[1..], lookup, next);
      UnlistedKept(reqs[1..], lookup, next);
      var m, replies, rest := FetchFrom(reqs, lookup, out).value, Replies(reqs, lookup), Replies(reqs[1..], lookup);
      forall i, u | 0 <= i < |replies| && LastListing(replies, i, u)
        ensures u in m && m[u] == Entry(ResultOf(replies[i].body), u)
      {
        if i > 0 {
          assert LastListing(rest, i - 1, u);
        } else {
          assert forall j :: 0 <= j < |rest| ==> u !in ReplyUids(rest[j]);
        }
      }
    }
  }

  lemma {:induction false} UnlistedKept(reqs: seq<Params>, lookup: Params -> Reply, out: map<string, Json>)
    requires FetchFrom(reqs, lookup, out).Success?
    ensures var m, replies := FetchFrom(reqs, lookup, out).value, Replies(reqs, lookup);
      forall u :: u in out && (forall i :: 0 <= i < |replies| ==> u !in ReplyUids(replies[i])) ==> u in m && m[u] == out[u]
    decreases |reqs|
  {
    if reqs != [] {
      FetchHead(reqs, lookup, out);
      var next := Step(out, lookup(reqs[0])).value;
      UnlistedKept(reqs[1..], lookup, next);
      var m, replies, rest := FetchFrom(reqs, lookup, out).value, Replies(reqs, lookup), Replies(reqs[1..], lookup);
      forall u | u in out && (forall i :: 0 <= i < |replies| ==> u !in ReplyUids(replies[i]))
        ensures u in m && m[u] == out[u]
      {
        assert u !in ReplyUids(replies[0]);
        assert forall j :: 0 <= j < |rest| ==> u !in ReplyUids(rest[j]);
      }
    }
  }
}
