/** The `/search` endpoint of the page-title API (api/main.py): guards, the
    request body, and the merge of every hit's page titles into one list. */
module WikiApi {
  import opened Wrappers
  import opened Text
  import opened Distinct
  import opened JsonDoc
  import opened Engine
  import opened WikiLinks
  import opened SeqFacts

  const UnavailableDetail: string := "Elasticsearch service is unavailable."
  const MissingQueryDetail: string := "Query parameter 'q' is required."
  const ErrorPrefix: string := "An error occurred during the search: "

  /** How many hits the page-title search asks for. */
  const ResultSize: int := 10

  /** The endpoint's answer: `{"query": q, "results": [...]}`, an
      `HTTPException` with its status and detail, or the framework's
      rejection of a query parameter that fails validation (status 422). */
  datatype ApiResponse =
    | Results(query: string, results: seq<string>)
    | HttpError(status: nat, detail: string)
    | InvalidParameter(name: string)

  /** The request body of the page-title search. */
  function WikiQuery(q: string): Json {
    var body := JObj(map["query" := JStr(q), "operator" := JStr("and")]);
    JObj(map["query" := JObj(map["match" := JObj(map["body" := body])]), "size" := JInt(ResultSize)])
  }

  /** The request is a `match` on the `body` field for `q`, with every term
      required, and asks for at most `ResultSize` hits; it holds nothing else. */
  lemma WikiQueryShape(q: string)
    ensures KeysAt(WikiQuery(q), []) == {"query", "size"}
    ensures KeysAt(WikiQuery(q), ["query"]) == {"match"}
    ensures KeysAt(WikiQuery(q), ["query", "match"]) == {"body"}
    ensures KeysAt(WikiQuery(q), ["query", "match", "body"]) == {"query", "operator"}
    ensures Lookup(WikiQuery(q), ["query", "match", "body", "query"]) == Some(JStr(q))
    ensures Lookup(WikiQuery(q), ["query", "match", "body", "operator"]) == Some(JStr("and"))
    ensures Lookup(WikiQuery(q), ["size"]) == Some(JInt(ResultSize))
  {
    assert ["query", "match", "body", "query"][1..] == ["match", "body", "query"];
    assert ["match", "body", "query"][1..] == ["body", "query"];
    assert ["query", "match", "body", "operator"][1..] == ["match", "body", "operator"];
    assert ["match", "body", "operator"][1..] == ["body", "operator"];
    assert ["query", "match", "body"][1..] == ["match", "body"];
  }

  /** The text of a `body` field: a list of lines is joined with "\n". */
  function BodyText(v: Value): string {
    match v
    case Str(s) => s
    case Lines(ls) => Join("\n", ls)
  }

  /** The lines `parse_wiki_body` reads for a hit: those of its `body`, or
      none when `_source` has no `body`. */
  function HitLines(h: Hit): seq<string> {
    match h.source
    case Some(src) => if "body" in src then SplitLines(BodyText(src["body"])) else []
    case None => []
  }

  /** The page titles of one hit. A hit without `_source` raises KeyError;
      a `_source` without `body` contributes nothing. */
  function HitTitles(h: Hit, q: string): (r: Result<seq<string>, string>)
    ensures r.Failure? <==> h.source.None?
    ensures r.Failure? ==> r.error == "'_source'"
    ensures r.Success? ==> NoDup(r.value)
    ensures r.Success? ==> forall t :: t in r.value <==>
      exists line :: line in HitLines(h) && Matches(line, q) && FirstLink(line) == Some(t)
    ensures r.Success? ==> r.value == Dedup(Candidates(HitLines(h), q))
  {
    match h.source
    case None => Failure("'_source'")
    case Some(src) =>
      if "body" in src then
        var pages := ParseWikiBody(BodyText(src["body"]), q);
        assert pages == ExtractTitles(HitLines(h), q);
        Success(pages)
      else
        Success([])
  }

  /** A list-valued `body` of newline-free lines yields the titles of those
      very lines. */
  lemma ListBodyReadLineByLine(h: Hit, q: string)
    requires h.source.Some? && "body" in h.source.value && h.source.value["body"].Lines?
    requires forall i :: 0 <= i < |h.source.value["body"].lines| ==> '\n' !in h.source.value["body"].lines[i]
    ensures HitTitles(h, q) == Success(ExtractTitles(h.source.value["body"].lines, q))
  {
    ExtractJoinedLines(h.source.value["body"].lines, q);
  }

  /** The merge loop of the handler as written: for each hit in order, append
      its titles that are not yet in `acc`; the first hit without `_source`
      aborts with its KeyError. */
  function Merge(hits: seq<Hit>, q: string, acc: seq<string>): Result<seq<string>, string>
    decreases |hits|
  {
    if |hits| == 0 then Success(acc)
    else
      match HitTitles(hits[0], q)
      case Failure(e) => Failure(e)
      case Success(pages) => Merge(hits[1..], q, AppendNew(acc, pages))
  }

  /** Every hit's per-line titles, hit after hit, repeats included. */
  function AllCandidates(hits: seq<Hit>, q: string): seq<string> {
    FlatMap(hits, h => Candidates(HitLines(h), q))
  }

  /** A title is among all per-line titles exactly when it is among those
      of some hit. */
  lemma AllCandidatesMember(hits: seq<Hit>, q: string, t: string)
    ensures t in AllCandidates(hits, q) <==> exists k :: 0 <= k < |hits| && t in Candidates(HitLines(hits[k]), q)
  {
    FlatMapMember(hits, h => Candidates(HitLines(h), q), t);
  }

  /** The merge fails exactly when some hit has no `_source`, and otherwise
      appends to `acc` the first occurrences of all per-line titles of all
      hits: de-duplicating within each hit first changes nothing. */
  lemma {:induction false} MergeSpec(hits: seq<Hit>, q: string, acc: seq<string>)
    ensures Merge(hits, q, acc).Success? <==> forall k :: 0 <= k < |hits| ==> hits[k].source.Some?
    ensures Merge(hits, q, acc).Failure? ==> Merge(hits, q, acc).error == "'_source'"
    ensures Merge(hits, q, acc).Success? ==> Merge(hits, q, acc).value == AppendNew(acc, AllCandidates(hits, q))
    decreases |hits|
  {
    if |hits| > 0 {
      if hits[0].source.None? {
        assert Merge(hits, q, acc) == Failure("'_source'");
      } else {
        var c := Candidates(HitLines(hits[0]), q);
        var next := AppendNew(acc, Dedup(c));
        assert HitTitles(hits[0], q) == Success(Dedup(c));
        assert Merge(hits, q, acc) == Merge(hits[1..], q, next);
        MergeSpec(hits[1..], q, next);
        assert forall k :: 1 <= k < |hits| ==> hits[k] == hits[1..][k - 1];
        assert AllCandidates(hits, q) == c + AllCandidates(hits[1..], q);
        AppendNewDedup(acc, c);
        AppendNewConcat(acc, c, AllCandidates(hits[1..], q));
      }
    }
  }

  /** The handler `search_wiki`, given whether the engine connection is up,
      the `q` parameter and the engine. Absence of the engine is reported
      first, then a missing or empty `q`; in both cases no request is
      made, so the answer does not depend on `engine`. */
  function SearchWiki(available: bool, q: Option<string>, engine: Json -> EngineReply): (r: ApiResponse)
    ensures !available ==> r == HttpError(503, UnavailableDetail)
    ensures available && (q.None? || q.value == []) ==> r == HttpError(400, MissingQueryDetail)
    ensures r.Results? ==> available && q.Some? && r.query == q.value
    ensures r.Results? || r.HttpError?
    ensures r.HttpError? && r.status == 500 ==> available && q.Some? && q.value != []
  {
    if !available then HttpError(503, UnavailableDetail)
    else if q.None? || q.value == [] then HttpError(400, MissingQueryDetail)
    else
      match engine(WikiQuery(q.value))
      case Failed(message) => HttpError(500, ErrorPrefix + message)
      case Replied(block) =>
        if block.None? || block.value.hits.None? then HttpError(500, ErrorPrefix + "'hits'")
        else
          match Merge(block.value.hits.value, q.value, [])
          case Failure(e) => HttpError(500, ErrorPrefix + e)
          case Success(pages) => Results(q.value, pages)
  }

  /** A successful page-title search: for a reply whose hits all carry a
      `_source`, the results are the first occurrences, hit by hit and line
      by line, of the titles of matching lines; no title twice, and exactly
      the titles found in some hit. */
  lemma SearchWikiResults(available: bool, q: string, engine: Json -> EngineReply, total: Option<Total>, hits: seq<Hit>)
    requires available && q != []
    requires engine(WikiQuery(q)) == Replied(Some(HitsBlock(total, Some(hits))))
    requires forall k :: 0 <= k < |hits| ==> hits[k].source.Some?
    ensures SearchWiki(available, Some(q), engine) == Results(q, Dedup(AllCandidates(hits, q)))
    ensures NoDup(SearchWiki(available, Some(q), engine).results)
    ensures forall t :: t in SearchWiki(available, Some(q), engine).results <==>
      exists k :: 0 <= k < |hits| && t in HitTitles(hits[k], q).value
  {
    MergeSpec(hits, q, []);
    var r := Dedup(AllCandidates(hits, q));
    assert Merge(hits, q, []) == Success(r);
    assert SearchWiki(available, Some(q), engine) == Results(q, r);
    forall t
      ensures t in r <==> exists k :: 0 <= k < |hits| && t in HitTitles(hits[k], q).value
    {
      HitTitlesMember(hits, q, t);
    }
  }

  lemma HitTitlesMember(hits: seq<Hit>, q: string, t: string)
    requires forall k :: 0 <= k < |hits| ==> hits[k].source.Some?
    ensures t in AllCandidates(hits, q) <==> exists k :: 0 <= k < |hits| && t in HitTitles(hits[k], q).value
  {
    AllCandidatesMember(hits, q, t);
    forall k | 0 <= k < |hits|
      ensures t in HitTitles(hits[k], q).value <==> t in Candidates(HitLines(hits[k]), q)
    {
    }
  }

  /** The failures after the guards: the engine's error, a reply without
      `hits.hits`, or a hit without `_source`, each as status 500 with the
      message attached. */
  lemma SearchWikiFailures(available: bool, q: string, engine: Json -> EngineReply)
    requires available && q != []
    ensures var reply := engine(WikiQuery(q));
      reply.Failed? ==> SearchWiki(available, Some(q), engine) == HttpError(500, ErrorPrefix + reply.message)
    ensures var reply := engine(WikiQuery(q));
      reply.Replied? && (reply.hitsBlock.None? || reply.hitsBlock.value.hits.None?) ==>
        SearchWiki(available, Some(q), engine) == HttpError(500, ErrorPrefix + "'hits'")
    ensures var reply := engine(WikiQuery(q));
      (reply.Replied? && reply.hitsBlock.Some? && reply.hitsBlock.value.hits.Some? &&
       exists k :: 0 <= k < |reply.hitsBlock.value.hits.value| && reply.hitsBlock.value.hits.value[k].source.None?) ==>
        SearchWiki(available, Some(q), engine) == HttpError(500, ErrorPrefix + "'_source'")
  {
    var reply := engine(WikiQuery(q));
    if reply.Replied? && reply.hitsBlock.Some? && reply.hitsBlock.value.hits.Some? {
      MergeSpec(reply.hitsBlock.value.hits.value, q, []);
    }
  }

  /** The route as the framework serves it: `q` is declared with a minimum
      length of 1, so an empty `q` is refused with 422 before the handler
      runs, ahead of even the availability check; otherwise the handler
      answers. */
  function SearchEndpoint(available: bool, q: Option<string>, engine: Json -> EngineReply): (r: ApiResponse)
    ensures q == Some([]) <==> r.InvalidParameter?
    ensures r.InvalidParameter? ==> r.name == "q"
    ensures q.None? ==> r == HttpError(if available then 400 else 503, if available then MissingQueryDetail else UnavailableDetail)
    ensures r.Results? ==> q.Some? && r.query == q.value && q.value != []
  {
    if q == Some([]) then InvalidParameter("q") else SearchWiki(available, q, engine)
  }
}
