/** The `/search` endpoint of the crawler's search service (crawler/search.py):
    guards, the highlighted multi-field request body, and the one-to-one
    shaping of the engine's hits into display records with snippets. */
module HighlightSearch {
  import opened Wrappers
  import opened Text
  import opened JsonDoc
  import opened Engine

  const ClientUnavailable: string := "Elasticsearch client is not available."
  const MissingQuery: string := "Query parameter 'q' is required."
  const InternalFailure: string := "An internal error occurred."

  /** Separator between highlight fragments in a snippet. */
  const SnippetSeparator: string := " ... "
  const HighlightOpen: string := "<mark>"
  const HighlightClose: string := "</mark>"
  const FragmentSize: int := 150
  const FragmentCount: int := 1
  /** How many hits the highlighted search asks for. */
  const ResultSize: int := 20

  /** One display record: `{id, title, url_title, modified, snippet}`. A
      field the hit lacks is None (JSON null). */
  datatype ShapedHit = ShapedHit(
    id: Option<string>,
    title: Option<Value>,
    urlTitle: Option<Value>,
    modified: Option<Value>,
    snippet: string)

  /** The endpoint's answer with its status: 200 with total and hits, 400
      with an empty result and an error, 503 or 500 with an error. */
  datatype SearchReply =
    | Found(total: int, hits: seq<ShapedHit>)
    | BadRequest(total: int, hits: seq<ShapedHit>, error: string)
    | Unavailable(error: string)
    | InternalError(error: string)
  {
    function Status(): nat {
      match this
      case Found(_, _) => 200
      case BadRequest(_, _, _) => 400
      case Unavailable(_) => 503
      case InternalError(_) => 500
    }
  }

  /** The request body of the highlighted search. */
  function HighlightQuery(keyword: string): Json {
    var multiMatch := JObj(map[
      "query" := JStr(keyword),
      "fields" := JArr([JStr("title"), JStr("body")]),
      "operator" := JStr("and")]);
    var bodyHighlight := JObj(map[
      "fragment_size" := JInt(FragmentSize),
      "number_of_fragments" := JInt(FragmentCount)]);
    var highlight := JObj(map[
      "fields" := JObj(map["body" := bodyHighlight]),
      "pre_tags" := JArr([JStr(HighlightOpen)]),
      "post_tags" := JArr([JStr(HighlightClose)])]);
    JObj(map[
      "query" := JObj(map["multi_match" := multiMatch]),
      "highlight" := highlight,
      "_source" := JArr([JStr("title"), JStr("title_url_encoded"), JStr("modified")]),
      "size" := JInt(ResultSize)])
  }

  /** The request is a `multi_match` of the keyword over `title` and `body`
      with every term required; it highlights the body in one fragment of
      150 characters between `<mark>` and `</mark>`, returns only `title`,
      `title_url_encoded` and `modified`, and asks for at most 20 hits. */
  lemma HighlightQueryShape(keyword: string)
    ensures KeysAt(HighlightQuery(keyword), []) == {"query", "highlight", "_source", "size"}
    ensures KeysAt(HighlightQuery(keyword), ["query"]) == {"multi_match"}
    ensures KeysAt(HighlightQuery(keyword), ["query", "multi_match"]) == {"query", "fields", "operator"}
    ensures KeysAt(HighlightQuery(keyword), ["highlight"]) == {"fields", "pre_tags", "post_tags"}
    ensures KeysAt(HighlightQuery(keyword), ["highlight", "fields", "body"]) == {"fragment_size", "number_of_fragments"}
    ensures Lookup(HighlightQuery(keyword), ["query", "multi_match", "query"]) == Some(JStr(keyword))
    ensures Lookup(HighlightQuery(keyword), ["query", "multi_match", "fields"]) == Some(JArr([JStr("title"), JStr("body")]))
    ensures Lookup(HighlightQuery(keyword), ["query", "multi_match", "operator"]) == Some(JStr("and"))
    ensures KeysAt(HighlightQuery(keyword), ["highlight", "fields"]) == {"body"}
    ensures Lookup(HighlightQuery(keyword), ["highlight", "fields", "body", "fragment_size"]) == Some(JInt(FragmentSize))
    ensures Lookup(HighlightQuery(keyword), ["highlight", "fields", "body", "number_of_fragments"]) == Some(JInt(FragmentCount))
    ensures Lookup(HighlightQuery(keyword), ["highlight", "pre_tags"]) == Some(JArr([JStr(HighlightOpen)]))
    ensures Lookup(HighlightQuery(keyword), ["highlight", "post_tags"]) == Some(JArr([JStr(HighlightClose)]))
    ensures Lookup(HighlightQuery(keyword), ["_source"]) == Some(JArr([JStr("title"), JStr("title_url_encoded"), JStr("modified")]))
    ensures Lookup(HighlightQuery(keyword), ["size"]) == Some(JInt(ResultSize))
  {
    assert ["query", "multi_match", "query"][1..] == ["multi_match", "query"];
    assert ["query", "multi_match", "fields"][1..] == ["multi_match", "fields"];
    assert ["query", "multi_match", "operator"][1..] == ["multi_match", "operator"];
    assert ["highlight", "fields"][1..] == ["fields"];
    assert ["highlight", "fields", "body", "fragment_size"][1..] == ["fields", "body", "fragment_size"];
    assert ["fields", "body", "fragment_size"][1..] == ["body", "fragment_size"];
    assert ["highlight", "fields", "body", "number_of_fragments"][1..] == ["fields", "body", "number_of_fragments"];
    assert ["fields", "body", "number_of_fragments"][1..] == ["body", "number_of_fragments"];
    assert ["highlight", "pre_tags"][1..] == ["pre_tags"];
    assert ["highlight", "post_tags"][1..] == ["post_tags"];
  }

  /** The snippet of one hit: its body highlight fragments joined with
      " ... ", or "" when there are none. */
  function Snippet(fragments: seq<string>): (r: string)
    ensures |fragments| == 1 ==> r == fragments[0]
    ensures r == [] <==> fragments == [] || fragments == [[]]
  {
    if fragments == [] then [] else Join(SnippetSeparator, fragments)
  }

  /** The layout of a snippet: fragment `i` sits at `Offset(i)` and, unless
      it is the last, is followed by " ... "; the length leaves room for
      nothing else. */
  lemma SnippetLayout(fragments: seq<string>, i: nat)
    requires i < |fragments|
    ensures |Snippet(fragments)| + |SnippetSeparator| == Offset(SnippetSeparator, fragments, |fragments|)
    ensures IsAt(Snippet(fragments), fragments[i], Offset(SnippetSeparator, fragments, i))
    ensures i < |fragments| - 1 ==>
      IsAt(Snippet(fragments), SnippetSeparator, Offset(SnippetSeparator, fragments, i) + |fragments[i]|)
  {
    var sep, joined := SnippetSeparator, Join(SnippetSeparator, fragments);
    assert Snippet(fragments) == joined;
    assert |joined| + |sep| == Offset(sep, fragments, |fragments|) by {
      JoinLength(sep, fragments);
    }
    assert IsAt(joined, fragments[i], Offset(sep, fragments, i))
      && (i < |fragments| - 1 ==> IsAt(joined, sep, Offset(sep, fragments, i) + |fragments[i]|)) by {
      JoinPartAt(sep, fragments, i);
    }
  }

  /** The examples the snippet format is documented by. */
  lemma SnippetExamples()
    ensures Snippet([]) == ""
    ensures Snippet(["a"]) == "a"
    ensures Snippet(["a", "b"]) == "a ... b"
  {
  }

  /** `source.get(key)` on `hit.get("_source", {})`. */
  function SourceField(source: Option<Source>, key: string): Option<Value> {
    match source
    case Some(m) => if key in m then Some(m[key]) else None
    case None => None
  }

  /** The display record of one hit. Each field is copied from the hit when
      present and is None otherwise; a missing `highlight` or
      `highlight.body` gives the empty snippet. */
  function ShapeHit(h: Hit): (r: ShapedHit)
    ensures r.id == h.id
    ensures r.title.Some? <==> h.source.Some? && "title" in h.source.value
    ensures r.title.Some? ==> r.title.value == h.source.value["title"]
    ensures r.urlTitle.Some? <==> h.source.Some? && "title_url_encoded" in h.source.value
    ensures r.urlTitle.Some? ==> r.urlTitle.value == h.source.value["title_url_encoded"]
    ensures r.modified.Some? <==> h.source.Some? && "modified" in h.source.value
    ensures r.modified.Some? ==> r.modified.value == h.source.value["modified"]
    ensures h.highlightBody.None? ==> r.snippet == []
    ensures h.highlightBody.Some? ==> r.snippet == Snippet(h.highlightBody.value)
  {
    ShapedHit(
      h.id,
      SourceField(h.source, "title"),
      SourceField(h.source, "title_url_encoded"),
      SourceField(h.source, "modified"),
      Snippet(h.highlightBody.GetOr([])))
  }

  /** The shaping loop: one record per hit, in the same order. */
  method ShapeHits(hits: seq<Hit>) returns (shaped: seq<ShapedHit>)
    ensures |shaped| == |hits|
    ensures forall i :: 0 <= i < |hits| ==> shaped[i] == ShapeHit(hits[i])
  {
    shaped := [];
    var n := 0;
    while n < |hits|
      invariant n <= |hits|
      invariant |shaped| == n
      invariant forall i :: 0 <= i < n ==> shaped[i] == ShapeHit(hits[i])
    {
      shaped := shaped + [ShapeHit(hits[n])];
      n := n + 1;
    }
  }

  /** The hit list `hits.hits` when both keys are there, else nothing. */
  function RawHits(block: Option<HitsBlock>): seq<Hit> {
    if block.Some? && block.value.hits.Some? then block.value.hits.value else []
  }

  /** The reported total: `hits.total.value` when every step is present,
      0 when any step is missing, and an AttributeError when `total` is a
      bare integer. It does not look at the hit list. */
  function TotalOf(block: Option<HitsBlock>): (r: Result<int, string>)
    ensures r.Failure? <==> block.Some? && block.value.total.Some? && block.value.total.value.TotalNumber?
    ensures r.Success? && block.Some? && block.value.total.Some? && block.value.total.value.value.Some? ==>
      r.value == block.value.total.value.value.value
    ensures r.Success? && !(block.Some? && block.value.total.Some? && block.value.total.value.value.Some?) ==>
      r.value == 0
  {
    match block
    case None => Success(0)
    case Some(HitsBlock(total, _)) =>
      match total
      case None => Success(0)
      case Some(TotalObject(value)) => Success(value.GetOr(0))
      case Some(TotalNumber(_)) => Failure("'int' object has no attribute 'get'")
  }

  /** The handler `search`, given whether the client was set up, the `q`
      parameter and the engine. A missing client is reported first, then a
      missing or empty keyword; otherwise the engine is asked once and its
      hits are shaped one to one. */
  method Search(available: bool, q: Option<string>, engine: Json -> EngineReply) returns (resp: SearchReply)
    ensures !available ==> resp == Unavailable(ClientUnavailable)
    ensures available && q.GetOr([]) == [] ==> resp == BadRequest(0, [], MissingQuery)
    ensures available && q.GetOr([]) != [] ==>
      var reply := engine(HighlightQuery(q.value));
      && (resp.Found? <==> !reply.Failed? && TotalOf(reply.hitsBlock).Success?)
      && (resp.InternalError? <==> reply.Failed? || TotalOf(reply.hitsBlock).Failure?)
      && (resp.InternalError? ==> resp.error == InternalFailure)
      && (resp.Found? ==> resp.total == TotalOf(reply.hitsBlock).value)
      && (resp.Found? ==> |resp.hits| == |RawHits(reply.hitsBlock)|)
      && (resp.Found? ==> forall i :: 0 <= i < |resp.hits| ==> resp.hits[i] == ShapeHit(RawHits(reply.hitsBlock)[i]))
    ensures resp.Found? || resp.BadRequest? || resp.Unavailable? || resp.InternalError?
    ensures resp.Found? ==> available && q.GetOr([]) != []
    ensures resp.Unavailable? ==> !available
    ensures resp.BadRequest? ==> available && q.GetOr([]) == []
  {
    if !available {
      return Unavailable(ClientUnavailable);
    }
    var keyword := q.GetOr([]);
    if keyword == [] {
      return BadRequest(0, [], MissingQuery);
    }
    var reply := engine(HighlightQuery(keyword));
    if reply.Failed? {
      return InternalError(InternalFailure);
    }
    var hits := ShapeHits(RawHits(reply.hitsBlock));
    var total := TotalOf(reply.hitsBlock);
    if total.Failure? {
      return InternalError(InternalFailure);
    }
    resp := Found(total.value, hits);
  }
}
