/**
 * The semantic-search endpoint `POST` (app/api/search/route.ts, lines 7-91).
 *
 * The request body and the two remote replies are inputs: each either parsed
 * (`Done`) or raised an exception while it was fetched or decoded (`Threw`).
 * `Post` returns the outcome together with the outbound calls it issued, so
 * that a reply is consulted only when the call that produces it was issued.
 */
module Endpoint {
  import opened Options
  import opened Hits
  import opened Aggregator

  /** A step that either produced a value or threw (a failed `fetch`, a malformed JSON body). */
  datatype Attempt<+T> = Done(value: T) | Threw

  /** The request body `{ query, top_k }`; either field may be missing. */
  datatype Body = Body(query: Option<string>, topK: Option<int>)

  /** The embedding service's reply: `success` and `result.embeddings` (missing `result` reads as missing `embeddings`). */
  datatype EmbeddingReply<V> = EmbeddingReply(success: bool, embeddings: Option<seq<V>>)

  /** The vector index's reply: its `result` list of hits, possibly missing. */
  datatype SearchReply<S> = SearchReply(result: Option<seq<Hit<S>>>)

  /** An outbound request, with the body fields the endpoint sends. */
  datatype Call<V> =
    | EmbedCall(inputData: seq<string>, model: string, serviceType: string, task: string)
    | SearchCall(vector: V, limit: int, withPayload: bool)

  /** How a request ended. */
  datatype Outcome<S> =
    | ShortCircuit
    | Degraded
    | Ok(results: seq<SearchResult<S>>, answer: Option<string>)
    | Error500

  /** The JSON body `{ results, answer }` and the transport status. */
  datatype Response<S> = Response(results: seq<SearchResult<S>>, answer: Option<string>, status: int)

  const DefaultTopK := 5
  const EmbeddingModel := "text-embedding-3-small"
  const Unavailable := "Search temporarily unavailable"
  const SearchError := "Search error"
  const StatusOk := 200
  const StatusServerError := 500

  /** `top_k`, defaulting to 5 when the body does not carry it. */
  function TopK(body: Body): (topK: int)
    ensures body.topK.None? ==> topK == DefaultTopK
    ensures body.topK.Some? ==> topK == body.topK.value
  {
    body.topK.GetOr(DefaultTopK)
  }

  /** `!query || query.length < 2`. */
  function TooShort(query: Option<string>): (short: bool)
    ensures short ==> query.None? || query.value == [] || |query.value| == 1
    ensures !short ==> query.Some? && |query.value| >= 2
  {
    query.None? || |query.value| < 2
  }

  /** The query vector `result.embeddings[0]`, present only when the reply reports success. */
  function QueryVector<V>(reply: EmbeddingReply<V>): (v: Option<V>)
    ensures v.Some? <==> reply.success && reply.embeddings.Some? && |reply.embeddings.value| > 0
    ensures v.Some? ==> v.value == reply.embeddings.value[0]
  {
    if reply.success && reply.embeddings.Some? && |reply.embeddings.value| > 0
    then Some(reply.embeddings.value[0])
    else None
  }

  /** `searchData.result || []`: a missing hit list is an empty one. */
  function HitsOf<S>(reply: SearchReply<S>): (hits: seq<Hit<S>>)
    ensures reply.result.None? ==> hits == []
    ensures reply.result.Some? ==> hits == reply.result.value
  {
    reply.result.GetOr([])
  }

  /** The embedding request the endpoint issues for a query. */
  function EmbedRequest<V>(query: string): (call: Call<V>)
    ensures call.EmbedCall? && |call.inputData| == 1 && call.inputData[0] == query
    ensures call.model == EmbeddingModel && call.serviceType == "embedding" && call.task == "embed"
  {
    EmbedCall([query], EmbeddingModel, "embedding", "embed")
  }

  /** The request gets past validation and the embedding service is called. */
  ghost predicate Embeds(body: Attempt<Body>) {
    body.Done? && !TooShort(body.value.query)
  }

  /** The embedding reply yields a query vector and the vector index is called. */
  ghost predicate Searches<V>(body: Attempt<Body>, embedding: Attempt<EmbeddingReply<V>>) {
    Embeds(body) && embedding.Done? && QueryVector(embedding.value).Some?
  }

  /**
   * The response sent for each outcome: a server-error status only for a caught
   * exception, no results except on the normal path, and an answer that is
   * null only for a short query or an empty normal result.
   */
  function Respond<S>(outcome: Outcome<S>): (r: Response<S>)
    ensures r.status == StatusServerError <==> outcome.Error500?
    ensures r.status == StatusOk <==> !outcome.Error500?
    ensures !outcome.Ok? ==> r.results == []
    ensures outcome.Ok? ==> r.results == outcome.results && r.answer == outcome.answer
    ensures outcome.ShortCircuit? ==> r.answer.None?
    ensures outcome.Degraded? ==> r.answer == Some(Unavailable)
    ensures outcome.Error500? ==> r.answer == Some(SearchError)
  {
    match outcome
    case ShortCircuit => Response([], None, StatusOk)
    case Degraded => Response([], Some(Unavailable), StatusOk)
    case Ok(results, answer) => Response(results, answer, StatusOk)
    case Error500 => Response([], Some(SearchError), StatusServerError)
  }

  /** The endpoint: validate, embed, search, aggregate; any exception becomes `Error500`. */
  method Post<S, V>(body: Attempt<Body>, embedding: Attempt<EmbeddingReply<V>>, search: Attempt<SearchReply<S>>)
    returns (outcome: Outcome<S>, calls: seq<Call<V>>)
    // at most the two calls, embedding first, each issued only when the previous stage succeeded
    ensures |calls| <= 2
    ensures calls == [] <==> !Embeds(body)
    ensures |calls| == 2 <==> Searches(body, embedding)
    ensures Embeds(body) ==> calls[0] == EmbedRequest(body.value.query.value)
    // an unreadable body, or a missing or one-character query
    ensures body.Threw? ==> outcome == Error500
    ensures body.Done? && TooShort(body.value.query) ==> outcome == ShortCircuit
    // the embedding call threw, or its reply has no usable vector
    ensures Embeds(body) && embedding.Threw? ==> outcome == Error500
    ensures Embeds(body) && embedding.Done? && QueryVector(embedding.value).None? ==> outcome == Degraded
    // the search asks for twice top_k hits, ten when top_k is absent
    ensures Searches(body, embedding) ==>
      calls[1] == SearchCall(QueryVector(embedding.value).value, 2 * TopK(body.value), true)
    ensures Searches(body, embedding) && body.value.topK.None? ==> calls[1].limit == 10
    // the search threw, or its hits are aggregated
    ensures Searches(body, embedding) && search.Threw? ==> outcome == Error500
    ensures Searches(body, embedding) && search.Done? ==>
      var results := Aggregate(HitsOf(search.value), TopK(body.value));
      outcome == Ok(results, Answer(|results|))
  {
    calls := [];
    if body.Threw? {
      return Error500, calls;
    }
    var query := body.value.query;
    var topK := TopK(body.value);
    if TooShort(query) {
      return ShortCircuit, calls;
    }
    calls := calls + [EmbedRequest(query.value)];
    if embedding.Threw? {
      return Error500, calls;
    }
    var queryVector := QueryVector(embedding.value);
    if queryVector.None? {
      return Degraded, calls;
    }
    calls := calls + [SearchCall(queryVector.value, topK * 2, true)];
    if search.Threw? {
      return Error500, calls;
    }
    var results := CollectResults(HitsOf(search.value), topK);
    outcome := Ok(results, Answer(|results|));
  }

  /** A normal answer never reads as one of the two failure messages: failures are visible in `answer`. */
  lemma OkAnswerIsNotAFailure<S>(results: seq<SearchResult<S>>)
    ensures var r := Respond(Ok(results, Answer(|results|)));
      r.answer != Some(Unavailable) && r.answer != Some(SearchError) && r.status == StatusOk
  {
    if |results| > 0 {
      assert Answer(|results|).value[0] == 'F';
    }
  }

  /** An index that returns no hits (or no `result` at all) answers like a short query: `{results: [], answer: null}`. */
  lemma EmptyIndexAnswersNull<S>(reply: SearchReply<S>, topK: int)
    requires reply.result.None? || reply.result == Some([])
    ensures var results := Aggregate(HitsOf(reply), topK);
      Respond(Ok(results, Answer(|results|))) == Respond(ShortCircuit)
  {
  }
}
