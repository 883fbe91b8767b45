# Semantic search endpoint, modelled in Dafny

This project models the one piece of logic in the documentation site: the
semantic-search endpoint `POST /api/search` (`app/api/search/route.ts`). For one
request the endpoint:

1. reads `{ query, top_k = 5 }` and answers `{results: [], answer: null}` at once when
   the query is missing or shorter than two characters;
2. asks the embedding service for the query's vector, and answers
   `{results: [], answer: 'Search temporarily unavailable'}` when the reply has no
   `success` or no `result.embeddings[0]`;
3. asks the vector index for `2 * top_k` nearest hits;
4. walks the hits in index order. It skips every hit whose href was already kept,
   formats each kept hit and stops as soon as the result count reaches `top_k`, which
   is right after the first push when `top_k <= 0`. The answer is then
   `Found N relevant pages`, or null when nothing was kept;
5. turns any exception into `{results: [], answer: 'Search error'}` with status 500.

Modules, leaves first:

- `Options` (options.dfy): `Option`, for JSON fields that may be missing.
- `Decimal` (decimal.dfy): the decimal numeral a template literal prints for the
  count, and the reading that recovers the count.
- `Hits` (hits.dfy): raw hits, whose payload fields are all optional, and the
  result record built from a kept hit. This covers the `||` defaults, the
  150-character description and the pass-through of score and category.
- `Aggregator` (aggregator.dfy): the dedup-and-cap loop. It appears three times:
  - `KeepFrom`/`Aggregate` are the recursive specification;
  - `CollectResults` is the imperative loop, with its `seenHrefs` set, `continue`
    and `break`, and is proved equal to `Aggregate`;
  - `FirstIndices` is an independent definition by positions: the first hit
    carrying each href.

  The lemmas tie the specification to `FirstIndices` and derive uniqueness, order,
  pass-through and the exact length. The answer string is also here.
- `Endpoint` (endpoint.dfy): `Post`. The request body and the two remote replies
  are inputs, and each of them either parsed or threw. `Post` returns the outcome
  and the list of outbound calls it issued, so "no call is made" can be stated.
  `Respond` maps the outcome to the JSON body and the status.

Scores (`S`) and embedding vectors (`V`) are type parameters. The endpoint only
forwards them and never computes with them.

Empty hrefs get no special treatment. The code (lines 62-64) normalises a missing or
empty href to `''` and uses it as an ordinary key. So the first hit without an href
is kept, and only later ones are dropped. Reading the code as "hits without an href
are skipped" would be wrong.

## Model

| member | source | states |
|---|---|---|
| Decimal.FromNat | app/api/search/route.ts:80 | the count is printed as a canonical decimal numeral (digits only, no leading zero), which starts with `0` exactly when the count is 0 |
| Decimal.ToNatFromNat | app/api/search/route.ts:80 | reading the printed numeral back gives the count |
| Decimal.FromNatToNat | app/api/search/route.ts:80 | every canonical numeral is the printing of its value, so printing is a bijection onto the canonical numerals |
| Hits.Key | app/api/search/route.ts:62 | the dedup key is `''` exactly when the href is missing or empty, and otherwise it is the href itself |
| Hits.Title | app/api/search/route.ts:67 | the title is never empty: the payload title when it is present and non-empty, and `Untitled` otherwise |
| Hits.Describe | app/api/search/route.ts:68 | the description is the first min(150, length) characters of the text (missing text reads as `''`), followed by `...`; its length is at most 153 and it always ends in `...` |
| Hits.Format | app/api/search/route.ts:66-72 | a result carries its hit's score and category unchanged, with the normalised href, the defaulted title and the shaped description |
| Aggregator.KeepFrom | app/api/search/route.ts:59-75 | the loop from position i never pushes an href that was already seen and never pushes the same href twice |
| Aggregator.Aggregate | app/api/search/route.ts:59-75 | no two results share an href (so at most one has the empty href); no hits give no results |
| Aggregator.CollectResults | app/api/search/route.ts:59-75 | the imperative loop, with its seen-set, `continue` and the `break` after the push, returns exactly `Aggregate(hits, top_k)` |
| Aggregator.FirstIndices | app/api/search/route.ts:59-64 | reference definition: the increasing list of positions j whose href no earlier hit carries (both directions: a position is listed if and only if it is such a first carrier) |
| Aggregator.KeepFromFirsts | app/api/search/route.ts:59-75 | from any position i, with the hrefs of the hits before i as the seen-set, the loop produces the formatted first carriers from i onwards, capped at max(room, 1) |
| Aggregator.AggregateFromFirstCarriers | app/api/search/route.ts:59-75 | result n is the formatted n-th first carrier. So results follow hit order without re-sorting, each comes from the first hit carrying its href, and there are min(max(top_k, 1), number of first carriers) of them |
| Aggregator.FirstIndicesCount | app/api/search/route.ts:59-64 | there are as many first carriers as distinct normalised hrefs among the hits |
| Aggregator.AggregateLength | app/api/search/route.ts:66-74 | for top_k >= 1 the result count is min(top_k, distinct hrefs); for top_k <= 0 it is 1 as soon as there is a hit, because the break is tested after the push; it never exceeds max(top_k, 1) |
| Aggregator.Answer | app/api/search/route.ts:79-81 | the answer is null exactly when there are no results |
| Aggregator.AnswerReportsCount | app/api/search/route.ts:79-81 | for N > 0 the answer has the form `Found <N> relevant pages`, and the number read from it is exactly N |
| Aggregator.HappyPath | app/api/search/route.ts:59-75 | hits with hrefs a, a, b, c, b, d and top_k = 3 give exactly three results (a, b, c) carrying the scores of hits 0, 2 and 3 |
| Aggregator.HappyPathAnswer | app/api/search/route.ts:79-81 | three results give the answer `Found 3 relevant pages` |
| Endpoint.TopK | app/api/search/route.ts:9 | `top_k` is 5 when the body does not carry it, and otherwise the body's own value |
| Endpoint.TooShort | app/api/search/route.ts:11 | a query is refused exactly when it is missing, empty or one character long; every query of two or more characters passes |
| Endpoint.EmbedRequest | app/api/search/route.ts:19-24 | the embedding request carries the query as its only input, with model `text-embedding-3-small`, service type `embedding` and task `embed` |
| Endpoint.QueryVector | app/api/search/route.ts:29-36 | a query vector exists exactly when `success` holds and `result.embeddings` has a first element, and it is that element |
| Endpoint.HitsOf | app/api/search/route.ts:61 | a missing `result` list is treated as an empty list of hits |
| Endpoint.Respond | app/api/search/route.ts:77-89 | status 500 exactly for a caught exception and 200 otherwise; results only on the normal path; the answer is null for a short query, `Search temporarily unavailable` when degraded and `Search error` after an exception |
| Endpoint.Post | app/api/search/route.ts:7-91 | at most two calls, embedding first; a body that throws yields Error500 with no call; a missing or one-character query yields the short-circuit with no call; a thrown embedding yields Error500, and a reply without a vector yields the degraded outcome, both with only the embedding call; the search call carries `embeddings[0]` and limit 2·top_k (10 when top_k is absent); a thrown search yields Error500; otherwise the outcome is `Aggregate` of the hits with its answer |
| Endpoint.OkAnswerIsNotAFailure | app/api/search/route.ts:77-89 | a normal response has status 200 and never carries either failure message, so failures can be told apart by `answer` |
| Endpoint.EmptyIndexAnswersNull | app/api/search/route.ts:61-82 | an empty or missing hit list gives the same response as a short query: `{results: [], answer: null}`, status 200 |

## Left out

- Network and configuration: the `fetch` calls, the service URLs and the collection name taken from `process.env` (lines 3-5, 16, 39), the HTTP headers, and `NextRequest`/`NextResponse`. The request body and the two replies are parameters that either hold a decoded value or say the step threw. The issued calls are recorded with their body fields.
- The JSON encoding and decoding itself, and the `console.error` logging in the catch block.
- Floating point: scores and vectors are opaque type parameters, because the endpoint never computes with them.
- JavaScript coercions outside the types of the model:
  - a `query` that is a truthy number, boolean or object without `length` passes the check at line 11, because its `length` is undefined; an array query is checked on its element count and, when it passes, is sent as `input_data: [[...]]`;
  - a `top_k` that is a string, `null` or a fraction is coerced by `*` and `>=`;
  - a truthy `success` that is not a boolean passes the check at line 29;
  - a truthy `href` or `title` that is not a string is used as is (lines 62, 67), as a dedup key or as the title;
  - a truthy `text` without a `slice` method, such as a number, throws at line 68 and so gives a 500, and an array `text` is sliced as an array.

  The model takes the query as an optional string, top_k as an optional integer, `success` as a boolean and the payload fields as optional strings.
- Exceptions raised inside the loop: a `null` hit, or a `result` that is truthy but not iterable, throws a TypeError that becomes a 500. In the model hits are well-formed records, so only exceptions from fetching or decoding the three inputs are represented.
- Truthiness of `embeddings[0]`: a first element that is `null`, `0` or `''` counts as missing in the code. The model treats any first element as a usable vector, because vectors are opaque.
- Hits.Describe: lengths and `slice` count Dafny characters (Unicode scalar values), while JavaScript counts UTF-16 code units. The two differ for text outside the Basic Multilingual Plane. The same applies to the two-character minimum in `Endpoint.TooShort`.
- The UI and static parts of the site are not part of this model: the search modal (`components/AISearch.tsx`, whose own length check repeats the server's), the API playground, the feedback widget, status badges, the theme toggle, code tabs, the page and layout files, the MDX components and the site configuration. They only render the endpoint's output.
