/**
 * Raw vector-index hits and the user-facing results built from them
 * (app/api/search/route.ts, lines 52-72). A hit's payload fields may each be
 * missing; similarity scores are an opaque type `S` that is only forwarded.
 */
module Hits {
  import opened Options

  /** One point returned by the vector index: its score and the payload fields the endpoint reads. */
  datatype Hit<S> = Hit(
    score: S,
    href: Option<string>,
    title: Option<string>,
    text: Option<string>,
    category: Option<string>)

  /** One entry of the response's `results` array. */
  datatype SearchResult<S> = SearchResult(
    title: string,
    description: string,
    href: string,
    category: Option<string>,
    score: S)

  const Untitled := "Untitled"
  const DescriptionWidth := 150
  const Ellipsis := "..."

  function Min(a: int, b: int): int {
    if a <= b then a else b
  }

  /** JavaScript's `field || fallback` on an optional string: a missing field and an empty one are both falsy. */
  function OrElse(field: Option<string>, fallback: string): string {
    if field.Some? && field.value != "" then field.value else fallback
  }

  /** The deduplication key of a hit (`hit.payload?.href || ''`). */
  function Key<S>(h: Hit<S>): (k: string)
    ensures k == "" <==> h.href.None? || h.href.value == ""
    ensures k != "" ==> h.href == Some(k)
  {
    OrElse(h.href, "")
  }

  /** The displayed title (`hit.payload?.title || 'Untitled'`). */
  function Title(title: Option<string>): (t: string)
    ensures t != ""
    ensures title.Some? && title.value != "" ==> t == title.value
    ensures title.None? || title.value == "" ==> t == Untitled
  {
    OrElse(title, Untitled)
  }

  /**
   * The description (`(hit.payload?.text || '').slice(0, 150) + '...'`): the
   * first 150 characters of the text, or all of it when shorter, followed by an
   * ellipsis that is appended whether or not anything was cut.
   */
  function Describe(text: Option<string>): (d: string)
    ensures var body := text.GetOr("");
      |d| == Min(DescriptionWidth, |body|) + |Ellipsis| &&
      forall k :: 0 <= k < |d| - |Ellipsis| ==> d[k] == body[k]
    ensures |d| <= DescriptionWidth + |Ellipsis|
    ensures forall k :: 0 <= k < |Ellipsis| ==> d[|d| - |Ellipsis| + k] == Ellipsis[k]
  {
    var body := OrElse(text, "");
    body[..Min(DescriptionWidth, |body|)] + Ellipsis
  }

  /** The result built for a kept hit (lines 66-72). */
  function Format<S>(h: Hit<S>): (r: SearchResult<S>)
    ensures r.score == h.score && r.category == h.category
    ensures r.href == Key(h) && r.title == Title(h.title) && r.description == Describe(h.text)
  {
    SearchResult(Title(h.title), Describe(h.text), Key(h), h.category, h.score)
  }
}
