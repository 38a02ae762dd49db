/**
 * Two small rules shared by the event dashboards
 * (src/app/allevents/page.tsx and src/app/dashboard/dashevent.tsx):
 * how a fetched list payload becomes the page's list, and the
 * one-registry-at-a-time expand toggle.
 */
module Ui {
  import opened Js

  /**
   * The outcome of a list request as the page sees it: `data.data` was an
   * array, it was some other JSON value, or the request failed or threw.
   */
  datatype Fetched<T> = Array(items: seq<T>) | NotArray | Failed

  /** `Array.isArray(data.data) ? data.data : []`, with `[]` also in the `catch`. */
  function LoadedList<T>(f: Fetched<T>): (r: seq<T>)
    ensures f.Array? ==> r == f.items
    ensures r != [] ==> f.Array? && r == f.items
  {
    if f.Array? then f.items else []
  }

  /**
   * `setExpandedRegistry(expandedRegistry === id ? null : id)`: clicking the
   * open registry collapses it, clicking any other one opens that one.
   */
  function ExpandToggle(expanded: Option<int>, id: int): (r: Option<int>)
    ensures r == Some(id) <==> expanded != Some(id)
    ensures r.Some? ==> r.value == id
  {
    if expanded == Some(id) then None else Some(id)
  }

  /** Clicking the same registry twice leaves it open only if it was open before. */
  lemma ExpandToggleTwice(expanded: Option<int>, id: int)
    ensures ExpandToggle(ExpandToggle(expanded, id), id) == if expanded == Some(id) then expanded else None
  {
  }
}
