/** Offset-based scrolling: run a query once with a one-row look-ahead and turn its
    result into a window (a page, the position function of the scroll position, and a
    has-more flag). Everything here is a value; nothing is updated in place. */
module ScrollDelegate {

  /** Java's 32-bit `int`. */
  const INT_MIN: int := -0x8000_0000
  const INT_MAX: int := 0x7fff_ffff

  newtype Int32 = x: int | INT_MIN <= x <= INT_MAX

  /** The relational query. Only its limit matters here; the criteria stand for every
      other part of the query, which the look-ahead must leave untouched. */
  datatype Query = Query(criteria: string, limit: Int32) {

    /** `Query.limit(n)`: a new query with the limit replaced. */
    function WithLimit(n: Int32): (q: Query)
      ensures q.limit == n && q.criteria == criteria
    {
      this.(limit := n)
    }
  }

  /** A scroll position: the offset-based kind carries its position function (row index
      to the position that resumes after that row); any other kind is unsupported. */
  datatype ScrollPosition =
    | OffsetPosition(offset: int, positionFunction: int -> ScrollPosition)
    | KeysetPosition(keys: map<string, string>)

  /** The window handed back to the caller. */
  datatype Window<T> = Window(items: seq<T>, positionFunction: int -> ScrollPosition, hasMore: bool)

  /** The two exceptions `scroll` can raise itself. */
  datatype ScrollError =
    | IllegalArgument(message: string)       // Assert.notNull on the scroll position
    | UnsupportedOperation                   // position kind other than offset

  datatype Result<T> = Success(value: T) | Failure(error: ScrollError)

  /** A Java reference that may be null. */
  datatype Option<T> = None | Some(value: T)

  /** What one call of `scroll` does: the queries it handed to the query function, in
      order, and what it returned or raised. */
  datatype Execution<T> = Execution(applied: seq<Query>, outcome: Result<Window<T>>)

  const NULL_POSITION_MESSAGE: string := "ScrollPosition must not be null"

  function Min(a: int, b: int): int { if a <= b then a else b }

  /** `List.size()`: the number of elements, or `Integer.MAX_VALUE` when the list holds
      more than that. */
  function Size<T>(list: seq<T>): Int32
  {
    Min(|list|, INT_MAX) as Int32
  }

  /** `scroll`, the over-fetch: a limit that is positive and not `Integer.MAX_VALUE` is bumped by one;
      any other limit is left alone. The `!= MAX_VALUE` test is what keeps `limit + 1`
      inside `int`: the addition is computed in Int32 and checked not to overflow. */
  function OverFetch(query: Query): (q: Query)
    ensures q.criteria == query.criteria
    ensures q.limit as int == query.limit as int + 1 <==> 0 < query.limit as int < INT_MAX
    ensures q.limit != query.limit ==> q.limit as int == query.limit as int + 1
  {
    var limit := query.limit;
    if limit > 0 && limit != INT_MAX as Int32 then query.WithLimit(limit + 1) else query
  }

  /** `hasMoreElements`: more rows exist when the result is non-empty and its size is
      larger than the (original) limit. For a limit in 0 .. MAX_VALUE - 1 that is "longer
      than the limit"; a negative limit degenerates to "non-empty"; `size()` never
      exceeds MAX_VALUE, so that limit never reports more. */
  function HasMoreElements<T>(result: seq<T>, limit: Int32): (b: bool)
    ensures b ==> |result| > 0
    ensures 0 <= limit as int < INT_MAX ==> (b <==> |result| > limit as int)
    ensures limit < 0 ==> (b <==> result != [])
    ensures limit as int == INT_MAX ==> !b
  {
    result != [] && Size(result) > limit
  }

  /** `getFirst`: the first `count` elements of `list`. Total: a non-positive count, or
      a list whose size is not larger than the count, gives the list itself; since
      `size()` never exceeds MAX_VALUE, a count of MAX_VALUE does too. */
  function GetFirst<T>(count: Int32, list: seq<T>): (r: seq<T>)
    ensures r <= list
    ensures 0 < count as int < INT_MAX ==> |r| == Min(count as int, |list|)
    ensures count <= 0 || count as int == INT_MAX ==> r == list
    ensures |r| <= |list|
  {
    if count > 0 && Size(list) > count then list[..count] else list
  }

  /** `createWindow`: the page is the first `limit` rows, the position function is passed
      through, and `hasMore` is judged against the same (original) limit. */
  function CreateWindow<T>(result: seq<T>, limit: Int32, positionFunction: int -> ScrollPosition): (w: Window<T>)
    ensures w.positionFunction == positionFunction
    ensures w.items <= result
    ensures 0 < limit as int < INT_MAX ==> |w.items| == Min(limit as int, |result|)
    ensures limit <= 0 || limit as int == INT_MAX ==> w.items == result
    ensures limit as int < INT_MAX ==> (w.hasMore <==> result != [] && |result| > limit as int)
    ensures limit as int == INT_MAX ==> !w.hasMore
    ensures w.hasMore && limit > 0 ==> |w.items| == limit as int
  {
    Window(GetFirst(limit, result), positionFunction, HasMoreElements(result, limit))
  }

  /** `scroll`: check the position, over-fetch, run the query exactly once, and only
      then look at the position's kind. */
  function Scroll<T>(query: Query, queryFunction: Query -> seq<T>, scrollPosition: Option<ScrollPosition>): (x: Execution<T>)
    ensures scrollPosition.None? ==>
      x.applied == [] && x.outcome == Failure(IllegalArgument(NULL_POSITION_MESSAGE))
    ensures scrollPosition.Some? ==>
      |x.applied| == 1 && x.applied[0] == OverFetch(query)
    ensures scrollPosition.Some? && !scrollPosition.value.OffsetPosition? ==>
      x.outcome == Failure(UnsupportedOperation)
    ensures scrollPosition.Some? && scrollPosition.value.OffsetPosition? ==>
      x.outcome.Success? &&
      x.outcome.value == CreateWindow(queryFunction(x.applied[0]), query.limit,
                                      scrollPosition.value.positionFunction)
  {
    if scrollPosition.None? then
      Execution([], Failure(IllegalArgument(NULL_POSITION_MESSAGE)))
    else
      var limit := query.limit;
      var q := OverFetch(query);
      var result := queryFunction(q);
      match scrollPosition.value
      case OffsetPosition(_, positionFunction) =>
        Execution([q], Success(CreateWindow(result, limit, positionFunction)))
      case _ =>
        Execution([q], Failure(UnsupportedOperation))
  }

  // ---------------------------------------------------------------------------------
  // Properties of one call of Scroll.
  // ---------------------------------------------------------------------------------

  /** Over-fetch correctness: for 0 < L < MAX_VALUE the query function sees L + 1, the
      page is the first min(N, L) rows of its result in order, and hasMore == (N > L). */
  lemma ScrollBoundedLimit<T>(query: Query, queryFunction: Query -> seq<T>, position: ScrollPosition)
    requires 0 < query.limit as int < INT_MAX
    requires position.OffsetPosition?
    ensures var x := Scroll(query, queryFunction, Some(position));
      var result := queryFunction(query.WithLimit(query.limit + 1));
      && x.applied == [query.WithLimit(query.limit + 1)]
      && x.outcome.Success?
      && x.outcome.value.items == result[..Min(query.limit as int, |result|)]
      && x.outcome.value.hasMore == (|result| > query.limit as int)
      && x.outcome.value.positionFunction == position.positionFunction
  {
  }

  /** The exact boundary: a result of exactly L rows is returned whole, with no more. */
  lemma ScrollExactBoundary<T>(query: Query, queryFunction: Query -> seq<T>, position: ScrollPosition)
    requires 0 < query.limit as int < INT_MAX
    requires position.OffsetPosition?
    requires |queryFunction(query.WithLimit(query.limit + 1))| == query.limit as int
    ensures var x := Scroll(query, queryFunction, Some(position));
      x.outcome == Success(Window(queryFunction(query.WithLimit(query.limit + 1)), position.positionFunction, false))
  {
  }

  /** A limit of Integer.MAX_VALUE is not bumped; since `size()` never reports more than
      MAX_VALUE, the page is the whole result and hasMore is false. */
  lemma ScrollMaxLimit<T>(query: Query, queryFunction: Query -> seq<T>, position: ScrollPosition)
    requires query.limit as int == INT_MAX
    requires position.OffsetPosition?
    ensures var x := Scroll(query, queryFunction, Some(position));
      x.applied == [query] &&
      x.outcome == Success(Window(queryFunction(query), position.positionFunction, false))
  {
  }

  /** A non-positive limit (the "no limit" values) is not bumped and the page is the whole
      result, but hasMore is true as soon as the result is non-empty. */
  lemma ScrollNonPositiveLimit<T>(query: Query, queryFunction: Query -> seq<T>, position: ScrollPosition)
    requires query.limit <= 0
    requires position.OffsetPosition?
    ensures var x := Scroll(query, queryFunction, Some(position));
      x.applied == [query] &&
      x.outcome == Success(Window(queryFunction(query), position.positionFunction, queryFunction(query) != []))
  {
  }

  /** A position of another kind still runs the (over-fetched) query once, then fails. */
  lemma ScrollUnsupportedPosition<T>(query: Query, queryFunction: Query -> seq<T>, position: ScrollPosition)
    requires !position.OffsetPosition?
    ensures var x := Scroll(query, queryFunction, Some(position));
      x.applied == [OverFetch(query)] && x.outcome == Failure(UnsupportedOperation)
  {
  }

  // ---------------------------------------------------------------------------------
  // Paging through a whole table with the look-ahead.
  // ---------------------------------------------------------------------------------

  /** The query function of a store holding `rows`, with the query's offset already set
      to `from`: at most `limit` rows from there on, or all of them for a non-positive
      limit. */
  function OffsetTable<T>(rows: seq<T>, from: nat): (run: Query -> seq<T>)
    ensures forall q: Query :: run(q) <= rows[Min(from, |rows|)..]
    ensures forall q: Query :: q.limit > 0 ==> |run(q)| == Min(q.limit as int, |rows| - Min(from, |rows|))
  {
    var start := Min(from, |rows|);
    (q: Query) => if q.limit > 0 then rows[start..Min(|rows|, start + q.limit as int)] else rows[start..]
  }

  /** Scrolls from offset `from` until a window reports no more rows, starting each
      window at the offset just after the last row of the previous page, and
      concatenates the pages. The look-ahead makes this deliver every remaining row
      exactly once, in order: no page is lost at a boundary and no page is repeated.
      A non-positive limit also gets there: its single page is everything, and the
      spurious hasMore only costs one more, empty, window. */
  function ReadAll<T>(rows: seq<T>, from: nat, limit: Int32, position: ScrollPosition): (r: seq<T>)
    requires limit as int < INT_MAX
    requires from <= |rows|
    requires position.OffsetPosition?
    ensures r == rows[from..]
    decreases |rows| - from
  {
    var x := Scroll(Query("", limit), OffsetTable(rows, from), Some(position));
    var w := x.outcome.value;
    if w.hasMore then
      w.items + ReadAll(rows, from + |w.items|, limit, position)
    else
      w.items
  }
}
