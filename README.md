# Offset scrolling in `ScrollDelegate` (Spring Data JDBC)

`ScrollDelegate.scroll` runs a relational `Query` through a caller-supplied query
function and turns the rows into a `Window`: the page, the scroll position's position
function, and a `hasMore` flag. It finds out whether more rows exist without a second
query by using a one-row look-ahead. When the limit `L` satisfies
`0 < L < Integer.MAX_VALUE`, the query asks for `L + 1` rows. The page is then cut back to
`L` rows. `hasMore` is true when the result is non-empty and longer than the original `L`.

The model is `scroll_delegate.dfy`, module `ScrollDelegate`. Everything in it is a pure
function over values, which matches the source: no field or object is updated in place.

- Java `int` is the newtype `Int32`. The over-fetch `limit + 1` is computed in `Int32`, so
  the verifier has to show that the `limit != Integer.MAX_VALUE` guard rules out overflow.
- `Query` is a record with a limit. Its `criteria` stand for the rest of the query, which
  the over-fetch must leave unchanged. `Query.WithLimit` models `Query.limit(n)`, which
  returns a new query.
- `ScrollPosition` has the offset kind, which carries its position function, and one other
  kind (keyset) that `scroll` does not support. A null position is `Option.None`.
- `Scroll` returns an `Execution`. It holds the queries that were handed to the query
  function, in order, and either a `Window` or the exception raised
  (`IllegalArgument` from `Assert.notNull`, or `UnsupportedOperation`). This record is how
  the model states "applied exactly once" and "not applied at all".

Two behaviours of the code are easy to miss, and the model keeps both:

- The query runs before the position kind is checked, so a non-offset position still
  runs the query and then throws (`ScrollDelegate.java:54-60`).
- A non-positive limit makes `hasMore` true for any non-empty result
  (`ScrollDelegate.java:50, 69`). Only `Integer.MAX_VALUE` forces `hasMore == false`,
  because `List.size()` never reports more than that. The model's `Size` reproduces this
  clamping of `size()`, so a result longer than `Integer.MAX_VALUE` behaves as in Java.

`ReadAll` models a caller that pages through a table held by an offset-aware store
(`OffsetTable`). Each new page starts at the offset just after the last row of the
previous page, and paging stops when a window reports no more rows. Its contract says the
look-ahead delivers every remaining row exactly once, in order.

## Model

| member | source | states |
|---|---|---|
| ScrollDelegate.Query.WithLimit | spring-data-jdbc/src/main/java/org/springframework/data/jdbc/repository/support/ScrollDelegate.java:51 | the new query has the requested limit and the rest of the query is unchanged |
| ScrollDelegate.OverFetch | spring-data-jdbc/src/main/java/org/springframework/data/jdbc/repository/support/ScrollDelegate.java:49-52 | the limit becomes L + 1 exactly when 0 < L < MAX_VALUE; otherwise it is unchanged; the result stays within int range; only the limit changes |
| ScrollDelegate.HasMoreElements | spring-data-jdbc/src/main/java/org/springframework/data/jdbc/repository/support/ScrollDelegate.java:68-70 | true only for a non-empty result; for 0 <= L < MAX_VALUE it means the result is longer than L; for L < 0 it means the result is non-empty; for L == MAX_VALUE it is false, since `size()` never reports more |
| ScrollDelegate.GetFirst | spring-data-jdbc/src/main/java/org/springframework/data/jdbc/repository/support/ScrollDelegate.java:80-87 | total; the result is a prefix of the list and never longer than it; for 0 < count < MAX_VALUE its length is min(count, size); for count <= 0 or count == MAX_VALUE it is the list itself |
| ScrollDelegate.CreateWindow | spring-data-jdbc/src/main/java/org/springframework/data/jdbc/repository/support/ScrollDelegate.java:63-66 | the page is a prefix of the result of length min(L, N) for 0 < L < MAX_VALUE, or the whole result for L <= 0 or L == MAX_VALUE; the position function is passed through unchanged; for L < MAX_VALUE hasMore iff the result is non-empty and N > L (original L), and for L == MAX_VALUE hasMore is false; when hasMore and L > 0 the page is exactly L long |
| ScrollDelegate.Scroll | spring-data-jdbc/src/main/java/org/springframework/data/jdbc/repository/support/ScrollDelegate.java:44-61 | a null position raises IllegalArgument before the query function is applied; otherwise the query function is applied exactly once, to the over-fetched query; an offset position yields the window built from that result with the original limit; any other kind raises UnsupportedOperation after the query ran |
| ScrollDelegate.ScrollBoundedLimit | spring-data-jdbc/src/main/java/org/springframework/data/jdbc/repository/support/ScrollDelegate.java:49-70 | for 0 < L < MAX_VALUE the query function sees L + 1; the page is the first min(N, L) rows in order; hasMore == (N > L); the position function is the offset position's |
| ScrollDelegate.ScrollExactBoundary | spring-data-jdbc/src/main/java/org/springframework/data/jdbc/repository/support/ScrollDelegate.java:49-70 | when exactly L rows come back, all of them are returned unchanged and hasMore is false |
| ScrollDelegate.ScrollMaxLimit | spring-data-jdbc/src/main/java/org/springframework/data/jdbc/repository/support/ScrollDelegate.java:49-70 | L == MAX_VALUE is not bumped; for any result, the page is the whole result and hasMore is false |
| ScrollDelegate.ScrollNonPositiveLimit | spring-data-jdbc/src/main/java/org/springframework/data/jdbc/repository/support/ScrollDelegate.java:49-70 | L <= 0 is not bumped; the page is the whole result; hasMore is true exactly when the result is non-empty |
| ScrollDelegate.ScrollUnsupportedPosition | spring-data-jdbc/src/main/java/org/springframework/data/jdbc/repository/support/ScrollDelegate.java:54-60 | a non-offset position still applies the over-fetched query once and then raises UnsupportedOperation |
| ScrollDelegate.ReadAll | spring-data-jdbc/src/main/java/org/springframework/data/jdbc/repository/support/ScrollDelegate.java:49-70 | for every L < MAX_VALUE, including the non-positive "no limit" values, scrolling from an offset until hasMore is false delivers exactly the remaining rows, each once and in order |

## Left out

- Running the query itself (SQL, JDBC, row mapping) is not modelled. The query function is a parameter, and `OffsetTable` is one example of it.
- Exceptions thrown by the query function are not modelled. The source lets them propagate unchanged.
- The internals of `Query`, `OffsetScrollPosition`, `Window.from` and `Assert.notNull` belong to other libraries and are not part of this model. `Query` is reduced to criteria plus a limit. The message of `UnsupportedOperationException` includes the position's `toString`, which is not modelled.
- `List.subList` returns a view that shares storage with the result. The model uses a sequence slice, so aliasing is not captured.
- `ReadAll` advances the offset by the page length itself. It does not call the window's position function, because what that function returns is defined outside this code.
- `spring-data-r2dbc/src/test/java/org/springframework/data/r2dbc/testing/Assertions.java` is a test-only wrapper around the assertion library. It has no logic and is not modelled.
