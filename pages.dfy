/** What one call to the search endpoint returns, and the two things the drive
    loop extracts from a page: the authors' screen names and the next cursor. */
module Pages {

  /** One status of a search page: its id and its author's screen name. */
  datatype Post = Post(id: int, screenName: string)

  /** The outcome of one search call: the page of statuses, or an exception
      (transport failure, a reply without `statuses`, an id that is not an
      integer). */
  datatype FetchResult = Page(posts: seq<Post>) | FetchFailed

  /** The search endpoint: `search(n, maxId)` is what the `n`-th search call
      of the run, sent with that `max_id`, returns. */
  type SearchOracle = (nat, int) -> FetchResult

  predicate NonEmptyPage(r: FetchResult) {
    r.Page? && r.posts != []
  }

  /** The authors' screen names of a page, in page order, duplicates kept. */
  function ScreenNames(ps: seq<Post>): (names: seq<string>)
  {
    if ps == [] then [] else [ps[0].screenName] + ScreenNames(ps[1..])
  }

  /** Entry `k` of the screen names is the author of status `k`. */
  lemma {:induction false} ScreenNamesAt(ps: seq<Post>)
    ensures |ScreenNames(ps)| == |ps|
    ensures forall k :: 0 <= k < |ps| ==> ScreenNames(ps)[k] == ps[k].screenName
  {
    if ps != [] {
      ScreenNamesAt(ps[1..]);
      forall k | 0 < k < |ps|
        ensures ScreenNames(ps)[k] == ps[k].screenName
      {
        assert ScreenNames(ps)[k] == ScreenNames(ps[1..])[k - 1];
      }
    }
  }

  /** The cursor after a page has been read: every status overwrites it with
      its own id minus one, so the last status of the page decides it; an
      empty page leaves it where it was. */
  function CursorAfter(ps: seq<Post>, cursor: int): int
  {
    if ps == [] then cursor else ps[|ps| - 1].id - 1
  }

  /** The ids of a page are strictly decreasing (newest first). */
  predicate StrictlyDecreasing(ps: seq<Post>) {
    forall a, b :: 0 <= a < b < |ps| ==> ps[a].id > ps[b].id
  }

  /** The least id of a non-empty page. */
  function MinId(ps: seq<Post>): int
    requires ps != []
  {
    if |ps| == 1 then ps[0].id
    else
      var m := MinId(ps[1..]);
      if ps[0].id <= m then ps[0].id else m
  }

  /** MinId is the minimum: it is the id of some status and no status has a
      smaller id. */
  lemma {:induction false} MinIdIsLeast(ps: seq<Post>)
    requires ps != []
    ensures exists k :: 0 <= k < |ps| && ps[k].id == MinId(ps)
    ensures forall k :: 0 <= k < |ps| ==> MinId(ps) <= ps[k].id
  {
    if |ps| > 1 {
      MinIdIsLeast(ps[1..]);
      var k :| 0 <= k < |ps[1..]| && ps[1..][k].id == MinId(ps[1..]);
      assert ps[k + 1].id == MinId(ps[1..]);
      forall j | 0 <= j < |ps|
        ensures MinId(ps) <= ps[j].id
      {
        if j > 0 {
          assert ps[j] == ps[1..][j - 1];
        }
      }
    } else {
      assert ps[0].id == MinId(ps);
    }
  }

  /** On a page whose ids decrease strictly, the last status has the least
      id, so the cursor the loop keeps is that least id minus one and lies
      strictly below every id of the page. */
  lemma {:induction false} CursorAfterDecreasingPage(ps: seq<Post>, cursor: int)
    requires ps != [] && StrictlyDecreasing(ps)
    ensures CursorAfter(ps, cursor) == MinId(ps) - 1
    ensures forall k :: 0 <= k < |ps| ==> CursorAfter(ps, cursor) < ps[k].id
  {
    MinIdIsLeast(ps);
    var k :| 0 <= k < |ps| && ps[k].id == MinId(ps);
    assert ps[k].id >= ps[|ps| - 1].id;
  }

  /** If the service honours a bound (every status of the page has an id at
      most `cursor`), the cursor moves strictly below it. */
  lemma CursorAfterBelowBound(ps: seq<Post>, cursor: int)
    requires ps != []
    requires forall k :: 0 <= k < |ps| ==> ps[k].id <= cursor
    ensures CursorAfter(ps, cursor) < cursor
  {
    assert ps[|ps| - 1].id <= cursor;
  }
}
