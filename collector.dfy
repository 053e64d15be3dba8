/** The listing collector of post-collector/main.go: `saveLatestPosts` pages
    through the search results and `savePostToDB` stores every listing whose
    title is not a co-living or dormitory offer.

    The search request is an oracle `fetch` from page number to what came
    back; the `posts` table is a map from token to row, and `db.Save` an
    upsert by token. */
module Collector {
  import opened Wrappers
  import opened GoText
  import opened Models

  /** "همخونه", "هم خانه" and "خوابگاه": flatmate and dormitory offers. */
  const Flatmate: string := "\U{0647}\U{0645}\U{062E}\U{0648}\U{0646}\U{0647}"
  const Housemate: string := "\U{0647}\U{0645} \U{062E}\U{0627}\U{0646}\U{0647}"
  const Dormitory: string := "\U{062E}\U{0648}\U{0627}\U{0628}\U{06AF}\U{0627}\U{0647}"

  predicate IsExcluded(title: string)
  {
    Contains(title, Flatmate) || Contains(title, Housemate) || Contains(title, Dormitory)
  }

  /** The row built from a search result. */
  function PostOf(w: Widget): Post
  {
    Post(w.data.token, w.data.title, w.data.topDescriptionText,
         w.data.middleDescriptionText, w.data.bottomDescriptionText)
  }

  type Store = map<string, Post>

  /** Every row is stored under its own token. */
  predicate WellKeyed(store: Store)
  {
    forall k | k in store :: store[k].token == k
  }

  /** `savePostToDB` (main.go:88-110) with `db.Save` as an upsert by token. */
  function SavePostToDB(store: Store, w: Widget): (r: Store)
  {
    if IsExcluded(w.data.title) then store else store[w.data.token := PostOf(w)]
  }

  /** An excluded listing is dropped without error; any other one is
      upserted under its token, with token, title and the three description
      texts copied as they are, and no other row changes. */
  lemma SavePostToDBSpec(store: Store, w: Widget)
    ensures IsExcluded(w.data.title) ==> SavePostToDB(store, w) == store
    ensures !IsExcluded(w.data.title) ==>
      var r := SavePostToDB(store, w);
      && r.Keys == store.Keys + {w.data.token}
      && r[w.data.token].token == w.data.token
      && r[w.data.token].title == w.data.title
      && r[w.data.token].topDescriptionText == w.data.topDescriptionText
      && r[w.data.token].middleDescriptionText == w.data.middleDescriptionText
      && r[w.data.token].bottomDescriptionText == w.data.bottomDescriptionText
    ensures forall k | k in store && k != w.data.token :: SavePostToDB(store, w)[k] == store[k]
    ensures WellKeyed(store) ==> WellKeyed(SavePostToDB(store, w))
  {
  }

  /** Saving the same listing twice leaves the table as saving it once. */
  lemma SavePostIdempotent(store: Store, w: Widget)
    ensures SavePostToDB(SavePostToDB(store, w), w) == SavePostToDB(store, w)
  {
  }

  /** The inner loop of `saveLatestPosts`: every listing of a page in order. */
  function SaveWidgets(store: Store, ws: seq<Widget>): (r: Store)
  {
    if ws == [] then store else SavePostToDB(SaveWidgets(store, ws[..|ws| - 1]), ws[|ws| - 1])
  }

  /** `ws[i]` is stored and no later listing of `ws` overwrites its row. */
  predicate LastSavedFor(ws: seq<Widget>, i: int)
    requires 0 <= i < |ws|
  {
    && !IsExcluded(ws[i].data.title)
    && forall j | i < j < |ws| :: IsExcluded(ws[j].data.title) || ws[j].data.token != ws[i].data.token
  }

  /** Some listing of `ws` with token `k` is stored. */
  predicate SavesToken(ws: seq<Widget>, k: string)
  {
    exists i | 0 <= i < |ws| :: !IsExcluded(ws[i].data.title) && ws[i].data.token == k
  }

  lemma {:induction false} SavesTokenSnoc(init: seq<Widget>, w: Widget, k: string)
    ensures SavesToken(init + [w], k) <==>
      SavesToken(init, k) || (!IsExcluded(w.data.title) && w.data.token == k)
  {
    var ws := init + [w];
    if SavesToken(init, k) {
      var i :| 0 <= i < |init| && !IsExcluded(init[i].data.title) && init[i].data.token == k;
      assert ws[i] == init[i];
    }
    if !IsExcluded(w.data.title) && w.data.token == k {
      assert ws[|init|] == w;
    }
    if SavesToken(ws, k) {
      var i :| 0 <= i < |ws| && !IsExcluded(ws[i].data.title) && ws[i].data.token == k;
      if i < |init| { assert init[i] == ws[i]; } else { assert ws[i] == w; }
    }
  }

  /** Which tokens a page leaves in the table, and that a row no listing of
      the page writes keeps its old value. */
  lemma {:induction false} SaveWidgetsKey(store: Store, ws: seq<Widget>, k: string)
    ensures k in SaveWidgets(store, ws) <==> k in store || SavesToken(ws, k)
    ensures k in store && !SavesToken(ws, k) ==> SaveWidgets(store, ws)[k] == store[k]
  {
    if ws != [] {
      var init, w := ws[..|ws| - 1], ws[|ws| - 1];
      assert ws == init + [w];
      SaveWidgetsKey(store, init, k);
      SavesTokenSnoc(init, w, k);
    }
  }

  /** The last non-excluded listing with a given token is the one whose row
      stays. */
  lemma {:induction false} SaveWidgetsLastWins(store: Store, ws: seq<Widget>, i: int)
    requires 0 <= i < |ws| && LastSavedFor(ws, i)
    ensures ws[i].data.token in SaveWidgets(store, ws)
    ensures SaveWidgets(store, ws)[ws[i].data.token] == PostOf(ws[i])
  {
    var init, w := ws[..|ws| - 1], ws[|ws| - 1];
    if i < |ws| - 1 {
      assert init[i] == ws[i];
      forall j | i < j < |init| ensures IsExcluded(init[j].data.title) || init[j].data.token != init[i].data.token {
        assert init[j] == ws[j];
      }
      assert LastSavedFor(init, i);
      SaveWidgetsLastWins(store, init, i);
    }
  }

  /** After a page is saved the table holds exactly the old tokens and those
      of the page's non-excluded listings; each such token maps to the row
      of its last non-excluded listing, and every other row is untouched. So
      no row with an excluded title is ever written. */
  lemma SaveWidgetsSpec(store: Store, ws: seq<Widget>)
    ensures forall k :: k in SaveWidgets(store, ws) <==> k in store || SavesToken(ws, k)
    ensures forall i | 0 <= i < |ws| && LastSavedFor(ws, i) ::
      ws[i].data.token in SaveWidgets(store, ws) && SaveWidgets(store, ws)[ws[i].data.token] == PostOf(ws[i])
    ensures forall k | k in store && !SavesToken(ws, k) :: SaveWidgets(store, ws)[k] == store[k]
  {
    forall k ensures k in SaveWidgets(store, ws) <==> k in store || SavesToken(ws, k) {
      SaveWidgetsKey(store, ws, k);
    }
    forall i | 0 <= i < |ws| && LastSavedFor(ws, i)
      ensures ws[i].data.token in SaveWidgets(store, ws) && SaveWidgets(store, ws)[ws[i].data.token] == PostOf(ws[i])
    {
      SaveWidgetsLastWins(store, ws, i);
    }
    forall k | k in store && !SavesToken(ws, k) ensures SaveWidgets(store, ws)[k] == store[k] {
      SaveWidgetsKey(store, ws, k);
    }
  }

  /** A page with one excluded listing and one ordinary listing stores only
      the ordinary one. */
  lemma ExcludedThenOrdinary(store: Store, excluded: Widget, ordinary: Widget)
    requires IsExcluded(excluded.data.title) && !IsExcluded(ordinary.data.title)
    ensures SaveWidgets(store, [excluded, ordinary]) == store[ordinary.data.token := PostOf(ordinary)]
  {
    var ws := [excluded, ordinary];
    assert ws[..1] == [excluded];
    assert [excluded][..0] == [];
    assert SaveWidgets(store, [excluded]) == SavePostToDB(SaveWidgets(store, []), excluded) == store;
    assert SaveWidgets(store, ws) == SavePostToDB(SaveWidgets(store, [excluded]), ordinary);
  }

  /** What one search request gave: a transport or decode failure, or the
      decoded page, where `None` is a nil page. */
  datatype PageFetch = FetchFailed | Fetched(list: Option<WidgetList>)

  /** Collection stops at a failed request or at a nil or empty page. */
  predicate EndsCollection(f: PageFetch)
  {
    f.FetchFailed? || f.list.None? || |f.list.value.listWidgets| == 0
  }

  function PageItems(f: PageFetch): seq<Widget>
  {
    if f.Fetched? && f.list.Some? then f.list.value.listWidgets else []
  }

  /** The table after pages `0 .. n-1` have been saved in order. */
  function SavePages(store: Store, fetch: nat -> PageFetch, n: nat): Store
  {
    if n == 0 then store else SaveWidgets(SavePages(store, fetch, n - 1), PageItems(fetch(n - 1)))
  }

  lemma SavePagesNext(store: Store, fetch: nat -> PageFetch, n: nat)
    requires !EndsCollection(fetch(n))
    ensures SavePages(store, fetch, n + 1) == SaveWidgets(SavePages(store, fetch, n), fetch(n).list.value.listWidgets)
  {
  }

  /** The inner loop of `saveLatestPosts` (main.go:74-79): each listing of
      one page in order. */
  method SavePage(store0: Store, items: seq<Widget>) returns (store: Store)
    ensures store == SaveWidgets(store0, items)
  {
    store := store0;
    for i := 0 to |items|
      invariant store == SaveWidgets(store0, items[..i])
    {
      store := SavePostToDB(store, items[i]);
      assert items[..i + 1][..i] == items[..i];
    }
    assert items[..|items|] == items;
  }

  /** The page numbers 0, 1, ..., n - 1, in order. */
  function PagesUpTo(n: nat): seq<nat>
  {
    if n == 0 then [] else PagesUpTo(n - 1) + [n - 1]
  }

  /** `PagesUpTo(n)` asks for page `i` at position `i`, and for nothing else. */
  lemma {:induction false} PagesUpToIndices(n: nat)
    ensures |PagesUpTo(n)| == n
    ensures forall i | 0 <= i < n :: PagesUpTo(n)[i] == i
  {
    if n > 0 {
      PagesUpToIndices(n - 1);
    }
  }

  /** `saveLatestPosts` (main.go:60-86). Requests pages 0, 1, 2, ... one at a
      time and saves each listing of a page before asking for the next, and
      stops at the first page that failed or came back nil or empty, without
      asking for the page after it. `requests` is how many requests were
      sent and `requested` logs, in order, the page number of each request;
      `ok` is false when the last one failed. Go's loop has no bound of
      its own, so the model asks for a page `last` at which it would stop. */
  method SaveLatestPosts(fetch: nat -> PageFetch, store0: Store, ghost last: nat)
    returns (ok: bool, requests: nat, store: Store, ghost requested: seq<nat>)
    requires EndsCollection(fetch(last))
    ensures 0 < requests <= last + 1
    ensures requested == PagesUpTo(requests)
    ensures forall p | 0 <= p < requests - 1 :: !EndsCollection(fetch(p))
    ensures EndsCollection(fetch(requests - 1))
    ensures ok <==> !fetch(requests - 1).FetchFailed?
    ensures store == SavePages(store0, fetch, requests - 1)
  {
    var pageNumber: nat := 0;
    store := store0;
    requested := [];
    while true
      invariant pageNumber <= last
      invariant requested == PagesUpTo(pageNumber)
      invariant forall p | 0 <= p < pageNumber :: !EndsCollection(fetch(p))
      invariant store == SavePages(store0, fetch, pageNumber)
      decreases last - pageNumber
    {
      var postList := fetch(pageNumber);
      requested := requested + [pageNumber];
      if postList.FetchFailed? {
        return false, pageNumber + 1, store, requested;
      }
      pageNumber := pageNumber + 1;
      if postList.list.None? || |postList.list.value.listWidgets| == 0 {
        return true, pageNumber, store, requested;
      }
      SavePagesNext(store0, fetch, pageNumber - 1);
      store := SavePage(store, postList.list.value.listWidgets);
    }
  }
}
