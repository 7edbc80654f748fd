/**
  The Watchlist page (src/pages/Watchlist.tsx): the matches of the snapshot
  whose id is in the stored watchlist and which have not finished, in
  snapshot order, and the Clear Watchlist action.
 */
module WatchlistPage {
  import opened Types
  import opened Seqs
  import opened MatchUtils
  import opened Watchlist

  predicate Listed(ids: seq<string>, m: MatchData) {
    m.id in ids
  }

  predicate NotFinished(now: int, m: MatchData) {
    GetMatchStatus(m, now) != Finished
  }

  /** Listed in the watchlist and not finished: what the two filters keep. */
  predicate InView(ids: seq<string>, now: int, m: MatchData) {
    Listed(ids, m) && NotFinished(now, m)
  }

  /** The list updateWatchlistMatches computes: two filters over the snapshot. */
  function WatchlistView(all: seq<MatchData>, ids: seq<string>, now: int): (r: seq<MatchData>)
    ensures IsSubseq(r, all)
    ensures forall m | m in r :: m in all && m.id in ids && GetMatchStatus(m, now) != Finished
    ensures forall m | m in all && m.id in ids && GetMatchStatus(m, now) != Finished :: m in r
    ensures forall m :: multiset(r)[m] == if InView(ids, now, m) then multiset(all)[m] else 0
  {
    ViewIsOneFilter(all, ids, now);
    var inView := (m: MatchData) => InView(ids, now, m);
    FilterIsSubseq(all, inView);
    forall m ensures multiset(Filter(all, inView))[m] == if inView(m) then multiset(all)[m] else 0 {
      FilterCount(all, inView, m);
    }
    Filter(Filter(all, (m: MatchData) => Listed(ids, m)), (m: MatchData) => NotFinished(now, m))
  }

  /** The two filters in a row are one filter by `InView`. */
  lemma ViewIsOneFilter(all: seq<MatchData>, ids: seq<string>, now: int)
    ensures Filter(Filter(all, (m: MatchData) => Listed(ids, m)), (m: MatchData) => NotFinished(now, m))
            == Filter(all, (m: MatchData) => InView(ids, now, m))
  {
    FilterFilter(all, (m: MatchData) => Listed(ids, m), (m: MatchData) => NotFinished(now, m),
                 (m: MatchData) => InView(ids, now, m));
  }

  /** With an empty watchlist the view is empty. */
  lemma EmptyWatchlistView(all: seq<MatchData>, now: int)
    ensures WatchlistView(all, [], now) == []
  {
    ViewIsOneFilter(all, [], now);
    FilterKeepsNone(all, (m: MatchData) => InView([], now, m));
  }

  /**
    Only which snapshot ids the watchlist holds matters: its order, duplicates
    and ids of no match change nothing in the view.
   */
  lemma {:induction false} ViewDependsOnlyOnListedIds(all: seq<MatchData>, ids1: seq<string>, ids2: seq<string>, now: int)
    requires forall m | m in all :: m.id in ids1 <==> m.id in ids2
    ensures WatchlistView(all, ids1, now) == WatchlistView(all, ids2, now)
  {
    FilterCongruent(all, (m: MatchData) => Listed(ids1, m), (m: MatchData) => Listed(ids2, m));
  }

  /** Removing an id from the store removes exactly that id's matches from the view. */
  lemma {:induction false} RemoveHidesOnlyThatMatch(all: seq<MatchData>, ids: seq<string>, id: string, now: int)
    ensures WatchlistView(all, Removed(ids, id), now) ==
              Filter(WatchlistView(all, ids, now), (m: MatchData) => m.id != id)
  {
    var inView := (m: MatchData) => InView(ids, now, m);
    var other := (m: MatchData) => m.id != id;
    ViewIsOneFilter(all, Removed(ids, id), now);
    ViewIsOneFilter(all, ids, now);
    FilterFilter(all, inView, other, (m: MatchData) => InView(Removed(ids, id), now, m));
  }

  /** A match that drops out of the view as the clock advances never comes back. */
  lemma ViewShrinksOverTime(all: seq<MatchData>, ids: seq<string>, t1: int, t2: int)
    requires t1 <= t2
    ensures forall m | m in WatchlistView(all, ids, t2) :: m in WatchlistView(all, ids, t1)
  {
    forall m | m in WatchlistView(all, ids, t2) ensures m in WatchlistView(all, ids, t1) {
      StatusNeverRegresses(m, t1, t2);
    }
  }

  /** The page's state: the snapshot, the shared store and the displayed list. */
  class WatchlistPageState {
    const all: seq<MatchData>
    const store: WatchlistStore
    var watchlistMatches: seq<MatchData>

    /** Mounting runs one update at `now`. */
    constructor (all: seq<MatchData>, store: WatchlistStore, now: int)
      ensures this.all == all && this.store == store
      ensures watchlistMatches == WatchlistView(all, store.Ids(), now)
    {
      this.all := all;
      this.store := store;
      watchlistMatches := WatchlistView(all, store.Ids(), now);
    }

    /**
      updateWatchlistMatches at `now`: reads the store, recomputes the list. The
      Clear button then shows exactly when some match of the snapshot is listed
      and not finished.
     */
    method UpdateWatchlistMatches(now: int)
      modifies this
      ensures watchlistMatches == WatchlistView(all, store.Ids(), now)
      ensures ShowClearButton() <==> exists m | m in all :: InView(store.Ids(), now, m)
    {
      var watchlistIds := store.GetWatchlist();
      watchlistMatches := WatchlistView(all, watchlistIds, now);
    }

    /** handleClearWatchlist: deletes the stored key and empties the list. */
    method HandleClearWatchlist()
      modifies this, store
      ensures store.item == None && watchlistMatches == []
      ensures forall now :: WatchlistView(all, store.Ids(), now) == watchlistMatches
    {
      store.ClearWatchlist();
      watchlistMatches := [];
      forall now ensures WatchlistView(all, store.Ids(), now) == [] {
        EmptyWatchlistView(all, now);
      }
    }

    /** The Clear Watchlist button is offered exactly when the list holds some match. */
    predicate ShowClearButton()
      reads this
      ensures ShowClearButton() <==> exists m :: m in watchlistMatches
    {
      assert |watchlistMatches| > 0 ==> watchlistMatches[0] in watchlistMatches;
      |watchlistMatches| > 0
    }
  }

  /** After Clear Watchlist, a refresh at any time still shows nothing and hides the button. */
  method ClearThenRefresh(page: WatchlistPageState, now: int)
    modifies page, page.store
    ensures page.watchlistMatches == [] && !page.ShowClearButton()
    ensures page.store.item == None
  {
    page.HandleClearWatchlist();
    page.UpdateWatchlistMatches(now);
  }
}
