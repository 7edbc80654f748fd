/**
  The match details view. The page src/pages/MatchDetails.tsx and the
  component src/components/matches/MatchDetails.tsx carry the same logic and
  differ only in markup, so one model serves both: look the route id up,
  redirect to not-found when that fails, refresh the status on the clock, keep
  the watchlist button in step with the store, and show the stream unless the
  match has finished.
 */
module MatchDetails {
  import opened Types
  import opened MatchUtils
  import opened Watchlist

  /** The outcome of the lookup effect. */
  datatype Lookup = NotFound | Found(data: MatchData)

  /** The lookup effect: a missing or empty route id, or one no match has, is not found. */
  function LookupMatch(all: seq<MatchData>, id: Option<string>): (r: Lookup)
    ensures r.NotFound? <==> id.None? || id.value == "" || forall m | m in all :: m.id != id.value
    ensures r.Found? ==> r.data in all && r.data.id == id.value
    ensures r.Found? ==> exists k | 0 <= k < |all| :: all[k] == r.data && forall j | 0 <= j < k :: all[j].id != id.value
  {
    if id.None? || id.value == "" then NotFound
    else match GetMatchById(all, id.value)
      case None => NotFound
      case Some(m) => Found(m)
  }

  /** What the view renders. */
  datatype DetailsView =
    | Loading
    | Details(liveTag: bool, stream: bool, buttonLabel: string)

  /**
    The render: "Loading match details..." without a match; else the LIVE tag
    only for a live match, the stream unless the status is finished (the
    "This match has ended" panel then), and the watchlist button's label.
   */
  function Render(data: Option<MatchData>, status: Option<MatchStatus>, isWatchlisted: bool): (v: DetailsView)
    ensures v.Loading? <==> data.None?
    ensures v.Details? ==> (v.liveTag <==> status == Some(Live))
    ensures v.Details? ==> (!v.stream <==> status == Some(Finished))
    ensures v.Details? ==> (v.buttonLabel == "Remove from Watchlist" <==> isWatchlisted)
    ensures v.Details? ==> (v.buttonLabel == "Add to Watchlist" <==> !isWatchlisted)
  {
    if data.None? then Loading
    else Details(status == Some(Live), status != Some(Finished),
                 if isWatchlisted then "Remove from Watchlist" else "Add to Watchlist")
  }

  /** The state of the mounted view. */
  class MatchDetailsState {
    const all: seq<MatchData>
    const store: WatchlistStore
    var data: Option<MatchData>
    var status: Option<MatchStatus>
    var isWatchlisted: bool
    var redirectedToNotFound: bool

    /** With a match loaded, the button agrees with the store. */
    predicate Synced()
      reads this, store
    {
      data.Some? ==> (isWatchlisted <==> data.value.id in store.Ids())
    }

    /** Mounting under route id `id` at time `now`. */
    constructor (all: seq<MatchData>, store: WatchlistStore, id: Option<string>, now: int)
      ensures this.all == all && this.store == store
      ensures LookupMatch(all, id).NotFound? ==>
                redirectedToNotFound && data.None? && status.None? && !isWatchlisted
      ensures LookupMatch(all, id).Found? ==>
                && !redirectedToNotFound
                && data == Some(LookupMatch(all, id).data)
                && status == Some(GetMatchStatus(LookupMatch(all, id).data, now))
      ensures Synced()
    {
      this.all := all;
      this.store := store;
      data := None;
      status := None;
      isWatchlisted := false;
      redirectedToNotFound := false;
      new;
      match LookupMatch(all, id)
      case NotFound =>
        redirectedToNotFound := true;
      case Found(m) =>
        data := Some(m);
        status := Some(GetMatchStatus(m, now));
        isWatchlisted := store.IsInWatchlist(id.value);
    }

    /** One tick of the status interval, which runs only once a match is loaded. */
    method Tick(now: int)
      modifies this
      ensures data == old(data) && isWatchlisted == old(isWatchlisted)
      ensures redirectedToNotFound == old(redirectedToNotFound)
      ensures data.Some? ==> status == Some(GetMatchStatus(data.value, now))
      ensures data.None? ==> status == old(status)
    {
      if data.Some? {
        status := Some(GetMatchStatus(data.value, now));
      }
    }

    /**
      handleWatchlistToggle: nothing without a match; else removes and clears,
      or adds and sets, leaving the button equal to store membership.
     */
    method HandleWatchlistToggle()
      modifies this, store
      ensures data == old(data) && status == old(status)
      ensures redirectedToNotFound == old(redirectedToNotFound)
      ensures data.None? ==> store.item == old(store.item) && isWatchlisted == old(isWatchlisted)
      ensures data.Some? && old(isWatchlisted) ==>
                store.item == Some(Removed(old(store.Ids()), data.value.id)) && !isWatchlisted
      ensures data.Some? && !old(isWatchlisted) ==>
                store.Ids() == Added(old(store.Ids()), data.value.id) && isWatchlisted
      ensures data.Some? ==> Synced()
    {
      if data.None? {
        return;
      }
      if isWatchlisted {
        store.RemoveFromWatchlist(data.value.id);
        isWatchlisted := false;
      } else {
        store.AddToWatchlist(data.value.id);
        isWatchlisted := true;
      }
    }

    /** The view as currently rendered. */
    function View(): DetailsView
      reads this
    {
      Render(data, status, isWatchlisted)
    }
  }

  /**
    After a tick at `now`, a loaded view shows the stream exactly while the
    match has not finished, and the LIVE tag exactly within its window.
   */
  method StreamAfterTick(view: MatchDetailsState, now: int)
    modifies view
    requires view.data.Some?
    ensures view.View().Details?
    ensures view.View().stream <==> now <= view.data.value.endTime || now < view.data.value.startTime
    ensures view.View().liveTag <==> view.data.value.startTime <= now <= view.data.value.endTime
  {
    view.Tick(now);
  }

  /** Once the stream has given way to the ended panel it never comes back. */
  lemma EndedStaysEnded(m: MatchData, t1: int, t2: int, b1: bool, b2: bool)
    requires t1 <= t2
    requires !Render(Some(m), Some(GetMatchStatus(m, t1)), b1).stream
    ensures !Render(Some(m), Some(GetMatchStatus(m, t2)), b2).stream
  {
    StatusNeverRegresses(m, t1, t2);
  }
}
