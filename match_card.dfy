/**
  One match card (src/components/matches/MatchCard.tsx): its status and
  countdown refreshed by the clock, its watchlist star kept in step with the
  shared store, and what it renders for each status.
 */
module MatchCard {
  import opened Types
  import opened Text
  import opened MatchUtils
  import opened Watchlist

  /** The left-hand badge: "LIVE NOW" for a live match, else the start date. */
  datatype Badge = LiveNow | StartDate(startTime: int)

  /** What the card renders; `NoCard` is the `null` of a finished match. */
  datatype CardView =
    | NoCard
    | Card(badge: Badge, button: string, link: string, startsIn: Option<string>, starred: bool)

  /** The render of a card in the given state. */
  function Render(m: MatchData, status: MatchStatus, timeUntil: string, isWatchlisted: bool): (v: CardView)
    ensures v.NoCard? <==> status == Finished
    ensures v.Card? ==> (v.badge == LiveNow <==> status == Live)
    ensures v.Card? && status == Upcoming ==> v.badge == StartDate(m.startTime)
    ensures v.Card? ==> (v.button == "Watch Now" <==> status == Live)
    ensures v.Card? ==> (v.button == "View Details" <==> status == Upcoming)
    ensures v.Card? ==> (v.startsIn.Some? <==> status == Upcoming)
    ensures v.Card? && v.startsIn.Some? ==> v.startsIn.value == timeUntil
    ensures v.Card? ==> v.link == "/match/" + m.id && v.starred == isWatchlisted
  {
    match status
    case Finished => NoCard
    case Live => Card(LiveNow, "Watch Now", "/match/" + m.id, None, isWatchlisted)
    case Upcoming => Card(StartDate(m.startTime), "View Details", "/match/" + m.id, Some(timeUntil), isWatchlisted)
  }

  /** The state of one mounted card. */
  class MatchCardState {
    const data: MatchData
    const store: WatchlistStore
    var status: MatchStatus
    var timeUntil: string
    var isWatchlisted: bool

    /** The star agrees with the store. */
    predicate Synced()
      reads this, store
    {
      isWatchlisted <==> data.id in store.Ids()
    }

    /** Mounting: status and countdown at `now`, and the star read from the store. */
    constructor (data: MatchData, store: WatchlistStore, now: int)
      ensures this.data == data && this.store == store
      ensures status == GetMatchStatus(data, now) && timeUntil == TimeUntilMatch(data, now)
      ensures isWatchlisted == (data.id in store.Ids())
      ensures Synced()
    {
      this.data := data;
      this.store := store;
      status := GetMatchStatus(data, now);
      timeUntil := TimeUntilMatch(data, now);
      isWatchlisted := false;
      new;
      isWatchlisted := store.IsInWatchlist(data.id);
    }

    /** checkStatus at `now`: recomputes status and countdown, nothing else. */
    method CheckStatus(now: int)
      modifies this
      ensures status == GetMatchStatus(data, now) && timeUntil == TimeUntilMatch(data, now)
      ensures isWatchlisted == old(isWatchlisted)
    {
      status := GetMatchStatus(data, now);
      timeUntil := TimeUntilMatch(data, now);
    }

    /**
      handleWatchlistToggle: a starred card removes its id and clears the star,
      an unstarred one adds its id and sets the star. Either way the star ends
      up equal to store membership.
     */
    method HandleWatchlistToggle()
      modifies this, store
      ensures old(isWatchlisted) ==> store.item == Some(Removed(old(store.Ids()), data.id)) && !isWatchlisted
      ensures !old(isWatchlisted) ==> store.Ids() == Added(old(store.Ids()), data.id) && isWatchlisted
      ensures Synced()
      ensures status == old(status) && timeUntil == old(timeUntil)
    {
      if isWatchlisted {
        store.RemoveFromWatchlist(data.id);
        isWatchlisted := false;
      } else {
        store.AddToWatchlist(data.id);
        isWatchlisted := true;
      }
    }

    /** The card as currently rendered. */
    function View(): CardView
      reads this
    {
      Render(data, status, timeUntil, isWatchlisted)
    }
  }

  /** Starring and unstarring a synced card puts the star and the store's membership back. */
  method ToggleTwice(card: MatchCardState)
    modifies card, card.store
    requires card.Synced()
    ensures card.isWatchlisted == old(card.isWatchlisted) && card.Synced()
    ensures (card.data.id in card.store.Ids()) == old(card.data.id in card.store.Ids())
  {
    card.HandleWatchlistToggle();
    card.HandleWatchlistToggle();
  }

  /**
    A refresh before the start shows "Starts in" with the whole days, hours and
    minutes left; from the start on the card shows "LIVE NOW" until the end and
    nothing after it.
   */
  lemma RefreshedCard(m: MatchData, now: int, starred: bool)
    ensures var v := Render(m, GetMatchStatus(m, now), TimeUntilMatch(m, now), starred);
      && (now < m.startTime ==>
            v.Card? && v.startsIn.Some?
            && ReadTimeString(v.startsIn.value) == Some(Countdown(Breakdown(m.startTime - now).days,
                 Breakdown(m.startTime - now).hours, Breakdown(m.startTime - now).minutes, 0)))
      && (m.startTime <= now <= m.endTime ==> v.Card? && v.badge == LiveNow && v.startsIn.None?)
      && (m.startTime <= now && m.endTime < now ==> v.NoCard?)
  {
  }

  /** Once a card has disappeared it never comes back on a later refresh. */
  lemma HiddenStaysHidden(m: MatchData, t1: int, t2: int, s1: string, s2: string, b1: bool, b2: bool)
    requires t1 <= t2
    requires Render(m, GetMatchStatus(m, t1), s1, b1).NoCard?
    ensures Render(m, GetMatchStatus(m, t2), s2, b2).NoCard?
  {
    StatusNeverRegresses(m, t1, t2);
  }
}
