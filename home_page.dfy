/**
  The home page's match lists (src/pages/Index.tsx): every live match, and
  the first three upcoming matches in snapshot order.
 */
module HomePage {
  import opened Types
  import opened MatchUtils

  /** `getUpcomingMatches().slice(0, 3)`. */
  function HomeUpcoming(all: seq<MatchData>, now: int): (r: seq<MatchData>)
    ensures |r| == if |UpcomingMatches(all, now)| < 3 then |UpcomingMatches(all, now)| else 3
    ensures r == UpcomingMatches(all, now)[..|r|]
    ensures forall m | m in r :: m in all && now < m.startTime
  {
    var upcoming := UpcomingMatches(all, now);
    if |upcoming| < 3 then upcoming else upcoming[..3]
  }

  /** The home page lists every upcoming match when there are at most three of them. */
  lemma HomeShowsAllOfFew(all: seq<MatchData>, now: int)
    requires |UpcomingMatches(all, now)| <= 3
    ensures forall m | m in all && GetMatchStatus(m, now) == Upcoming :: m in HomeUpcoming(all, now)
  {
    assert HomeUpcoming(all, now) == UpcomingMatches(all, now);
  }
}
