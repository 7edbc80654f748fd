# Cricket match streaming front end, modelled in Dafny

The application lists live and upcoming cricket matches from a static snapshot.
It streams a chosen match through a video or iframe player, and keeps a
watchlist of match ids in the browser's key-value store. This project models
its core in Dafny and proves the properties that core promises:

- **Match lifecycle.** A match is upcoming before its start, live from start to
  end inclusive, and finished after. Two countdown renderings are derived from
  the time left: "1d 2h 3m" and "1:2:3:4".
- **Watchlist store.** One list of match ids under one key. It supports add
  (no duplicates), remove (every copy), membership and clear.
- **Player, pages and cards.**
  - The video player's source selection and mute state.
  - The All Matches search.
  - The Watchlist page: watchlist ids joined with the snapshot, finished matches dropped.
  - The "Next Big Match" widget.
  - The match card and the match details view, with their watchlist toggles.
  - The home page's first three upcoming matches.

The clock is a parameter everywhere: `now` is in milliseconds since the epoch.
The snapshot of matches is the parameter `all`. Match timestamps are taken as
already-parsed milliseconds.

Modules, one per source file plus two helpers (`Text` and `Seqs`):

| file | module | models |
|---|---|---|
| types.dfy | `Types` | src/lib/types.ts |
| text.dfy | `Text` | helper: decimal rendering, `split`, `includes`, ASCII `toLowerCase`, `trim` |
| seqs.dfy | `Seqs` | helper: `filter`, `find`, order-preserving subsequences |
| match_utils.dfy | `MatchUtils` | src/lib/utils.ts |
| watchlist.dfy | `Watchlist` | src/lib/watchlist.ts (class `WatchlistStore`) |
| video_player.dfy | `VideoPlayer` | src/components/matches/CustomVideoPlayer.tsx (class `CustomVideoPlayer`) |
| all_matches.dfy | `AllMatches` | src/pages/AllMatches.tsx |
| watchlist_page.dfy | `WatchlistPage` | src/pages/Watchlist.tsx (class `WatchlistPageState`) |
| upcoming_widget.dfy | `UpcomingWidget` | src/components/home/UpcomingEventWidget.tsx |
| match_card.dfy | `MatchCard` | src/components/matches/MatchCard.tsx (class `MatchCardState`) |
| match_details.dfy | `MatchDetails` | src/pages/MatchDetails.tsx and src/components/matches/MatchDetails.tsx (class `MatchDetailsState`) |
| home_page.dfy | `HomePage` | src/pages/Index.tsx |

The two MatchDetails files hold the same state, effect and toggle logic and
differ only in markup, so one module models both.

## Model

| member | source | states |
|---|---|---|
| MatchUtils.GetMatchStatus | src/lib/utils.ts:23-35 | Upcoming iff now < start; Live iff start <= now <= end, both ends inclusive; Finished iff start <= now and end < now |
| MatchUtils.StatusNeverRegresses | src/lib/utils.ts:28-34 | as time advances a match moves only forward through Upcoming, Live, Finished |
| MatchUtils.BoundariesAreLive | src/lib/utils.ts:30 | both the start and the end instant classify as Live |
| MatchUtils.Breakdown | src/lib/utils.ts:49-51 | the floor divisions give hours < 24, minutes < 60, seconds < 60, and the parts add up to the time left less under one second |
| MatchUtils.BreakdownUnique | src/lib/utils.ts:78-81 | the days/hours/minutes/seconds split is the only normal split within one second of the time left |
| MatchUtils.MinutePrecision | src/lib/utils.ts:49-51 | the days, hours and minutes shown account for the time left to within one minute |
| MatchUtils.TimeStringIsJoin | src/lib/utils.ts:54-63 | the `+=` build is the tokens "{d}d", "{h}h", "{m}m" joined by single spaces |
| MatchUtils.TimeStringReadsBack | src/lib/utils.ts:54-63 | the countdown text reads back as the days, hours and minutes it was built from; it has 3 tokens with days, 2 with hours only, 1 otherwise |
| MatchUtils.ReadUnitToString | src/lib/utils.ts:56-61 | each "{n}{unit}" token holds no space and reads back as n |
| MatchUtils.LiveNowIsNoCountdown | src/lib/utils.ts:42-44 | "Live now" never reads as a countdown |
| MatchUtils.TimeUntilMatch | src/lib/utils.ts:38-64 | the text is "Live now" exactly from the start on, and then reads as no countdown; before the start it is the "{d}d", "{h}h", "{m}m" tokens joined by single spaces, days printed only when non-zero and hours when either is (3, 2 or 1 tokens), and it reads back as exactly the whole days, hours and minutes left |
| MatchUtils.ClockSplits | src/lib/utils.ts:83 | "{d}:{h}:{m}:{s}" splits on ':' into its four decimal fields, each reading back as its number |
| MatchUtils.MatchTimeRemaining | src/lib/utils.ts:67-84 | both branches, including the fixed "0:0:0:0", are the clock of the time left clamped at 0; it splits on ':' into four fields that read back as the days, hours, minutes and seconds |
| MatchUtils.ClockOfZero | src/lib/utils.ts:71-73 | the fixed "0:0:0:0" is the clock rendering of no time left |
| MatchUtils.LiveMatches | src/lib/utils.ts:92-94 | an order-preserving subsequence of the snapshot holding exactly its live matches, every copy kept |
| MatchUtils.UpcomingMatches | src/lib/utils.ts:97-99 | an order-preserving subsequence of the snapshot holding exactly its upcoming matches, every copy kept |
| MatchUtils.LiveAndUpcomingDisjoint | src/lib/utils.ts:92-99 | no match is in both lists at the same instant |
| MatchUtils.GetMatchById | src/lib/utils.ts:102-104 | None iff no match has the id; otherwise the first match with that id |
| Text.NatToString | src/lib/utils.ts:83 | decimal text of a number: non-empty, all digits, one digit iff below 10, no leading zero |
| Text.ParseNatToString | src/lib/utils.ts:83 | rendering a number in decimal and reading it back gives the number |
| Text.Split | src/components/home/UpcomingEventWidget.tsx:60 | `split` on one character gives at least one piece, and no piece holds the separator |
| Text.SplitJoin | src/components/home/UpcomingEventWidget.tsx:60-78 | splitting undoes joining when no piece holds the separator |
| Text.JoinSplit | src/components/home/UpcomingEventWidget.tsx:60-78 | joining the pieces of a split gives back the string |
| Text.Contains | src/pages/AllMatches.tsx:37-39 | `includes` finds the empty string and every prefix, and nothing longer than the string |
| Text.ContainsIff | src/pages/AllMatches.tsx:37-39 | `includes` holds exactly when the query occurs at some position |
| Text.ToLower | src/pages/AllMatches.tsx:34 | lower-casing keeps the length and lowers each ASCII capital, nothing else |
| Text.ToLowerIdempotent | src/pages/AllMatches.tsx:34-39 | lower-casing twice is lower-casing once |
| Text.TrimStart | src/pages/AllMatches.tsx:30 | the leading-whitespace cut is a suffix starting with a non-space, and only whitespace was cut |
| Text.TrimEnd | src/pages/AllMatches.tsx:30 | the trailing-whitespace cut is a prefix ending with a non-space, and only whitespace was cut |
| Text.Trim | src/pages/AllMatches.tsx:30 | `trim` gives a middle slice whose ends are not whitespace, with only whitespace cut away on either side |
| Text.TrimEmptyIff | src/pages/AllMatches.tsx:30 | a query trims to "" exactly when every character is whitespace |
| Seqs.Filter | src/lib/utils.ts:93 | `filter` keeps exactly the elements satisfying the predicate and never grows the list |
| Seqs.FilterIsSubseq | src/pages/Watchlist.tsx:31-33 | `filter` keeps the survivors in their original order |
| Seqs.FilterCount | src/lib/watchlist.ts:24 | `filter` keeps every copy of a kept element and none of a dropped one |
| Seqs.FilterFilter | src/pages/Watchlist.tsx:31-33 | two filters in a row are one filter by the conjunction |
| Seqs.FilterAppend | src/pages/AllMatches.tsx:36-46 | filtering distributes over concatenation |
| Seqs.FilterCongruent | src/pages/Watchlist.tsx:32 | predicates that agree on the list's elements filter it alike |
| Seqs.FilterKeepsAll | src/lib/watchlist.ts:24 | a filter that keeps every element is the identity |
| Seqs.FilterKeepsNone | src/pages/Watchlist.tsx:32 | a filter that keeps no element gives [] |
| Seqs.Find | src/lib/utils.ts:103 | `find` is None iff nothing satisfies the predicate, else the first element that does |
| Watchlist.Contents | src/lib/watchlist.ts:7-10 | an absent key reads as the empty list, a present one as the list stored |
| Watchlist.Added | src/lib/watchlist.ts:13-19 | the id is present afterwards; the old list is a prefix; at most one element is added; no duplicates are introduced |
| Watchlist.Removed | src/lib/watchlist.ts:22-26 | the id is absent; every other id keeps its count and order |
| Watchlist.AddedIdempotent | src/lib/watchlist.ts:15 | adding a present id changes nothing, so adding twice is adding once |
| Watchlist.RemovedAbsent | src/lib/watchlist.ts:24 | removing an absent id leaves the list as it was |
| Watchlist.RemovedNoDuplicates | src/lib/watchlist.ts:24 | removing keeps a duplicate-free list duplicate-free |
| Watchlist.AddThenRemove | src/lib/watchlist.ts:13-26 | adding a new id and removing it restores the list exactly |
| Watchlist.RemoveThenAdd | src/lib/watchlist.ts:13-26 | removing an id and adding it back moves it to the end |
| Watchlist.WatchlistStore.constructor | src/lib/watchlist.ts:4-9 | the store starts from the value held under the watchlist key, absent or a list |
| Watchlist.WatchlistStore.GetWatchlist | src/lib/watchlist.ts:7-10 | returns the stored list, [] for an absent key, and writes nothing |
| Watchlist.WatchlistStore.AddToWatchlist | src/lib/watchlist.ts:13-19 | a present id leaves the stored value untouched; a new id is appended and written |
| Watchlist.WatchlistStore.RemoveFromWatchlist | src/lib/watchlist.ts:22-26 | always writes the list without the id, even when nothing was dropped |
| Watchlist.WatchlistStore.IsInWatchlist | src/lib/watchlist.ts:29-32 | true iff the id is in the stored list; writes nothing |
| Watchlist.WatchlistStore.ClearWatchlist | src/lib/watchlist.ts:35-37 | deletes the key, so the list reads as [] |
| Watchlist.AddTwiceThenRemove | src/lib/watchlist.ts:13-26 | add, add again, remove from an absent key leaves the key holding [], not absent |
| VideoPlayer.InitialSourceId | src/components/matches/CustomVideoPlayer.tsx:19 | a non-empty given id wins; otherwise the first source's id, or "" without sources |
| VideoPlayer.ActiveSource | src/components/matches/CustomVideoPlayer.tsx:28 | the first source with the active id; an unknown id falls back to the first source; None only without sources |
| VideoPlayer.Render | src/components/matches/CustomVideoPlayer.tsx:113-166 | the "no sources" panel iff the list is empty; an iframe iff the active source is an iframe source, else a video element; the selector iff more than one source |
| VideoPlayer.CustomVideoPlayer.constructor | src/components/matches/CustomVideoPlayer.tsx:19-23 | initial state: the initial id, paused, unmuted, volume 1, time and duration 0 |
| VideoPlayer.CustomVideoPlayer.HandleSourceChange | src/components/matches/CustomVideoPlayer.tsx:90-93 | takes any id as given and pauses; mute, volume and time are unchanged |
| VideoPlayer.CustomVideoPlayer.ToggleMute | src/components/matches/CustomVideoPlayer.tsx:63-69 | flips the muted flag when a video element is rendered, otherwise changes nothing |
| VideoPlayer.ToggleMuteTwice | src/components/matches/CustomVideoPlayer.tsx:63-69 | muting twice restores the muted flag |
| VideoPlayer.SwitchToListedSource | src/components/matches/CustomVideoPlayer.tsx:90-93 | choosing the first source with a given id from the drop-down makes it the active source and pauses |
| VideoPlayer.FormatTime | src/components/matches/CustomVideoPlayer.tsx:106-110 | "{minutes}:{seconds}" splits on ':' into two digit fields: the first is the decimal text of t / 60; the second has exactly two digits, reads back as t % 60 and starts with a padding '0' exactly when t % 60 < 10; together they give back t |
| AllMatches.IsBlank | src/pages/AllMatches.tsx:30 | a query counts as empty exactly when every character of it is whitespace |
| AllMatches.MatchesQuery | src/pages/AllMatches.tsx:36-46 | a match passes a lower-cased query exactly when it occurs in the lower-cased teamA, teamB or tournament |
| AllMatches.SearchFilter | src/pages/AllMatches.tsx:28-48 | a blank query keeps the list; otherwise a match is kept iff lower-cased teamA, teamB or tournament contains the lower-cased, untrimmed query; order is kept, and a kept match keeps every copy while a dropped one keeps none |
| AllMatches.FilterBoth | src/pages/AllMatches.tsx:28-48 | each list is that list under the search filter of the one query, and together they are the filter of the two lists concatenated; a blank query leaves both lists as they are |
| AllMatches.NoMatchesIff | src/pages/AllMatches.tsx:99 | "No matches found" shows exactly when both filtered lists are empty: every live or upcoming match fails a non-blank query, or there are none at all |
| AllMatches.SearchFilterAppend | src/pages/AllMatches.tsx:36-46 | the live and upcoming lists use the same predicate: filtering both is filtering their concatenation |
| AllMatches.SearchIgnoresCase | src/pages/AllMatches.tsx:34 | the result does not depend on the letter case of the query |
| AllMatches.SearchNarrows | src/pages/AllMatches.tsx:34-46 | typing more characters at the end of the query never adds a match |
| WatchlistPage.WatchlistView | src/pages/Watchlist.tsx:26-36 | exactly the snapshot matches whose id is listed and which are not finished, in snapshot order, each with as many copies as in the snapshot |
| WatchlistPage.ViewIsOneFilter | src/pages/Watchlist.tsx:31-33 | the two filters are one filter by "listed and not finished" |
| WatchlistPage.EmptyWatchlistView | src/pages/Watchlist.tsx:31-33 | an empty watchlist shows nothing |
| WatchlistPage.ViewDependsOnlyOnListedIds | src/pages/Watchlist.tsx:32 | watchlist order, duplicate ids and ids of no match change nothing in the view |
| WatchlistPage.RemoveHidesOnlyThatMatch | src/pages/Watchlist.tsx:31-33 | removing an id from the store removes exactly that id's matches from the view |
| WatchlistPage.ViewShrinksOverTime | src/pages/Watchlist.tsx:21-33 | a match that leaves the view on a refresh never comes back on a later one |
| WatchlistPage.WatchlistPageState.constructor | src/pages/Watchlist.tsx:17-24 | mounting computes the view from the store |
| WatchlistPage.WatchlistPageState.UpdateWatchlistMatches | src/pages/Watchlist.tsx:26-36 | the list becomes the view of the current store at `now`, so the Clear button shows exactly when some snapshot match is listed and not finished |
| WatchlistPage.WatchlistPageState.HandleClearWatchlist | src/pages/Watchlist.tsx:38-45 | deletes the key and empties the list, which agrees with the view of the cleared store at every time |
| WatchlistPage.WatchlistPageState.ShowClearButton | src/pages/Watchlist.tsx:58 | the Clear Watchlist button is offered exactly when the list holds some match |
| WatchlistPage.ClearThenRefresh | src/pages/Watchlist.tsx:38-58 | after clearing, a refresh still shows nothing and the Clear button is hidden |
| UpcomingWidget.NextMatch | src/components/home/UpcomingEventWidget.tsx:15-20 | None iff there are no upcoming matches; otherwise one with the least start time, the first such in list order |
| UpcomingWidget.NextMatchUnique | src/components/home/UpcomingEventWidget.tsx:17-20 | the least start time, first among ties, picks out exactly the match chosen |
| UpcomingWidget.NextBigMatch | src/components/home/UpcomingEventWidget.tsx:12-22 | the chosen match is upcoming and starts no later than any upcoming match; None iff none is upcoming |
| UpcomingWidget.Field | src/components/home/UpcomingEventWidget.tsx:60 | a missing or empty field shows "0", any other shows as is; never an empty cell |
| UpcomingWidget.CountdownFields | src/components/home/UpcomingEventWidget.tsx:60-78 | four cells; cell k is the k-th ':'-field when that exists and is non-empty, and "0" otherwise |
| UpcomingWidget.CountdownFieldsOfRemaining | src/components/home/UpcomingEventWidget.tsx:24-36 | the four cells are the days, hours, minutes and seconds left; no cell falls back to "0" |
| UpcomingWidget.CountdownFieldsBeforeFirstTick | src/components/home/UpcomingEventWidget.tsx:10 | before the first tick every cell shows "0" |
| UpcomingWidget.Widget | src/components/home/UpcomingEventWidget.tsx:24-81 | renders nothing iff no match was chosen; otherwise the chosen match, whose four cells are the fields of its getMatchTimeRemaining string: the days, hours, minutes and seconds left before its start, clamped at zero |
| UpcomingWidget.WidgetAfterStart | src/components/home/UpcomingEventWidget.tsx:60-78 | once the chosen match has started, every cell reads "0" |
| UpcomingWidget.ZeroClockCells | src/lib/utils.ts:71-73 | "0:0:0:0" shows as four "0" cells |
| MatchCard.Render | src/components/matches/MatchCard.tsx:59-107 | nothing iff finished; "LIVE NOW" and "Watch Now" iff live; an upcoming card shows its start date, "View Details" and the "Starts in" countdown, the last only when upcoming |
| MatchCard.MatchCardState.constructor | src/components/matches/MatchCard.tsx:17-39 | status and countdown at mount time, and the star equal to store membership |
| MatchCard.MatchCardState.CheckStatus | src/components/matches/MatchCard.tsx:23-34 | recomputes status and countdown at `now` and leaves the star alone |
| MatchCard.MatchCardState.HandleWatchlistToggle | src/components/matches/MatchCard.tsx:41-57 | starred: removes the id and clears the star; unstarred: adds the id and sets the star; afterwards the star equals store membership |
| MatchCard.ToggleTwice | src/components/matches/MatchCard.tsx:41-57 | two toggles of a synced card restore the star and the store membership |
| MatchCard.RefreshedCard | src/components/matches/MatchCard.tsx:23-34 | before the start the card shows a countdown that reads back as the time left; live it shows "LIVE NOW"; finished it is gone |
| MatchCard.HiddenStaysHidden | src/components/matches/MatchCard.tsx:59-61 | a card that disappeared never reappears on a later refresh |
| MatchDetails.LookupMatch | src/pages/MatchDetails.tsx:22-31 | not found iff the route id is missing, empty or names no match; otherwise the first match with that id (the same effect sits at src/components/matches/MatchDetails.tsx:22-31) |
| MatchDetails.Render | src/pages/MatchDetails.tsx:68-118 | loading without a match; the LIVE tag iff live; the stream unless finished, else the ended panel; the button label follows the flag (the component's copy: src/components/matches/MatchDetails.tsx:95-130) |
| MatchDetails.MatchDetailsState.constructor | src/pages/MatchDetails.tsx:21-46 | lookup failure redirects and leaves no match; success sets the match, its status and the flag from the store |
| MatchDetails.MatchDetailsState.Tick | src/components/matches/MatchDetails.tsx:38-44 | recomputes the status of a loaded match; otherwise nothing |
| MatchDetails.MatchDetailsState.HandleWatchlistToggle | src/pages/MatchDetails.tsx:48-66 | no-op without a match; otherwise removes and clears or adds and sets, leaving the flag equal to store membership; the match, its status and the not-found redirect are untouched (the component's copy: src/components/matches/MatchDetails.tsx:48-66) |
| MatchDetails.StreamAfterTick | src/components/matches/MatchDetails.tsx:95-130 | after a tick the stream shows iff the match has not finished, and the LIVE tag iff it is within its window |
| MatchDetails.EndedStaysEnded | src/pages/MatchDetails.tsx:106-118 | once the ended panel replaces the stream, it stays |
| HomePage.HomeUpcoming | src/pages/Index.tsx:27-33 | the first min(3, n) upcoming matches, in snapshot order |
| HomePage.HomeShowsAllOfFew | src/pages/Index.tsx:31-32 | with at most three upcoming matches, all of them are shown |

## Left out

- Date parsing and locale formatting. `formatDate` and `new Date(...)` depend on
  the time zone and locale. Timestamps are pre-parsed whole milliseconds, and
  `now` replaces every read of the clock.
- `cn`: a wrapper over class-name libraries, with no logic.
- The key-value store and JSON.
  - The store is one field holding `Option<seq<string>>`; `None` is the absent key.
  - Encoding and decoding are taken as an exact round trip.
  - The code does not guard `JSON.parse`, so a malformed stored value would throw.
    The model cannot hold such a value, so it shows neither the throw nor any
    recovery from it.
- Timers. Each interval tick is one call with a given `now` (`CheckStatus`,
  `Tick`, `UpdateWatchlistMatches`, the `now` argument of `Widget`). Scheduling
  and cleanup are not modelled.
- Video element machinery: event listeners, play/pause (`togglePlay`), seeking,
  volume (`handleVolumeChange`), fullscreen and the progress bar. This is DOM and
  floating-point work. The player class keeps volume, time and duration as
  fields that `HandleSourceChange` and `ToggleMute` leave unchanged.
- VideoPlayer.FormatTime: models whole seconds only. The player passes
  fractional seconds, which `Math.floor` truncates.
- Text.ToLower: lowers ASCII capitals only. JavaScript's `toLowerCase` also
  folds other Unicode letters.
- `handleSourceChange` stores any id, including one that names no source. The
  render then falls back to the first source.
- UpcomingWidget.NextMatch: models the result of the sort, not the sort itself.
  It is the first element of a stable ascending sort by start time on a copy of
  the list, which leaves the list returned by getUpcomingMatches unchanged.
- Randomness in the trivia widget, and the presentation-only files (Navbar,
  MainLayout, FAQ, NotFound, MatchGrid, MatchStream).
- Routing and toasts. The not-found redirect is the flag `redirectedToNotFound`.
  The "Browse Other Matches" and back navigation, and toasts, are not modelled.
- The All Matches page's refresh of its unfiltered lists is not modelled as
  state; the search is modelled as a function of the lists and the query.
