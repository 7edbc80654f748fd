/**
  The "Next Big Match" widget (src/components/home/UpcomingEventWidget.tsx):
  the upcoming match that starts first, with a Days / Hours / Mins / Secs
  countdown read off the "d:h:m:s" string of getMatchTimeRemaining.
 */
module UpcomingWidget {
  import opened Types
  import opened Text
  import opened MatchUtils

  /**
    The first element of the upcoming list sorted by start time. The sort is
    stable and works on a copy, so this is the earliest-starting match, the
    first one in list order among equal starts.
   */
  function NextMatch(upcoming: seq<MatchData>): (r: Option<MatchData>)
    ensures r.None? <==> |upcoming| == 0
    ensures r.Some? ==> forall m | m in upcoming :: r.value.startTime <= m.startTime
    ensures r.Some? ==> exists k | 0 <= k < |upcoming| ::
              upcoming[k] == r.value && forall j | 0 <= j < k :: upcoming[j].startTime > r.value.startTime
  {
    if |upcoming| == 0 then None
    else match NextMatch(upcoming[1..])
      case None => Some(upcoming[0])
      case Some(n) =>
        if n.startTime < upcoming[0].startTime then
          assert forall m | m in upcoming :: m == upcoming[0] || m in upcoming[1..];
          var k :| 0 <= k < |upcoming[1..]| && upcoming[1..][k] == n
                   && forall j | 0 <= j < k :: upcoming[1..][j].startTime > n.startTime;
          assert upcoming[k + 1] == n;
          Some(n)
        else
          assert forall m | m in upcoming :: m == upcoming[0] || m in upcoming[1..];
          Some(upcoming[0])
  }

  /** The earliest start, leftmost among ties, picks out exactly one element: the one NextMatch returns. */
  lemma NextMatchUnique(upcoming: seq<MatchData>, k: nat)
    requires k < |upcoming|
    requires forall m | m in upcoming :: upcoming[k].startTime <= m.startTime
    requires forall j | 0 <= j < k :: upcoming[j].startTime > upcoming[k].startTime
    ensures NextMatch(upcoming) == Some(upcoming[k])
  {
    var r := NextMatch(upcoming);
    var i :| 0 <= i < |upcoming| && upcoming[i] == r.value
             && forall j | 0 <= j < i :: upcoming[j].startTime > r.value.startTime;
    assert upcoming[k].startTime <= r.value.startTime <= upcoming[k].startTime;
    assert i == k;
  }

  /** The widget's match, chosen once when it mounts at time `now`. */
  function NextBigMatch(all: seq<MatchData>, now: int): (r: Option<MatchData>)
    ensures r.None? <==> forall m | m in all :: GetMatchStatus(m, now) != Upcoming
    ensures r.Some? ==> r.value in all && GetMatchStatus(r.value, now) == Upcoming
    ensures r.Some? ==> forall m | m in all && now < m.startTime :: r.value.startTime <= m.startTime
  {
    var upcoming := UpcomingMatches(all, now);
    assert |upcoming| > 0 ==> upcoming[0] in upcoming;
    NextMatch(upcoming)
  }

  /** `timeRemaining.split(':')[k] || '0'`: a missing or empty field shows as "0". */
  function Field(timeRemaining: string, k: nat): (f: string)
    ensures f != ""
    ensures k < |Split(timeRemaining, ':')| && Split(timeRemaining, ':')[k] != "" ==> f == Split(timeRemaining, ':')[k]
    ensures k >= |Split(timeRemaining, ':')| || Split(timeRemaining, ':')[k] == "" ==> f == "0"
  {
    var parts := Split(timeRemaining, ':');
    if k < |parts| && parts[k] != "" then parts[k] else "0"
  }

  /**
    The Days, Hours, Mins and Secs cells: cell k is the k-th ':'-field of the
    string when that exists and is non-empty, and "0" otherwise.
   */
  function CountdownFields(timeRemaining: string): (r: seq<string>)
    ensures |r| == 4
    ensures forall k | 0 <= k < 4 :: r[k] != ""
    ensures forall k | 0 <= k < 4 ::
              var parts := Split(timeRemaining, ':');
              r[k] == if k < |parts| && parts[k] != "" then parts[k] else "0"
  {
    [Field(timeRemaining, 0), Field(timeRemaining, 1), Field(timeRemaining, 2), Field(timeRemaining, 3)]
  }

  /**
    Once the countdown string has been computed, the four cells are its four
    fields, none defaulted, and they read back as the days, hours, minutes and
    seconds left before the start.
   */
  lemma CountdownFieldsOfRemaining(m: MatchData, now: int)
    ensures var c := Breakdown(Remaining(m, now));
      && CountdownFields(MatchTimeRemaining(m, now)) == ClockFields(c)
      && Millis(c) <= Remaining(m, now) < Millis(c) + SECOND
  {
  }

  /** Before the first tick the string is "" and every cell shows "0". */
  lemma CountdownFieldsBeforeFirstTick()
    ensures CountdownFields("") == ["0", "0", "0", "0"]
  {
    assert Split("", ':') == [""];
  }

  /** What the widget renders: nothing without a next match, else the match and its four cells. */
  datatype WidgetView = Hidden | Shown(next: MatchData, cells: seq<string>)

  /**
    The widget mounted at `mountedAt`, after its countdown ticked at `now`: the
    cells are the fields of the chosen match's countdown, which are the days,
    hours, minutes and seconds left before its start.
   */
  function Widget(all: seq<MatchData>, mountedAt: int, now: int): (v: WidgetView)
    ensures v.Hidden? <==> NextBigMatch(all, mountedAt).None?
    ensures v.Shown? ==> v.next == NextBigMatch(all, mountedAt).value && |v.cells| == 4
    ensures v.Shown? ==> v.cells == CountdownFields(MatchTimeRemaining(v.next, now))
    ensures v.Shown? ==> v.cells == ClockFields(Breakdown(Remaining(v.next, now)))
  {
    match NextBigMatch(all, mountedAt)
    case None => Hidden
    case Some(m) =>
      CountdownFieldsOfRemaining(m, now);
      Shown(m, CountdownFields(MatchTimeRemaining(m, now)))
  }

  /** Once the chosen match has started the cells read all zeros; the widget keeps showing it. */
  lemma WidgetAfterStart(all: seq<MatchData>, mountedAt: int, now: int)
    requires NextBigMatch(all, mountedAt).Some?
    requires now >= NextBigMatch(all, mountedAt).value.startTime
    ensures Widget(all, mountedAt, now).cells == ["0", "0", "0", "0"]
  {
    var m := NextBigMatch(all, mountedAt).value;
    assert MatchTimeRemaining(m, now) == "0:0:0:0";
    ZeroClockCells();
  }

  lemma ZeroClockCells()
    ensures CountdownFields("0:0:0:0") == ["0", "0", "0", "0"]
  {
    var zero := Countdown(0, 0, 0, 0);
    assert NatToString(0) == "0";
    assert Clock(zero) == "0:0:0:0";
    ClockSplits(zero);
  }
}
