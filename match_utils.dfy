/**
  Match lifecycle and countdowns (src/lib/utils.ts). Every function that read
  the clock takes the current time `now` (milliseconds) as a parameter, and the
  static match snapshot is the parameter `all`.
 */
module MatchUtils {
  import opened Types
  import opened Text
  import opened Seqs

  const SECOND: nat := 1000
  const MINUTE: nat := 60 * SECOND
  const HOUR: nat := 60 * MINUTE
  const DAY: nat := 24 * HOUR

  /** getMatchStatus: upcoming before the start, live from start to end inclusive, finished after. */
  function GetMatchStatus(m: MatchData, now: int): (s: MatchStatus)
    ensures s == Upcoming <==> now < m.startTime
    ensures s == Live <==> m.startTime <= now <= m.endTime
    ensures s == Finished <==> m.startTime <= now && m.endTime < now
  {
    if now < m.startTime then Upcoming
    else if now >= m.startTime && now <= m.endTime then Live
    else Finished
  }

  /** Position of a status along a match's life. */
  function Phase(s: MatchStatus): nat {
    match s
    case Upcoming => 0
    case Live => 1
    case Finished => 2
  }

  /** As time passes a match never goes back to an earlier status. */
  lemma StatusNeverRegresses(m: MatchData, t1: int, t2: int)
    requires t1 <= t2
    ensures Phase(GetMatchStatus(m, t1)) <= Phase(GetMatchStatus(m, t2))
  {
  }

  /** Both ends of the window are live. */
  lemma BoundariesAreLive(m: MatchData)
    requires m.startTime <= m.endTime
    ensures GetMatchStatus(m, m.startTime) == Live
    ensures GetMatchStatus(m, m.endTime) == Live
  {
  }

  /** A remaining duration split into whole days, hours, minutes and seconds. */
  datatype Countdown = Countdown(days: nat, hours: nat, minutes: nat, seconds: nat)

  /** The milliseconds a countdown stands for. */
  function Millis(c: Countdown): nat {
    c.days * DAY + c.hours * HOUR + c.minutes * MINUTE + c.seconds * SECOND
  }

  /** Every unit below days is less than one of the next unit up. */
  predicate Normal(c: Countdown) {
    c.hours < 24 && c.minutes < 60 && c.seconds < 60
  }

  /**
    The floor divisions of getTimeUntilMatch and getMatchTimeRemaining: days of
    r, hours of r mod one day, minutes of r mod one hour, seconds of r mod one
    minute. The parts are normal and account for r up to the dropped milliseconds.
   */
  function Breakdown(r: nat): (c: Countdown)
    ensures Normal(c)
    ensures Millis(c) <= r < Millis(c) + SECOND
  {
    BreakdownMillis(r);
    Countdown(r / DAY, (r % DAY) / HOUR, (r % HOUR) / MINUTE, (r % MINUTE) / SECOND)
  }

  lemma BreakdownMillis(r: nat)
    ensures (r / DAY) * DAY + ((r % DAY) / HOUR) * HOUR + ((r % HOUR) / MINUTE) * MINUTE
            + ((r % MINUTE) / SECOND) * SECOND + r % SECOND == r
  {
    NestedRemainders(r);
  }

  /** A day is a whole number of hours: the hour remainder survives the day remainder. */
  lemma NestedRemainders(r: nat)
    ensures (r % DAY) % HOUR == r % HOUR
    ensures (r % HOUR) % MINUTE == r % MINUTE
    ensures (r % MINUTE) % SECOND == r % SECOND
  {
    HourWithinDay(r);
    MinuteWithinHour(r);
    SecondWithinMinute(r);
  }

  lemma HourWithinDay(r: nat)
    ensures (r % DAY) % HOUR == r % HOUR
  {
    var d := r / DAY;
    var x := r % DAY;
    assert r == d * DAY + x;
    assert r == (d * 24) * HOUR + x;
    assert x == (x / HOUR) * HOUR + x % HOUR;
    assert r == (d * 24 + x / HOUR) * HOUR + x % HOUR;
  }

  lemma MinuteWithinHour(r: nat)
    ensures (r % HOUR) % MINUTE == r % MINUTE
  {
    var h := r / HOUR;
    var x := r % HOUR;
    assert r == h * HOUR + x;
    assert r == (h * 60) * MINUTE + x;
    assert x == (x / MINUTE) * MINUTE + x % MINUTE;
    assert r == (h * 60 + x / MINUTE) * MINUTE + x % MINUTE;
  }

  lemma SecondWithinMinute(r: nat)
    ensures (r % MINUTE) % SECOND == r % SECOND
  {
    var m := r / MINUTE;
    var x := r % MINUTE;
    assert r == m * MINUTE + x;
    assert r == (m * 60) * SECOND + x;
    assert x == (x / SECOND) * SECOND + x % SECOND;
    assert r == (m * 60 + x / SECOND) * SECOND + x % SECOND;
  }

  /** The decomposition is the only normal one: it is fixed by its bounds alone. */
  lemma BreakdownUnique(r: nat, c: Countdown)
    requires Normal(c) && Millis(c) <= r < Millis(c) + SECOND
    ensures c == Breakdown(r)
  {
    var rest := r - c.days * DAY;
    DivModUnique(r, DAY, c.days, rest);
    var rest2 := rest - c.hours * HOUR;
    DivModUnique(rest, HOUR, c.hours, rest2);
    DivModUnique(r, HOUR, c.days * 24 + c.hours, rest2);
    var rest3 := rest2 - c.minutes * MINUTE;
    DivModUnique(rest2, MINUTE, c.minutes, rest3);
    DivModUnique(r, MINUTE, (c.days * 24 + c.hours) * 60 + c.minutes, rest3);
    DivModUnique(rest3, SECOND, c.seconds, rest3 - c.seconds * SECOND);
  }

  /** Quotient and remainder are the only ones with the remainder in range. */
  lemma DivModUnique(n: int, d: int, q: int, rem: int)
    requires d > 0 && 0 <= rem < d && n == q * d + rem
    ensures n / d == q && n % d == rem
  {
    var q', r' := n / d, n % d;
    assert (q - q') * d == r' - rem;
    if q' < q {
      MulAtLeast(q - q', d);
    } else if q' > q {
      MulAtLeast(q' - q, d);
    }
  }

  lemma MulAtLeast(k: int, d: int)
    requires k >= 1 && d > 0
    ensures k * d >= d
  {
  }


  /** getTimeUntilMatch's fixed answer once the start has been reached. */
  const LIVE_NOW: string := "Live now"

  /** The whole days, hours and minutes before the start, to the minute. */
  lemma MinutePrecision(r: nat)
    ensures var c := Breakdown(r);
      c.hours < 24 && c.minutes < 60
      && c.days * DAY + c.hours * HOUR + c.minutes * MINUTE <= r
      && r < c.days * DAY + c.hours * HOUR + c.minutes * MINUTE + MINUTE
  {
  }

  /** The tokens getTimeUntilMatch prints: days only when non-zero, hours when either is. */
  function TimeTokens(c: Countdown): seq<string> {
    var td, th, tm := NatToString(c.days) + "d", NatToString(c.hours) + "h", NatToString(c.minutes) + "m";
    if c.days > 0 then [td, th, tm] else if c.hours > 0 then [th, tm] else [tm]
  }

  /** The string getTimeUntilMatch builds from the parts, one `+=` at a time. */
  function TimeString(c: Countdown): string {
    (if c.days > 0 then NatToString(c.days) + "d " else "")
    + (if c.hours > 0 || c.days > 0 then NatToString(c.hours) + "h " else "")
    + NatToString(c.minutes) + "m"
  }

  /**
    getTimeUntilMatch: "Live now" for every instant from the start on, and
    before it the "{d}d", "{h}h", "{m}m" tokens joined by spaces, days only when
    non-zero and hours when either is, reading back as exactly the whole days,
    hours and minutes left.
   */
  function TimeUntilMatch(m: MatchData, now: int): (r: string)
    ensures r == LIVE_NOW <==> now >= m.startTime
    ensures now >= m.startTime ==> ReadTimeString(r) == None
    ensures now < m.startTime ==>
      var c := Breakdown(m.startTime - now);
      ReadTimeString(r) == Some(Countdown(c.days, c.hours, c.minutes, 0))
    ensures now < m.startTime ==>
      var c := Breakdown(m.startTime - now);
      && r == Join(TimeTokens(c), ' ')
      && |Split(r, ' ')| == if c.days > 0 then 3 else if c.hours > 0 then 2 else 1
  {
    LiveNowIsNoCountdown();
    if now >= m.startTime then LIVE_NOW
    else
      var c := Breakdown(m.startTime - now);
      TimeStringReadsBack(c);
      TimeStringIsJoin(c);
      TimeString(c)
  }

  /** Reads one "{n}{unit}" token. */
  function ReadUnit(t: string, unit: char): Option<nat> {
    if |t| >= 2 && t[|t| - 1] == unit && AllDigits(t[..|t| - 1])
    then Some(ParseNat(t[..|t| - 1]))
    else None
  }

  /**
    Reads the "{d}d {h}h {m}m" display back into whole days, hours and minutes,
    a missing leading token standing for 0.
   */
  function ReadTimeString(s: string): Option<Countdown> {
    var t := Split(s, ' ');
    if |t| == 3 then
      match (ReadUnit(t[0], 'd'), ReadUnit(t[1], 'h'), ReadUnit(t[2], 'm'))
      case (Some(d), Some(h), Some(mi)) => Some(Countdown(d, h, mi, 0))
      case _ => None
    else if |t| == 2 then
      match (ReadUnit(t[0], 'h'), ReadUnit(t[1], 'm'))
      case (Some(h), Some(mi)) => Some(Countdown(0, h, mi, 0))
      case _ => None
    else if |t| == 1 then
      match ReadUnit(t[0], 'm')
      case Some(mi) => Some(Countdown(0, 0, mi, 0))
      case None => None
    else None
  }

  /** A printed token holds no space and reads back as its number. */
  lemma {:induction false} ReadUnitToString(n: nat, unit: char)
    requires !IsDigit(unit) && unit != ' '
    ensures ' ' !in NatToString(n) + [unit]
    ensures ReadUnit(NatToString(n) + [unit], unit) == Some(n)
  {
    var t := NatToString(n) + [unit];
    assert t[..|t| - 1] == NatToString(n);
    ParseNatToString(n);
    forall i | 0 <= i < |t| ensures t[i] != ' ' {
      if i < |t| - 1 {
        assert IsDigit(t[i]);
      }
    }
  }

  /** The concatenations of getTimeUntilMatch join the tokens with single spaces. */
  lemma {:induction false} TimeStringIsJoin(c: Countdown)
    ensures TimeString(c) == Join(TimeTokens(c), ' ')
  {
    var td, th, tm := NatToString(c.days) + "d", NatToString(c.hours) + "h", NatToString(c.minutes) + "m";
    var parts := TimeTokens(c);
    if c.days > 0 {
      assert parts[1..] == [th, tm];
      assert [th, tm][1..] == [tm];
      assert Join([th, tm], ' ') == th + " " + tm;
      assert Join(parts, ' ') == td + " " + (th + " " + tm);
    } else if c.hours > 0 {
      assert parts[1..] == [tm];
      assert Join(parts, ' ') == th + " " + tm;
    }
  }

  /**
    The display reads back as the whole days, hours and minutes it was built
    from, and its token count says which leading units were printed.
   */
  lemma {:induction false} TimeStringReadsBack(c: Countdown)
    ensures ReadTimeString(TimeString(c)) == Some(Countdown(c.days, c.hours, c.minutes, 0))
    ensures |Split(TimeString(c), ' ')| == if c.days > 0 then 3 else if c.hours > 0 then 2 else 1
  {
    var tokens := TimeTokens(c);
    ReadUnitToString(c.days, 'd');
    ReadUnitToString(c.hours, 'h');
    ReadUnitToString(c.minutes, 'm');
    TimeStringIsJoin(c);
    SplitJoin(tokens, ' ');
    ReadTokens(c, Split(TimeString(c), ' '));
  }

  /** Reading the display back only depends on its tokens. */
  lemma ReadTokens(c: Countdown, t: seq<string>)
    requires t == TimeTokens(c)
    requires ReadUnit(NatToString(c.days) + "d", 'd') == Some(c.days)
    requires ReadUnit(NatToString(c.hours) + "h", 'h') == Some(c.hours)
    requires ReadUnit(NatToString(c.minutes) + "m", 'm') == Some(c.minutes)
    ensures |t| == if c.days > 0 then 3 else if c.hours > 0 then 2 else 1
    ensures forall s | Split(s, ' ') == t :: ReadTimeString(s) == Some(Countdown(c.days, c.hours, c.minutes, 0))
  {
  }

  /** "Live now" does not read as a countdown. */
  lemma LiveNowIsNoCountdown()
    ensures ReadTimeString(LIVE_NOW) == None
  {
    assert IndexOf(LIVE_NOW, ' ') == 4;
    assert LIVE_NOW[..4] == "Live";
    assert LIVE_NOW[5..] == "now";
    assert Split(LIVE_NOW, ' ') == ["Live", "now"];
  }

  /** The "{d}:{h}:{m}:{s}" rendering of a countdown. */
  function Clock(c: Countdown): string {
    NatToString(c.days) + ":" + NatToString(c.hours) + ":" + NatToString(c.minutes) + ":" + NatToString(c.seconds)
  }

  /** The four decimal fields of a clock rendering. */
  function ClockFields(c: Countdown): seq<string> {
    [NatToString(c.days), NatToString(c.hours), NatToString(c.minutes), NatToString(c.seconds)]
  }

  /**
    getMatchTimeRemaining: "0:0:0:0" once started, else the full countdown.
    Both branches are the clock rendering of the time left clamped at zero (the
    fixed "0:0:0:0" is that of zero), so splitting on ':' always gives four
    decimal fields that read back as the days, hours, minutes and seconds left.
   */
  function MatchTimeRemaining(m: MatchData, now: int): (r: string)
    ensures var c := Breakdown(Remaining(m, now));
      && r == Clock(c)
      && Split(r, ':') == ClockFields(c)
      && ParseNat(NatToString(c.days)) == c.days && ParseNat(NatToString(c.hours)) == c.hours
      && ParseNat(NatToString(c.minutes)) == c.minutes && ParseNat(NatToString(c.seconds)) == c.seconds
  {
    if now >= m.startTime then
      ClockOfZero();
      ClockSplits(Breakdown(0));
      "0:0:0:0"
    else
      ClockSplits(Breakdown(m.startTime - now));
      Clock(Breakdown(m.startTime - now))
  }

  /** Nothing left renders as "0:0:0:0". */
  lemma ClockOfZero()
    ensures Clock(Breakdown(0)) == "0:0:0:0"
  {
    assert Breakdown(0) == Countdown(0, 0, 0, 0);
    assert NatToString(0) == "0";
  }

  /** Time left before the start, never negative. */
  function Remaining(m: MatchData, now: int): nat {
    if now < m.startTime then m.startTime - now else 0
  }

  /** Splitting a clock rendering on ':' gives its four fields, each reading back as its part. */
  lemma {:induction false} ClockSplits(c: Countdown)
    ensures Split(Clock(c), ':') == ClockFields(c)
    ensures ParseNat(NatToString(c.days)) == c.days && ParseNat(NatToString(c.hours)) == c.hours
    ensures ParseNat(NatToString(c.minutes)) == c.minutes && ParseNat(NatToString(c.seconds)) == c.seconds
  {
    var parts := ClockFields(c);
    forall k | 0 <= k < 4 ensures ':' !in parts[k] {
      assert AllDigits(parts[k]);
    }
    var p3 := [parts[3]];
    var p23 := [parts[2], parts[3]];
    var p123 := [parts[1], parts[2], parts[3]];
    assert p23[1..] == p3;
    assert p123[1..] == p23;
    assert parts[1..] == p123;
    assert Join(p23, ':') == parts[2] + ":" + parts[3];
    assert Join(p123, ':') == parts[1] + ":" + (parts[2] + ":" + parts[3]);
    assert Clock(c) == Join(parts, ':');
    SplitJoin(parts, ':');
    ParseNatToString(c.days);
    ParseNatToString(c.hours);
    ParseNatToString(c.minutes);
    ParseNatToString(c.seconds);
  }

  /** getLiveMatches: the live matches of the snapshot, in snapshot order. */
  function LiveMatches(all: seq<MatchData>, now: int): (r: seq<MatchData>)
    ensures IsSubseq(r, all)
    ensures forall m | m in r :: GetMatchStatus(m, now) == Live
    ensures forall m | m in all :: GetMatchStatus(m, now) == Live ==> m in r
    ensures forall m :: multiset(r)[m] == if GetMatchStatus(m, now) == Live then multiset(all)[m] else 0
  {
    var p := (m: MatchData) => GetMatchStatus(m, now) == Live;
    FilterIsSubseq(all, p);
    assert forall m :: multiset(Filter(all, p))[m] == if p(m) then multiset(all)[m] else 0 by {
      forall m { FilterCount(all, p, m); }
    }
    Filter(all, p)
  }

  /** getUpcomingMatches: the upcoming matches of the snapshot, in snapshot order. */
  function UpcomingMatches(all: seq<MatchData>, now: int): (r: seq<MatchData>)
    ensures IsSubseq(r, all)
    ensures forall m | m in r :: GetMatchStatus(m, now) == Upcoming
    ensures forall m | m in all :: GetMatchStatus(m, now) == Upcoming ==> m in r
    ensures forall m :: multiset(r)[m] == if GetMatchStatus(m, now) == Upcoming then multiset(all)[m] else 0
  {
    var p := (m: MatchData) => GetMatchStatus(m, now) == Upcoming;
    FilterIsSubseq(all, p);
    assert forall m :: multiset(Filter(all, p))[m] == if p(m) then multiset(all)[m] else 0 by {
      forall m { FilterCount(all, p, m); }
    }
    Filter(all, p)
  }

  /** No match is both live and upcoming at the same instant. */
  lemma LiveAndUpcomingDisjoint(all: seq<MatchData>, now: int)
    ensures forall m | m in LiveMatches(all, now) :: m !in UpcomingMatches(all, now)
  {
  }

  /** getMatchById: the first match with that id, or None (undefined) when there is none. */
  function GetMatchById(all: seq<MatchData>, id: string): (r: Option<MatchData>)
    ensures r.None? <==> forall k | 0 <= k < |all| :: all[k].id != id
    ensures r.Some? ==> exists k | 0 <= k < |all| :: all[k] == r.value && r.value.id == id
                          && forall j | 0 <= j < k :: all[j].id != id
  {
    Find(all, (m: MatchData) => m.id == id)
  }
}
