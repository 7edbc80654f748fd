/**
  The search box of the All Matches page (src/pages/AllMatches.tsx): a query
  that trims to nothing shows both lists whole; any other query keeps the
  matches whose team names or tournament contain the lower-cased query
  (lower-cased, but not trimmed).
 */
module AllMatches {
  import opened Types
  import opened Text
  import opened Seqs

  /** The query counts as empty, `searchQuery.trim() === ""`: it is whitespace throughout. */
  predicate IsBlank(searchQuery: string)
    ensures IsBlank(searchQuery) <==> forall i | 0 <= i < |searchQuery| :: IsWhitespace(searchQuery[i])
  {
    TrimEmptyIff(searchQuery);
    Trim(searchQuery) == ""
  }

  /**
    The filter predicate, for an already lower-cased query: the query occurs in
    the lower-cased teamA, teamB or tournament.
   */
  predicate MatchesQuery(m: MatchData, query: string)
    ensures MatchesQuery(m, query) <==>
              Occurs(ToLower(m.teams.teamA), query) || Occurs(ToLower(m.teams.teamB), query)
              || Occurs(ToLower(m.tournament), query)
  {
    var a, b, t := ToLower(m.teams.teamA), ToLower(m.teams.teamB), ToLower(m.tournament);
    ContainsIff(a, query);
    ContainsIff(b, query);
    ContainsIff(t, query);
    Contains(a, query) || Contains(b, query) || Contains(t, query)
  }

  /** One list as the page shows it under `searchQuery`. */
  function SearchFilter(matches: seq<MatchData>, searchQuery: string): (r: seq<MatchData>)
    ensures IsBlank(searchQuery) ==> r == matches
    ensures IsSubseq(r, matches)
    ensures !IsBlank(searchQuery) ==>
              forall m | m in r :: m in matches && MatchesQuery(m, ToLower(searchQuery))
    ensures forall m | m in matches && MatchesQuery(m, ToLower(searchQuery)) :: m in r
    ensures forall m :: multiset(r)[m] ==
              if IsBlank(searchQuery) || MatchesQuery(m, ToLower(searchQuery)) then multiset(matches)[m] else 0
  {
    if IsBlank(searchQuery) then
      IsSubseqRefl(matches);
      matches
    else
      var query := ToLower(searchQuery);
      var p := (m: MatchData) => MatchesQuery(m, query);
      FilterIsSubseq(matches, p);
      forall m ensures multiset(Filter(matches, p))[m] == if p(m) then multiset(matches)[m] else 0 {
        FilterCount(matches, p, m);
      }
      Filter(matches, p)
  }

  /** The two filtered lists the page holds. */
  datatype Filtered = Filtered(live: seq<MatchData>, upcoming: seq<MatchData>)

  /** Both lists filtered by the same query. */
  function FilterBoth(live: seq<MatchData>, upcoming: seq<MatchData>, searchQuery: string): (f: Filtered)
    ensures |f.live| <= |live| && |f.upcoming| <= |upcoming|
    ensures IsBlank(searchQuery) ==> f == Filtered(live, upcoming)
    ensures f.live == SearchFilter(live, searchQuery) && f.upcoming == SearchFilter(upcoming, searchQuery)
    ensures f.live + f.upcoming == SearchFilter(live + upcoming, searchQuery)
  {
    SearchFilterAppend(live, upcoming, searchQuery);
    Filtered(SearchFilter(live, searchQuery), SearchFilter(upcoming, searchQuery))
  }

  /** The "No matches found" panel of the All tab. */
  predicate ShowsNoMatches(f: Filtered) {
    |f.live| == 0 && |f.upcoming| == 0
  }

  /** The panel appears exactly when no live or upcoming match passes the query. */
  lemma NoMatchesIff(live: seq<MatchData>, upcoming: seq<MatchData>, searchQuery: string)
    ensures ShowsNoMatches(FilterBoth(live, upcoming, searchQuery)) <==>
              forall m | m in live + upcoming ::
                !IsBlank(searchQuery) && !MatchesQuery(m, ToLower(searchQuery))
  {
    var f := FilterBoth(live, upcoming, searchQuery);
    if !ShowsNoMatches(f) {
      var m := if |f.live| > 0 then f.live[0] else f.upcoming[0];
      assert m in live + upcoming && (m in f.live || m in f.upcoming);
    } else {
      forall m | m in live + upcoming ensures !IsBlank(searchQuery) && !MatchesQuery(m, ToLower(searchQuery)) {
        assert m in live || m in upcoming;
        assert m !in f.live && m !in f.upcoming;
      }
    }
  }

  /** Filtering both lists is filtering their concatenation: one predicate serves both tabs. */
  lemma {:induction false} SearchFilterAppend(live: seq<MatchData>, upcoming: seq<MatchData>, searchQuery: string)
    ensures SearchFilter(live + upcoming, searchQuery) ==
              SearchFilter(live, searchQuery) + SearchFilter(upcoming, searchQuery)
  {
    if !IsBlank(searchQuery) {
      var query := ToLower(searchQuery);
      FilterAppend(live, upcoming, (m: MatchData) => MatchesQuery(m, query));
    }
  }

  /** The search ignores the letter case of the query. */
  lemma {:induction false} SearchIgnoresCase(matches: seq<MatchData>, searchQuery: string)
    ensures SearchFilter(matches, ToLower(searchQuery)) == SearchFilter(matches, searchQuery)
  {
    var lower := ToLower(searchQuery);
    forall i | 0 <= i < |searchQuery| ensures IsWhitespace(lower[i]) <==> IsWhitespace(searchQuery[i]) {
      LowerCharWhitespace(searchQuery[i]);
    }
    TrimEmptyIff(searchQuery);
    TrimEmptyIff(lower);
    ToLowerIdempotent(searchQuery);
  }

  /** An occurrence of `a + b` is an occurrence of `a`. */
  lemma {:induction false} ContainsPrefix(s: string, a: string, b: string)
    requires Contains(s, a + b)
    ensures Contains(s, a)
  {
    ContainsIff(s, a + b);
    var i :| OccursAt(s, a + b, i);
    assert s[i..i + |a|] == (a + b)[..|a|];
    assert OccursAt(s, a, i);
    ContainsIff(s, a);
  }

  /** Typing more characters at the end of the query never brings a match back. */
  lemma {:induction false} SearchNarrows(matches: seq<MatchData>, searchQuery: string, more: string)
    ensures forall m | m in SearchFilter(matches, searchQuery + more) :: m in SearchFilter(matches, searchQuery)
  {
    var longer := searchQuery + more;
    if !IsBlank(searchQuery) {
      TrimEmptyIff(searchQuery);
      TrimEmptyIff(longer);
      var i :| 0 <= i < |searchQuery| && !IsWhitespace(searchQuery[i]);
      assert longer[i] == searchQuery[i];
      ToLowerAppend(searchQuery, more);
      forall m | m in SearchFilter(matches, longer) ensures m in SearchFilter(matches, searchQuery) {
        var a, b := ToLower(searchQuery), ToLower(more);
        if Contains(ToLower(m.teams.teamA), a + b) {
          ContainsPrefix(ToLower(m.teams.teamA), a, b);
        } else if Contains(ToLower(m.teams.teamB), a + b) {
          ContainsPrefix(ToLower(m.teams.teamB), a, b);
        } else {
          ContainsPrefix(ToLower(m.tournament), a, b);
        }
      }
    }
  }
}
