/** Worked cases of the rule, on concrete matches and odds responses. */
module Scenarios {
  import opened Wrappers
  import opened Numerals
  import opened Odds
  import opened Alert
  import opened Text

  /** "1.40" is exactly the threshold and passes. */
  lemma OddsOfOneForty()
    ensures ClearsThreshold("1.40")
  {
    assert DigitsValue("140") == 140 by {
      assert "140"[..2] == "14" && "14"[..1] == "1" && "1"[..0] == [];
    }
    ClearsHundredths("1", "40");
    assert "1" + "." + "40" == "1.40" && "1" + "40" == "140";
  }

  /** "1.4" is the same number written with one decimal. */
  lemma OddsOfOnePointFour()
    ensures ClearsThreshold("1.4")
  {
    assert DigitsValue("14") == 14 by {
      assert "14"[..1] == "1" && "1"[..0] == [];
    }
    ClearsTenths("1", "4");
    assert "1" + "." + "4" == "1.4" && "1" + "4" == "14";
  }

  /** One hundredth below the threshold fails. */
  lemma OddsOfOneThirtyNine()
    ensures !ClearsThreshold("1.39")
  {
    assert DigitsValue("139") == 139 by {
      assert "139"[..2] == "13" && "13"[..1] == "1" && "1"[..0] == [];
    }
    ClearsHundredths("1", "39");
    assert "1" + "." + "39" == "1.39" && "1" + "39" == "139";
  }

  /** Whole-number quotes: "2" passes, "1" does not. */
  lemma WholeOdds()
    ensures ClearsThreshold("2") && !ClearsThreshold("1")
  {
    assert DigitsValue("2") == 2 by {
      assert "2"[..0] == [];
    }
    assert DigitsValue("1") == 1 by {
      assert "1"[..0] == [];
    }
    ClearsWhole("2");
    ClearsWhole("1");
  }

  /** Fixture 555, "Alpha FC" at home to "Beta United" in the Premier League, at minute `minute` with the given score. */
  function HomeLead(minute: int, homeGoals: int, awayGoals: int): Match {
    Match(555, Some(minute), homeGoals, awayGoals, "Alpha FC", "Beta United", Some(League(Some("Premier League"), Some("England"))))
  }

  /** The home side at `odd`, then the draw. */
  function HomeQuotes(odd: string): seq<Quote> {
    [Quote(Some("Alpha FC"), Some(odd)), Quote(Some("Draw"), Some("3.80"))]
  }

  /** An odds response whose first bookmaker lists another market first, then "Match Winner". */
  function Quoted(odd: string): seq<OddsEntry> {
    [OddsEntry(Some([Bookmaker(Some([
      Bet(Some("Goals Over/Under"), Some([])),
      Bet(Some(MatchWinner), Some(HomeQuotes(odd)))]))]))]
  }

  /** The lookup passes over the other market and reads the "Match Winner" quotes. */
  lemma QuotedMarket(odd: string)
    ensures MarketQuotes(Quoted(odd)) == Success(HomeQuotes(odd))
  {
    var bets := [Bet(Some("Goals Over/Under"), Some([])), Bet(Some(MatchWinner), Some(HomeQuotes(odd)))];
    assert |bets[0].name.value| != |MatchWinner|;
    assert OtherBetsBefore(bets, 1);
    WinOddsFirstStop(bets);
  }

  /** The home side's quote decides for the home side; the away side is quoted nowhere. */
  lemma HomeQuotesDecide(odd: string)
    ensures DecidingQuote(HomeQuotes(odd), "Alpha FC") == Success(Some(Quote(Some("Alpha FC"), Some(odd))))
    ensures DecidingQuote(HomeQuotes(odd), "Beta United") == Success(None)
  {
    var qs := HomeQuotes(odd);
    assert |"Alpha FC"| != |"Beta United"| && |"Draw"| != |"Beta United"|;
    assert OtherTeamsBefore(qs, "Beta United", |qs|);
    DecidingQuoteFirstStop(qs, "Beta United");
  }

  /** How the rule settles `HomeLead` at a first-half minute under `Quoted(odd)`, for a quote that parses. */
  lemma HomeLeadVerdict(minute: int, odd: string)
    requires minute <= LastMinute && ParseDecimal(odd).Some?
    ensures Evaluate([], HomeLead(minute, 2, 0), Quoted(odd))
      == if ClearsThreshold(odd) then Alert(Notice(HomeLead(minute, 2, 0), minute, "Alpha FC", odd)) else BelowThreshold(odd)
  {
    QuotedMarket(odd);
    HomeQuotesDecide(odd);
  }

  /** "1.55" passes. */
  lemma OddsOfOneFiftyFive()
    ensures ClearsThreshold("1.55")
  {
    assert DigitsValue("155") == 155 by {
      assert "155"[..2] == "15" && "15"[..1] == "1" && "1"[..0] == [];
    }
    ClearsHundredths("1", "55");
    assert "1" + "." + "55" == "1.55" && "1" + "55" == "155";
  }

  /** "1.20" is read as a number and fails. */
  lemma OddsOfOneTwenty()
    ensures ParseDecimal("1.20").Some? && !ClearsThreshold("1.20")
  {
    assert DigitsValue("120") == 120 by {
      assert "120"[..2] == "12" && "12"[..1] == "1" && "1"[..0] == [];
    }
    ClearsHundredths("1", "20");
    ParseFraction("1", "20");
    assert "1" + "." + "20" == "1.20" && "1" + "20" == "120";
  }

  /** The home side leads 2-0 at minute 30 and is quoted 1.55: one alert, fixture 555 logged and its odds fetched. */
  lemma AlertAtOneFiftyFive()
    ensures Run([], [HomeLead(30, 2, 0)], [Quoted("1.55")])
      == Batch([555], [Notice(HomeLead(30, 2, 0), 30, "Alpha FC", "1.55")], [555])
  {
    OddsOfOneFiftyFive();
    HomeLeadVerdict(30, "1.55");
    RunLast([], [HomeLead(30, 2, 0)], [Quoted("1.55")]);
  }

  /** The same match quoted 1.20: the odds are fetched, but nothing is sent or logged. */
  lemma NoAlertAtOneTwenty()
    ensures Run([], [HomeLead(30, 2, 0)], [Quoted("1.20")]) == Batch([], [], [555])
  {
    OddsOfOneTwenty();
    HomeLeadVerdict(30, "1.20");
    RunLast([], [HomeLead(30, 2, 0)], [Quoted("1.20")]);
  }

  /** A fixture listed twice in one pass is alerted once; the second time it is skipped without a fetch. */
  lemma DuplicateAlertedOnce()
    ensures Run([], [HomeLead(30, 2, 0), HomeLead(30, 2, 0)], [Quoted("1.55"), Quoted("1.55")])
      == Batch([555], [Notice(HomeLead(30, 2, 0), 30, "Alpha FC", "1.55")], [555])
  {
    AlertAtOneFiftyFive();
    var ms, os := [HomeLead(30, 2, 0), HomeLead(30, 2, 0)], [Quoted("1.55"), Quoted("1.55")];
    assert ms[..1] == [HomeLead(30, 2, 0)] && os[..1] == [Quoted("1.55")];
    RunLast([], ms, os);
  }

  /** A fixture already in the loaded log changes nothing and is not fetched. */
  lemma LoggedFixtureSkipped()
    ensures Run([555], [HomeLead(30, 2, 0)], [Quoted("1.55")]) == Batch([555], [], [])
  {
    RunLast([555], [HomeLead(30, 2, 0)], [Quoted("1.55")]);
  }

  /** Minute 45 still counts; minute 46 and an unknown minute do not. */
  lemma MinuteBoundary()
    ensures Evaluate([], HomeLead(45, 2, 0), Quoted("1.55")).Alert?
    ensures Evaluate([], HomeLead(46, 2, 0), Quoted("1.55")) == NotFirstHalf
    ensures Evaluate([], HomeLead(45, 2, 0).(elapsed := None), Quoted("1.55")) == NotFirstHalf
  {
    OddsOfOneFiftyFive();
    HomeLeadVerdict(45, "1.55");
  }

  /** Only an exact two-goal lead to nil fires: 3-0, 2-1 and 1-0 do not, 0-2 does for the away side. */
  lemma ScoreTrigger()
    ensures Evaluate([], HomeLead(30, 3, 0), Quoted("1.55")) == NoTrigger
    ensures Evaluate([], HomeLead(30, 2, 1), Quoted("1.55")) == NoTrigger
    ensures Evaluate([], HomeLead(30, 1, 0), Quoted("1.55")) == NoTrigger
    ensures Evaluate([], HomeLead(30, 0, 2), Quoted("1.55")) == NoQuote
  {
    QuotedMarket("1.55");
    HomeQuotesDecide("1.55");
  }

  /** An empty response skips the match; an empty bookmaker list or an unreadable quote ends in the error branch. */
  lemma Malformed()
    ensures Evaluate([], HomeLead(30, 2, 0), []) == NoOdds
    ensures Evaluate([], HomeLead(30, 2, 0), [OddsEntry(Some([]))]) == ParseError(NoBookmaker)
    ensures Evaluate([], HomeLead(30, 2, 0), [OddsEntry(None)]) == ParseError(MissingKey("bookmakers"))
    ensures Evaluate([], HomeLead(30, 2, 0), Quoted("n/a")) == ParseError(BadNumber("n/a"))
  {
    QuotedMarket("n/a");
    HomeQuotesDecide("n/a");
  }

  /** The notice the alert for fixture 555 is written from. */
  function FixtureNotice(): Notice {
    Notice(HomeLead(30, 2, 0), 30, "Alpha FC", "1.55")
  }

  /** Any text naming the teams and competition of fixture 555 names Alpha FC, Beta United, the Premier League and England. */
  lemma FixtureNames(t: string, n: Notice)
    requires n == FixtureNotice()
    requires Contains(t, n.m.home) && Contains(t, n.m.away) && Contains(t, LeagueName(n.m)) && Contains(t, LeagueCountry(n.m))
    ensures Contains(t, "Alpha FC") && Contains(t, "Beta United") && Contains(t, "Premier League") && Contains(t, "England")
  {
    assert LeagueName(n.m) == "Premier League" && LeagueCountry(n.m) == "England";
  }

  /** The minute of fixture 555 reads "Minute: 30'". */
  lemma FixtureMinute(t: string, n: Notice)
    requires n == FixtureNotice()
    requires Contains(t, "Minute: " + IntToString(n.minute) + "'")
    ensures Contains(t, "Minute: 30'")
  {
    assert IntToString(30) == "30" by {
      assert NatToString(30) == NatToString(3) + [DigitChar(0)];
    }
    assert "Minute: " + IntToString(n.minute) + "'" == "Minute: 30'";
  }

  /** The score of fixture 555 reads "2 - 0". */
  lemma FixtureScore(t: string, n: Notice)
    requires n == FixtureNotice()
    requires Contains(t, IntToString(n.m.homeGoals) + " - " + IntToString(n.m.awayGoals))
    ensures Contains(t, "2 - 0")
  {
    assert IntToString(n.m.homeGoals) + " - " + IntToString(n.m.awayGoals) == "2 - 0";
  }

  /** The odds line of fixture 555 ends "Alpha FC Win Odds: 1.55". */
  lemma FixtureOdds(t: string, n: Notice)
    requires n == FixtureNotice()
    requires EndsWith(t, n.leader + " Win Odds: " + n.odd)
    ensures EndsWith(t, "Alpha FC Win Odds: 1.55")
  {
    assert n.leader + " Win Odds: " + n.odd == "Alpha FC Win Odds: 1.55";
  }

  /** The alert for fixture 555 names both teams, the competition, minute 30 and the score 2 - 0, and ends with the quote 1.55. */
  lemma AlertText(n: Notice)
    requires n == FixtureNotice()
    ensures var t := Message(n);
      StartsWith(t, Headline) && Contains(t, "Alpha FC") && Contains(t, "Beta United")
      && Contains(t, "Premier League") && Contains(t, "England")
      && Contains(t, "Minute: 30'") && Contains(t, "2 - 0") && EndsWith(t, "Alpha FC Win Odds: 1.55")
  {
    MessageMentions(n);
    var t := Message(n);
    FixtureNames(t, n);
    FixtureMinute(t, n);
    FixtureScore(t, n);
    FixtureOdds(t, n);
  }
}
