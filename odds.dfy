/**
 * The odds payload the sports API returns for one fixture, and the two lookups the alert rule
 * makes in it (Rementada_alert.py:71-74): the "Match Winner" bet of the first bookmaker of the
 * first entry, and the first quote in that bet whose team is the leading team.
 * A JSON key that is absent is `None`; reading it raises inside the source's `try` block,
 * which the model reports as a `Fault`.
 */
module Odds {
  import opened Wrappers

  /** One element of a bet's "values" list: {"value": team name, "odd": decimal text}. */
  datatype Quote = Quote(value: Option<string>, odd: Option<string>)

  /** One element of a bookmaker's "bets" list: {"name": market name, "values": quotes}. */
  datatype Bet = Bet(name: Option<string>, values: Option<seq<Quote>>)

  datatype Bookmaker = Bookmaker(bets: Option<seq<Bet>>)

  /** One element of the odds response: {"bookmakers": [...]}. */
  datatype OddsEntry = OddsEntry(bookmakers: Option<seq<Bookmaker>>)

  /** What can raise inside the `try` block: a KeyError, an IndexError on an empty
      bookmaker list, a ValueError from `float` on the quote's text. */
  datatype Fault = MissingKey(key: string) | NoBookmaker | BadNumber(text: string)

  const MatchWinner := "Match Winner"

  /** A bet the lookup of "Match Winner" reads the name of and passes over. */
  predicate OtherBet(b: Bet) {
    b.name.Some? && b.name.value != MatchWinner
  }

  predicate OtherBetsBefore(bets: seq<Bet>, k: nat)
    requires k <= |bets|
  {
    forall j :: 0 <= j < k ==> OtherBet(bets[j])
  }

  /** What the lookup yields at the first bet it does not pass over. */
  function ReadStop(b: Bet): Result<seq<Quote>, Fault>
    requires !OtherBet(b)
  {
    if b.name.None? then Failure(MissingKey("name"))
    else if b.values.None? then Failure(MissingKey("values"))
    else Success(b.values.value)
  }

  /**
   * The lookup of line 72: the quotes of the first bet named "Match Winner", or no quotes when
   * no bet is so named. The bets before it only have their name read.
   */
  function WinOdds(bets: seq<Bet>): Result<seq<Quote>, Fault> {
    if bets == [] then Success([])
    else if !OtherBet(bets[0]) then ReadStop(bets[0])
    else WinOdds(bets[1..])
  }

  /** The lookup is decided by the first bet that is not some other named market; with none, the list is empty. */
  lemma {:induction false} WinOddsFirstStop(bets: seq<Bet>)
    ensures OtherBetsBefore(bets, |bets|) ==> WinOdds(bets) == Success([])
    ensures forall k :: 0 <= k < |bets| && OtherBetsBefore(bets, k) && !OtherBet(bets[k]) ==> WinOdds(bets) == ReadStop(bets[k])
  {
    if bets != [] && OtherBet(bets[0]) {
      WinOddsFirstStop(bets[1..]);
      assert forall k :: 1 <= k <= |bets| && OtherBetsBefore(bets, k) ==> OtherBetsBefore(bets[1..], k - 1);
    }
  }

  /** Bets after the one that stops the lookup are never read. */
  lemma {:induction false} WinOddsIgnoresLater(bets: seq<Bet>, rest: seq<Bet>)
    requires !OtherBetsBefore(bets, |bets|)
    ensures WinOdds(bets + rest) == WinOdds(bets)
  {
    if OtherBet(bets[0]) {
      assert (bets + rest)[1..] == bets[1..] + rest;
      assert !OtherBetsBefore(bets[1..], |bets[1..]|) by {
        var j :| 0 <= j < |bets| && !OtherBet(bets[j]);
        assert bets[1..][j - 1] == bets[j];
      }
      WinOddsIgnoresLater(bets[1..], rest);
    }
  }

  /**
   * The bets of the first bookmaker listed in the first entry of the response, then the
   * "Match Winner" quotes among those bets (Rementada_alert.py:71-72). The source reaches this
   * only with a non-empty response.
   */
  function MarketQuotes(odds: seq<OddsEntry>): Result<seq<Quote>, Fault>
    requires odds != []
  {
    match odds[0].bookmakers
    case None => Failure(MissingKey("bookmakers"))
    case Some(bookmakers) =>
      if bookmakers == [] then Failure(NoBookmaker)
      else
        match bookmakers[0].bets
        case None => Failure(MissingKey("bets"))
        case Some(bets) => WinOdds(bets)
  }

  /** Only the first entry of the response and its first bookmaker are consulted. */
  lemma MarketQuotesReadsFirstOnly(first: Bookmaker, others: seq<Bookmaker>, later: seq<OddsEntry>)
    ensures MarketQuotes([OddsEntry(Some([first] + others))] + later) == MarketQuotes([OddsEntry(Some([first]))])
    ensures first.bets.Some? ==> MarketQuotes([OddsEntry(Some([first] + others))] + later) == WinOdds(first.bets.value)
  {
  }

  /** A quote the loop over the market's quotes reads the team of and passes over. */
  predicate OtherTeam(q: Quote, team: string) {
    q.value.Some? && q.value.value != team
  }

  predicate OtherTeamsBefore(quotes: seq<Quote>, team: string, k: nat)
    requires k <= |quotes|
  {
    forall j :: 0 <= j < k ==> OtherTeam(quotes[j], team)
  }

  /**
   * The loop over the market's quotes (Rementada_alert.py:73-74, 91): the first quote whose team
   * is `team` decides, and nothing after it is read; `None` when the loop runs out; a fault when a
   * quote lacks its "value".
   */
  function DecidingQuote(quotes: seq<Quote>, team: string): Result<Option<Quote>, Fault> {
    if quotes == [] then Success(None)
    else if quotes[0].value.None? then Failure(MissingKey("value"))
    else if quotes[0].value.value == team then Success(Some(quotes[0]))
    else DecidingQuote(quotes[1..], team)
  }

  /** The first quote that is not about another team decides: a fault if it has no team, the quote itself
      if it names `team`; the loop runs out exactly when every quote is about another team. */
  lemma {:induction false} DecidingQuoteFirstStop(quotes: seq<Quote>, team: string)
    ensures OtherTeamsBefore(quotes, team, |quotes|) <==> DecidingQuote(quotes, team) == Success(None)
    ensures forall k :: 0 <= k < |quotes| && OtherTeamsBefore(quotes, team, k) && !OtherTeam(quotes[k], team) ==>
      DecidingQuote(quotes, team) == if quotes[k].value.None? then Failure(MissingKey("value")) else Success(Some(quotes[k]))
  {
    if quotes != [] && OtherTeam(quotes[0], team) {
      DecidingQuoteFirstStop(quotes[1..], team);
      assert forall k :: 1 <= k <= |quotes| && OtherTeamsBefore(quotes, team, k) ==> OtherTeamsBefore(quotes[1..], team, k - 1);
      assert OtherTeamsBefore(quotes[1..], team, |quotes| - 1) ==> OtherTeamsBefore(quotes, team, |quotes|);
    }
  }

  /** Where the loop over the quotes stops, when some quote is not another team's. */
  function FirstStop(quotes: seq<Quote>, team: string): (k: nat)
    requires !OtherTeamsBefore(quotes, team, |quotes|)
    ensures k < |quotes| && OtherTeamsBefore(quotes, team, k) && !OtherTeam(quotes[k], team)
    decreases |quotes|
  {
    if !OtherTeam(quotes[0], team) then 0
    else
      assert !OtherTeamsBefore(quotes[1..], team, |quotes| - 1) by {
        var j :| 0 <= j < |quotes| && !OtherTeam(quotes[j], team);
        assert quotes[1..][j - 1] == quotes[j];
      }
      var k := FirstStop(quotes[1..], team);
      assert forall j :: 1 <= j <= k ==> quotes[j] == quotes[1..][j - 1];
      1 + k
  }

  /** A quote the lookup settles on is one of the quotes, and names `team`. */
  lemma {:induction false} DecidingQuoteNamesTeam(quotes: seq<Quote>, team: string)
    ensures var r := DecidingQuote(quotes, team);
      r.Success? && r.value.Some? ==> r.value.value in quotes && r.value.value.value == Some(team)
  {
    if quotes != [] && OtherTeam(quotes[0], team) {
      DecidingQuoteNamesTeam(quotes[1..], team);
    }
  }

  /** Quotes after the deciding one never matter, even when the deciding one is too low. */
  lemma {:induction false} DecidingQuoteIgnoresLater(quotes: seq<Quote>, rest: seq<Quote>, team: string)
    requires !OtherTeamsBefore(quotes, team, |quotes|)
    ensures DecidingQuote(quotes + rest, team) == DecidingQuote(quotes, team)
  {
    if OtherTeam(quotes[0], team) {
      assert (quotes + rest)[1..] == quotes[1..] + rest;
      assert !OtherTeamsBefore(quotes[1..], team, |quotes[1..]|) by {
        var j :| 0 <= j < |quotes| && !OtherTeam(quotes[j], team);
        assert quotes[1..][j - 1] == quotes[j];
      }
      DecidingQuoteIgnoresLater(quotes[1..], rest, team);
    }
  }
}
