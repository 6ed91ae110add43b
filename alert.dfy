/**
 * The per-match alert rule of the Rementada bot and the pass over all live matches
 * (`main`, Rementada_alert.py:44-93): skip fixtures already alerted, skip matches past minute 45
 * or of unknown minute, fire on an exact 2-0 or 0-2, look up the leading team's "Match Winner"
 * quote, and when it is at least 1.40 send a message and append the fixture id to the sent log.
 *
 * Sending is appending the message to `alerts`; fetching the odds of a fixture is appending its id
 * to `queried` and reading the response given for that match in `fetched`.
 */
module Alert {
  import opened Wrappers
  import opened Numerals
  import opened Odds
  import opened Text

  datatype League = League(name: Option<string>, country: Option<string>)

  /** One record of the live-fixtures response; `league` is `None` when the key is absent. */
  datatype Match = Match(
    id: int,
    elapsed: Option<int>,
    homeGoals: int,
    awayGoals: int,
    home: string,
    away: string,
    league: Option<League>)

  /** The last minute at which a match is still considered (inclusive). */
  const LastMinute := 45

  /** One and forty hundredths: the least odds that raise an alert. */
  const MinOdds := Decimal(140, 2)

  /** The minute is known and at most 45: the negation of the skip condition of line 55. */
  predicate InFirstHalf(elapsed: Option<int>) {
    elapsed.Some? && elapsed.value <= LastMinute
  }

  /** The trigger of line 62: exactly two goals to nil, either way round. */
  predicate IsTwoNil(homeGoals: int, awayGoals: int) {
    (homeGoals == 2 && awayGoals == 0) || (homeGoals == 0 && awayGoals == 2)
  }

  /** Line 63: the home team when it has more goals, otherwise the away team. */
  function LeadingTeam(m: Match): string {
    if m.homeGoals > m.awayGoals then m.home else m.away
  }

  /**
   * `x or default` for an optional string: absent and empty both fall back. The result is the
   * given text or the default, and it is never empty unless the default is.
   */
  function OrDefault(x: Option<string>, default: string): (r: string)
    ensures x == Some(r) || r == default
    ensures default != [] ==> r != []
  {
    if x.Some? && x.value != [] then x.value else default
  }

  function LeagueName(m: Match): string {
    OrDefault(if m.league.Some? then m.league.value.name else None, "Unknown League")
  }

  function LeagueCountry(m: Match): string {
    OrDefault(if m.league.Some? then m.league.value.country else None, "Unknown Country")
  }

  /** What an alert reports: the match, the minute, the leading team and the quote's text as it came. */
  datatype Notice = Notice(m: Match, minute: int, leader: string, odd: string)

  /** The first line of every alert (line 81), followed by an empty line. */
  const Headline := "\U{26BD}\U{FE0F} *Rementada Alert!*"

  /** Line 82: the two teams. */
  function TeamsLine(n: Notice): string {
    "\U{1F3DF} " + n.m.home + " vs " + n.m.away + "\n"
  }

  /** Line 83: the competition, with the fallbacks of lines 77-78. */
  function LeagueLine(n: Notice): string {
    "\U{1F3C6} " + LeagueName(n.m) + " - " + LeagueCountry(n.m) + "\n"
  }

  /** Line 84: the elapsed minute. */
  function MinuteLine(n: Notice): string {
    "\U{23F1} Minute: " + IntToString(n.minute) + "'\n"
  }

  /** Line 85: the score, home first. */
  function ScoreLine(n: Notice): string {
    "\U{1F4CA} Score: " + IntToString(n.m.homeGoals) + " - " + IntToString(n.m.awayGoals) + "\n"
  }

  /** Line 86: the leading team and the quote's text, with no newline after it. */
  function OddsLine(n: Notice): string {
    "\U{1F4B0} " + n.leader + " Win Odds: " + n.odd
  }

  /** The alert text of lines 80-87. */
  function Message(n: Notice): string {
    Headline + "\n\n" + TeamsLine(n) + LeagueLine(n) + MinuteLine(n) + ScoreLine(n) + OddsLine(n)
  }

  /**
   * The message names both teams, the competition, the minute, the score and the leading team,
   * opens with the headline and ends with the quote exactly as the API wrote it.
   */
  lemma MessageMentions(n: Notice)
    ensures var t := Message(n);
      StartsWith(t, Headline)
      && Contains(t, n.m.home) && Contains(t, n.m.away)
      && Contains(t, LeagueName(n.m)) && Contains(t, LeagueCountry(n.m))
      && Contains(t, IntToString(n.minute))
      && Contains(t, IntToString(n.m.homeGoals)) && Contains(t, IntToString(n.m.awayGoals))
      && Contains(t, "Minute: " + IntToString(n.minute) + "'")
      && Contains(t, IntToString(n.m.homeGoals) + " - " + IntToString(n.m.awayGoals))
      && Contains(t, n.leader) && EndsWith(t, n.leader + " Win Odds: " + n.odd)
  {
    var h := Headline + "\n\n";
    var t1 := h + TeamsLine(n);
    var t2 := t1 + LeagueLine(n);
    var t3 := t2 + MinuteLine(n);
    var t4 := t3 + ScoreLine(n);
    assert Message(n) == t4 + OddsLine(n);
    // The headline opens the text.
    assert StartsWith(Headline, Headline);
    StartsWithLeft(Headline, "\n\n", Headline);
    StartsWithLeft(h, TeamsLine(n), Headline);
    StartsWithLeft(t1, LeagueLine(n), Headline);
    StartsWithLeft(t2, MinuteLine(n), Headline);
    StartsWithLeft(t3, ScoreLine(n), Headline);
    StartsWithLeft(t4, OddsLine(n), Headline);
    // Each line holds its values, ...
    TeamsLineMentions(n);
    LeagueLineMentions(n);
    MinuteLineMentions(n);
    ScoreLineMentions(n);
    OddsLineMentions(n);
    // ... and each line is part of the text.
    ContainsRight(h, TeamsLine(n), n.m.home);
    ContainsRight(h, TeamsLine(n), n.m.away);
    ContainsRight(t1, LeagueLine(n), LeagueName(n.m));
    ContainsRight(t1, LeagueLine(n), LeagueCountry(n.m));
    ContainsRight(t2, MinuteLine(n), IntToString(n.minute));
    ContainsRight(t2, MinuteLine(n), "Minute: " + IntToString(n.minute) + "'");
    ContainsRight(t3, ScoreLine(n), IntToString(n.m.homeGoals));
    ContainsRight(t3, ScoreLine(n), IntToString(n.m.awayGoals));
    ContainsRight(t3, ScoreLine(n), IntToString(n.m.homeGoals) + " - " + IntToString(n.m.awayGoals));
    ContainsRight(t4, OddsLine(n), n.leader);
    EndsWithRight(t4, OddsLine(n), n.leader + " Win Odds: " + n.odd);
    ContainsLeft(t1, LeagueLine(n), n.m.home);
    ContainsLeft(t1, LeagueLine(n), n.m.away);
    ContainsLeft(t2, MinuteLine(n), n.m.home);
    ContainsLeft(t2, MinuteLine(n), n.m.away);
    ContainsLeft(t2, MinuteLine(n), LeagueName(n.m));
    ContainsLeft(t2, MinuteLine(n), LeagueCountry(n.m));
    ContainsLeft(t3, ScoreLine(n), n.m.home);
    ContainsLeft(t3, ScoreLine(n), n.m.away);
    ContainsLeft(t3, ScoreLine(n), LeagueName(n.m));
    ContainsLeft(t3, ScoreLine(n), LeagueCountry(n.m));
    ContainsLeft(t3, ScoreLine(n), IntToString(n.minute));
    ContainsLeft(t3, ScoreLine(n), "Minute: " + IntToString(n.minute) + "'");
    ContainsLeft(t4, OddsLine(n), "Minute: " + IntToString(n.minute) + "'");
    ContainsLeft(t4, OddsLine(n), IntToString(n.m.homeGoals) + " - " + IntToString(n.m.awayGoals));
    ContainsLeft(t4, OddsLine(n), n.m.home);
    ContainsLeft(t4, OddsLine(n), n.m.away);
    ContainsLeft(t4, OddsLine(n), LeagueName(n.m));
    ContainsLeft(t4, OddsLine(n), LeagueCountry(n.m));
    ContainsLeft(t4, OddsLine(n), IntToString(n.minute));
    ContainsLeft(t4, OddsLine(n), IntToString(n.m.homeGoals));
    ContainsLeft(t4, OddsLine(n), IntToString(n.m.awayGoals));
  }

  lemma TeamsLineMentions(n: Notice)
    ensures Contains(TeamsLine(n), n.m.home) && Contains(TeamsLine(n), n.m.away)
  {
    var a := "\U{1F3DF} " + n.m.home;
    var b := a + " vs ";
    ContainsSelf(n.m.home);
    ContainsRight("\U{1F3DF} ", n.m.home, n.m.home);
    ContainsLeft(a, " vs ", n.m.home);
    ContainsLeft(b, n.m.away, n.m.home);
    ContainsLeft(b + n.m.away, "\n", n.m.home);
    ContainsSelf(n.m.away);
    ContainsRight(b, n.m.away, n.m.away);
    ContainsLeft(b + n.m.away, "\n", n.m.away);
  }

  lemma LeagueLineMentions(n: Notice)
    ensures Contains(LeagueLine(n), LeagueName(n.m)) && Contains(LeagueLine(n), LeagueCountry(n.m))
  {
    var name, country := LeagueName(n.m), LeagueCountry(n.m);
    var a := "\U{1F3C6} " + name;
    var b := a + " - ";
    ContainsSelf(name);
    ContainsRight("\U{1F3C6} ", name, name);
    ContainsLeft(a, " - ", name);
    ContainsLeft(b, country, name);
    ContainsLeft(b + country, "\n", name);
    ContainsSelf(country);
    ContainsRight(b, country, country);
    ContainsLeft(b + country, "\n", country);
  }

  lemma MinuteLineMentions(n: Notice)
    ensures Contains(MinuteLine(n), IntToString(n.minute))
    ensures Contains(MinuteLine(n), "Minute: " + IntToString(n.minute) + "'")
  {
    var minute := IntToString(n.minute);
    var x := "Minute: " + minute + "'";
    assert MinuteLine(n) == "\U{23F1} " + x + "\n";
    ContainsSelf(x);
    ContainsRight("\U{23F1} ", x, x);
    ContainsLeft("\U{23F1} " + x, "\n", x);
    ContainsSelf(minute);
    ContainsRight("\U{23F1} Minute: ", minute, minute);
    ContainsLeft("\U{23F1} Minute: " + minute, "'\n", minute);
  }

  /** Both sides of a score text occur in it. */
  lemma ScoreMentions(home: string, away: string)
    ensures Contains(home + " - " + away, home) && Contains(home + " - " + away, away)
  {
    ContainsSelf(home);
    ContainsLeft(home, " - ", home);
    ContainsLeft(home + " - ", away, home);
    ContainsSelf(away);
    ContainsRight(home + " - ", away, away);
  }

  lemma ScoreLineMentions(n: Notice)
    ensures Contains(ScoreLine(n), IntToString(n.m.homeGoals)) && Contains(ScoreLine(n), IntToString(n.m.awayGoals))
    ensures Contains(ScoreLine(n), IntToString(n.m.homeGoals) + " - " + IntToString(n.m.awayGoals))
  {
    var home, away := IntToString(n.m.homeGoals), IntToString(n.m.awayGoals);
    var x := home + " - " + away;
    assert ScoreLine(n) == "\U{1F4CA} Score: " + x + "\n";
    ContainsSelf(x);
    ContainsRight("\U{1F4CA} Score: ", x, x);
    ContainsLeft("\U{1F4CA} Score: " + x, "\n", x);
    ScoreMentions(home, away);
    ContainsTrans(ScoreLine(n), x, home);
    ContainsTrans(ScoreLine(n), x, away);
  }

  lemma OddsLineMentions(n: Notice)
    ensures Contains(OddsLine(n), n.leader) && EndsWith(OddsLine(n), n.leader + " Win Odds: " + n.odd)
  {
    var head := n.leader + " Win Odds: ";
    var x := head + n.odd;
    assert OddsLine(n) == "\U{1F4B0} " + x;
    ContainsSelf(n.leader);
    ContainsLeft(n.leader, " Win Odds: ", n.leader);
    ContainsLeft(head, n.odd, n.leader);
    ContainsRight("\U{1F4B0} ", x, n.leader);
    assert EndsWith(x, x);
    EndsWithRight("\U{1F4B0} ", x, x);
  }

  /**
   * The fallbacks of lines 76-78 as the message shows them: a missing league, or a missing or empty
   * name or country, reads "Unknown League" / "Unknown Country"; a present non-empty one is shown itself.
   */
  lemma MessageFallbacks(n: Notice)
    ensures var t, l := Message(n), n.m.league;
      ((l.None? || l.value.name.None? || l.value.name.value == []) ==> Contains(t, "Unknown League"))
      && ((l.Some? && l.value.name.Some? && l.value.name.value != []) ==> Contains(t, l.value.name.value))
      && ((l.None? || l.value.country.None? || l.value.country.value == []) ==> Contains(t, "Unknown Country"))
      && ((l.Some? && l.value.country.Some? && l.value.country.value != []) ==> Contains(t, l.value.country.value))
  {
    MessageMentions(n);
  }

  /** `text` applied to each alert, in order. */
  function Texts(text: Notice -> string, ns: seq<Notice>): (texts: seq<string>)
    ensures |texts| == |ns|
    decreases |ns|
  {
    if ns == [] then [] else Texts(text, ns[..|ns| - 1]) + [text(ns[|ns| - 1])]
  }

  /** The `i`-th text is the text of the `i`-th alert. */
  lemma {:induction false} TextsAt(text: Notice -> string, ns: seq<Notice>, i: nat)
    requires i < |ns|
    ensures Texts(text, ns)[i] == text(ns[i])
    decreases |ns|
  {
    var front := ns[..|ns| - 1];
    if i < |front| {
      TextsAt(text, front, i);
      assert Texts(text, ns)[i] == Texts(text, front)[i];
      assert ns[i] == front[i];
    }
  }

  /** The texts of a sequence of alerts, in order. */
  function Messages(ns: seq<Notice>): (texts: seq<string>)
    ensures |texts| == |ns|
  {
    Texts(Message, ns)
  }

  lemma MessagesAppend(ns: seq<Notice>, n: Notice)
    ensures Messages(ns + [n]) == Messages(ns) + [Message(n)]
  {
    assert (ns + [n])[..|ns|] == ns;
  }

  /** Every text sent is the message of the alert in the same place. */
  lemma MessagesAt(ns: seq<Notice>)
    ensures forall i :: 0 <= i < |ns| ==> Messages(ns)[i] == Message(ns[i])
  {
    forall i | 0 <= i < |ns|
      ensures Messages(ns)[i] == Message(ns[i])
    {
      TextsAt(Message, ns, i);
    }
  }

  /** What the rule decides for one match, one constructor per way out of the loop body. */
  datatype Verdict =
    | AlreadySent                // line 50: the id is in the sent log
    | NotFirstHalf               // line 55: minute unknown or past 45
    | NoTrigger                  // line 62: not an exact 2-0 / 0-2
    | NoOdds                     // line 67: the odds response is empty
    | ParseError(fault: Fault)   // line 92: something raised inside the try block
    | NoQuote                    // line 73: no quote names the leading team
    | BelowThreshold(odd: string) // line 75: the deciding quote is under 1.40
    | Alert(notice: Notice)      // lines 88-89: message sent, id appended
  {
    /** The rule got as far as asking the API for the fixture's odds (line 66). */
    predicate FetchedOdds() {
      !(AlreadySent? || NotFirstHalf? || NoTrigger?)
    }
  }

  /** Lines 75-87 for the deciding quote: read its odds, compare with 1.40, compose the message. */
  function QuoteVerdict(m: Match, minute: int, leader: string, q: Quote): Verdict {
    match q.odd
    case None => ParseError(MissingKey("odd"))
    case Some(text) =>
      match ParseDecimal(text)
      case None => ParseError(BadNumber(text))
      case Some(d) =>
        if AtLeast(d, MinOdds) then Alert(Notice(m, minute, leader, text)) else BelowThreshold(text)
  }

  /** The `try` block (lines 70-93) for a non-empty odds response. */
  function OddsVerdict(m: Match, minute: int, odds: seq<OddsEntry>): Verdict
    requires odds != []
  {
    match MarketQuotes(odds)
    case Failure(e) => ParseError(e)
    case Success(quotes) =>
      match DecidingQuote(quotes, LeadingTeam(m))
      case Failure(e) => ParseError(e)
      case Success(None) => NoQuote
      case Success(Some(q)) => QuoteVerdict(m, minute, LeadingTeam(m), q)
  }

  /** The body of the loop over matches (lines 49-93), given the sent log as it stands. */
  function Evaluate(log: seq<int>, m: Match, odds: seq<OddsEntry>): Verdict {
    if m.id in log then AlreadySent
    else if !InFirstHalf(m.elapsed) then NotFirstHalf
    else if !IsTwoNil(m.homeGoals, m.awayGoals) then NoTrigger
    else if odds == [] then NoOdds
    else OddsVerdict(m, m.elapsed.value, odds)
  }

  /**
   * The loop body as the source runs it, with the inner loop over the market's quotes and its
   * early `break`; it agrees with `Evaluate`.
   */
  method EvaluateMatch(log: seq<int>, m: Match, odds: seq<OddsEntry>) returns (v: Verdict)
    ensures v == Evaluate(log, m, odds)
  {
    if m.id in log {
      return AlreadySent;
    }
    var status := m.elapsed;
    if status.None? || status.value > LastMinute {
      return NotFirstHalf;
    }
    if !((m.homeGoals == 2 && m.awayGoals == 0) || (m.homeGoals == 0 && m.awayGoals == 2)) {
      return NoTrigger;
    }
    var leader := if m.homeGoals > m.awayGoals then m.home else m.away;
    if odds == [] {
      return NoOdds;
    }
    var market := MarketQuotes(odds);
    if market.Failure? {
      return ParseError(market.error);
    }
    var quotes := market.value;
    DecidingQuoteFirstStop(quotes, leader);
    v := NoQuote;
    var k := 0;
    while k < |quotes|
      invariant 0 <= k <= |quotes|
      invariant OtherTeamsBefore(quotes, leader, k)
      invariant v == NoQuote
    {
      var q := quotes[k];
      if q.value.None? {
        v := ParseError(MissingKey("value"));
        break;
      }
      if q.value.value == leader {
        v := QuoteVerdict(m, status.value, leader, q);
        break;
      }
      k := k + 1;
    }
  }

  /** What one pass has produced so far: the sent log, the alerts sent, the fixtures whose odds were fetched. */
  datatype Batch = Batch(log: seq<int>, alerts: seq<Notice>, queried: seq<int>)

  /** The effect of one verdict: an alert appends the message and the fixture id (lines 88-89). */
  function Apply(b: Batch, m: Match, v: Verdict): Batch {
    Batch(
      if v.Alert? then b.log + [m.id] else b.log,
      if v.Alert? then b.alerts + [v.notice] else b.alerts,
      if v.FetchedOdds() then b.queried + [m.id] else b.queried)
  }

  /** The pass over `matches` in order, starting from the loaded log; `fetched[i]` is the odds response for `matches[i]`. */
  function Run(sentLog: seq<int>, matches: seq<Match>, fetched: seq<seq<OddsEntry>>): Batch
    requires |fetched| == |matches|
    decreases |matches|
  {
    if matches == [] then Batch(sentLog, [], [])
    else
      var n := |matches| - 1;
      var b := Run(sentLog, matches[..n], fetched[..n]);
      Apply(b, matches[n], Evaluate(b.log, matches[n], fetched[n]))
  }

  /**
   * `main` (lines 44-93) after loading the log: returns the log it saves, the text of every message
   * it sends, in order, and the fixtures it fetched odds for.
   */
  method RunAlerts(sentLog: seq<int>, matches: seq<Match>, fetched: seq<seq<OddsEntry>>)
    returns (log: seq<int>, messages: seq<string>, queried: seq<int>)
    requires |fetched| == |matches|
    ensures var r := Run(sentLog, matches, fetched);
      log == r.log && queried == r.queried && messages == Messages(r.alerts)
    ensures |sentLog| <= |log| && log[..|sentLog|] == sentLog
    ensures |log| == |sentLog| + |messages|
    ensures forall i :: |sentLog| <= i < |log| ==> log[i] !in log[..i]
    ensures var r := Run(sentLog, matches, fetched);
      forall i :: 0 <= i < |messages| ==> messages[i] == Message(r.alerts[i])
  {
    log, messages, queried := sentLog, [], [];
    ghost var alerts: seq<Notice> := [];
    var i := 0;
    while i < |matches|
      invariant 0 <= i <= |matches|
      invariant Batch(log, alerts, queried) == Run(sentLog, matches[..i], fetched[..i])
      invariant messages == Messages(alerts)
    {
      var m := matches[i];
      var v := EvaluateMatch(log, m, fetched[i]);
      ghost var before := Batch(log, alerts, queried);
      RunStep(sentLog, matches, fetched, i);
      ghost var after := Apply(before, m, v);
      assert after == Run(sentLog, matches[..i + 1], fetched[..i + 1]);
      if v.FetchedOdds() {
        queried := queried + [m.id];
      }
      if v.Alert? {
        MessagesAppend(alerts, v.notice);
        messages := messages + [Message(v.notice)];
        alerts := alerts + [v.notice];
        log := log + [m.id];
      }
      assert Batch(log, alerts, queried) == after;
      i := i + 1;
    }
    assert matches[..|matches|] == matches;
    assert fetched[..|fetched|] == fetched;
    RunAppendOnly(sentLog, matches, fetched);
    RunAtMostOnce(sentLog, matches, fetched);
    MessagesAt(alerts);
  }

  // ---------------------------------------------------------------------------
  // Properties of the pass

  /** What one verdict does to a batch: everything so far is kept, and at most one entry is added to each part. */
  lemma ApplyExtends(b: Batch, m: Match, v: Verdict)
    ensures var a := Apply(b, m, v);
      |a.log| == |b.log| + (if v.Alert? then 1 else 0) && a.log[..|b.log|] == b.log
      && |a.alerts| == |b.alerts| + (if v.Alert? then 1 else 0) && a.alerts[..|b.alerts|] == b.alerts
      && |a.queried| == |b.queried| + (if v.FetchedOdds() then 1 else 0) && a.queried[..|b.queried|] == b.queried
      && (v.Alert? ==> a.log[|b.log|] == m.id && a.alerts[|b.alerts|] == v.notice)
      && (v.FetchedOdds() ==> a.queried[|b.queried|] == m.id)
  {
    var a := Apply(b, m, v);
    if v.Alert? {
      assert a.log[..|b.log|] == b.log;
      assert a.alerts[..|b.alerts|] == b.alerts;
    }
    if v.FetchedOdds() {
      assert a.queried[..|b.queried|] == b.queried;
    }
  }

  /** Whatever is in a prefix of a sequence is in the sequence. */
  lemma PrefixMembers(p: seq<int>, s: seq<int>)
    requires |p| <= |s| && s[..|p|] == p
    ensures forall x :: x in p ==> x in s
  {
    forall x | x in p
      ensures x in s
    {
      var j :| 0 <= j < |p| && p[j] == x;
      assert s[j] == x;
    }
  }

  /** An unseen, qualifying match with a non-empty odds response is decided by its odds alone. */
  lemma EvaluateQualifying(log: seq<int>, m: Match, odds: seq<OddsEntry>)
    requires m.id !in log && InFirstHalf(m.elapsed) && IsTwoNil(m.homeGoals, m.awayGoals) && odds != []
    ensures Evaluate(log, m, odds) == OddsVerdict(m, m.elapsed.value, odds)
  {
  }

  /** An alert is only ever raised for an unseen fixture that meets the whole rule. */
  lemma EvaluateAlert(log: seq<int>, m: Match, odds: seq<OddsEntry>)
    requires Evaluate(log, m, odds).Alert?
    ensures m.id !in log && Justifies(m, odds, Evaluate(log, m, odds).notice)
  {
  }

  /** The last step of `Run`, named. */
  lemma RunLast(sentLog: seq<int>, matches: seq<Match>, fetched: seq<seq<OddsEntry>>)
    requires |fetched| == |matches| && matches != []
    ensures var n := |matches| - 1; var b := Run(sentLog, matches[..n], fetched[..n]);
      Run(sentLog, matches, fetched) == Apply(b, matches[n], Evaluate(b.log, matches[n], fetched[n]))
  {
  }

  /** `Run` over one more match of the list is one more step. */
  lemma RunStep(sentLog: seq<int>, matches: seq<Match>, fetched: seq<seq<OddsEntry>>, i: nat)
    requires |fetched| == |matches| && i < |matches|
    ensures var b := Run(sentLog, matches[..i], fetched[..i]);
      Run(sentLog, matches[..i + 1], fetched[..i + 1]) == Apply(b, matches[i], Evaluate(b.log, matches[i], fetched[i]))
  {
    assert matches[..i + 1][..i] == matches[..i] && matches[..i + 1][i] == matches[i];
    assert fetched[..i + 1][..i] == fetched[..i] && fetched[..i + 1][i] == fetched[i];
    RunLast(sentLog, matches[..i + 1], fetched[..i + 1]);
  }

  /** The log only grows by appending, one id per message sent. */
  lemma {:induction false} RunAppendOnly(sentLog: seq<int>, matches: seq<Match>, fetched: seq<seq<OddsEntry>>)
    requires |fetched| == |matches|
    ensures var r := Run(sentLog, matches, fetched);
      |sentLog| <= |r.log| && r.log[..|sentLog|] == sentLog && |r.log| == |sentLog| + |r.alerts|
    decreases |matches|
  {
    if matches != [] {
      var n := |matches| - 1;
      RunAppendOnly(sentLog, matches[..n], fetched[..n]);
      var b := Run(sentLog, matches[..n], fetched[..n]);
      var v := Evaluate(b.log, matches[n], fetched[n]);
      RunLast(sentLog, matches, fetched);
      ApplyExtends(b, matches[n], v);
      var r := Apply(b, matches[n], v);
      assert r.log[..|sentLog|] == r.log[..|b.log|][..|sentLog|];
    }
  }

  /** Being a prefix is transitive, for the log and the alerts of a batch at once. */
  lemma PrefixTrans(early: Batch, mid: Batch, late: Batch)
    requires |early.log| <= |mid.log| && mid.log[..|early.log|] == early.log
    requires |early.alerts| <= |mid.alerts| && mid.alerts[..|early.alerts|] == early.alerts
    requires |mid.log| <= |late.log| && late.log[..|mid.log|] == mid.log
    requires |mid.alerts| <= |late.alerts| && late.alerts[..|mid.alerts|] == mid.alerts
    ensures |early.log| <= |late.log| && late.log[..|early.log|] == early.log
    ensures |early.alerts| <= |late.alerts| && late.alerts[..|early.alerts|] == early.alerts
  {
    assert late.log[..|early.log|] == late.log[..|mid.log|][..|early.log|];
    assert late.alerts[..|early.alerts|] == late.alerts[..|mid.alerts|][..|early.alerts|];
  }

  /** Earlier entries keep their place: the log after a prefix of the matches is a prefix of the final log. */
  lemma {:induction false} RunExtends(sentLog: seq<int>, matches: seq<Match>, fetched: seq<seq<OddsEntry>>, i: nat)
    requires |fetched| == |matches| && i <= |matches|
    ensures var early, r := Run(sentLog, matches[..i], fetched[..i]), Run(sentLog, matches, fetched);
      |early.log| <= |r.log| && r.log[..|early.log|] == early.log
      && |early.alerts| <= |r.alerts| && r.alerts[..|early.alerts|] == early.alerts
    decreases |matches|
  {
    if i == |matches| {
      assert matches[..i] == matches && fetched[..i] == fetched;
    } else {
      var n := |matches| - 1;
      assert matches[..n][..i] == matches[..i] && fetched[..n][..i] == fetched[..i];
      RunExtends(sentLog, matches[..n], fetched[..n], i);
      var b := Run(sentLog, matches[..n], fetched[..n]);
      var v := Evaluate(b.log, matches[n], fetched[n]);
      RunLast(sentLog, matches, fetched);
      ApplyExtends(b, matches[n], v);
      PrefixTrans(Run(sentLog, matches[..i], fetched[..i]), b, Apply(b, matches[n], v));
    }
  }

  /** Each id is appended at most once, and never one already in the loaded log, even when a fixture is listed twice. */
  lemma {:induction false} RunAtMostOnce(sentLog: seq<int>, matches: seq<Match>, fetched: seq<seq<OddsEntry>>)
    requires |fetched| == |matches|
    ensures var r := Run(sentLog, matches, fetched);
      forall i :: |sentLog| <= i < |r.log| ==> r.log[i] !in r.log[..i]
    decreases |matches|
  {
    if matches != [] {
      var n := |matches| - 1;
      RunAtMostOnce(sentLog, matches[..n], fetched[..n]);
      RunAppendOnly(sentLog, matches[..n], fetched[..n]);
      var b := Run(sentLog, matches[..n], fetched[..n]);
      var v := Evaluate(b.log, matches[n], fetched[n]);
      RunLast(sentLog, matches, fetched);
      ApplyExtends(b, matches[n], v);
      var log := Apply(b, matches[n], v).log;
      forall i | |sentLog| <= i < |log|
        ensures log[i] !in log[..i]
      {
        if i < |b.log| {
          assert log[..i] == b.log[..i];
        } else {
          assert log[..i] == b.log;
        }
      }
    }
  }

  /** The part of the rule that does not depend on the log: the match qualifies and its odds produce this alert. */
  ghost predicate Justifies(m: Match, odds: seq<OddsEntry>, notice: Notice) {
    InFirstHalf(m.elapsed) && IsTwoNil(m.homeGoals, m.awayGoals) && odds != []
    && OddsVerdict(m, m.elapsed.value, odds) == Alert(notice)
  }

  /** The `i`-th alert of `b`, with the id logged beside it, comes from one of the first `upto` matches, which met the whole rule. */
  ghost predicate JustifiedAt(sentLog: seq<int>, matches: seq<Match>, fetched: seq<seq<OddsEntry>>, b: Batch, upto: nat, i: nat)
    requires |fetched| == |matches| && upto <= |matches|
    requires |b.log| == |sentLog| + |b.alerts| && i < |b.alerts|
  {
    exists k :: 0 <= k < upto && matches[k].id == b.log[|sentLog| + i] && Justifies(matches[k], fetched[k], b.alerts[i])
  }

  /** Every alert of `b` is justified by one of the first `upto` matches. */
  ghost predicate AllJustified(sentLog: seq<int>, matches: seq<Match>, fetched: seq<seq<OddsEntry>>, b: Batch, upto: nat)
    requires |fetched| == |matches| && upto <= |matches|
  {
    |b.log| == |sentLog| + |b.alerts|
    && forall i :: 0 <= i < |b.alerts| ==> JustifiedAt(sentLog, matches, fetched, b, upto, i)
  }

  /** Deciding match `n` keeps every alert justified: an earlier one keeps its place, a new one comes from match `n`. */
  lemma JustifiedStep(sentLog: seq<int>, matches: seq<Match>, fetched: seq<seq<OddsEntry>>, b: Batch, n: nat)
    requires |fetched| == |matches| && n < |matches|
    requires AllJustified(sentLog, matches, fetched, b, n)
    ensures AllJustified(sentLog, matches, fetched, Apply(b, matches[n], Evaluate(b.log, matches[n], fetched[n])), n + 1)
  {
    var v := Evaluate(b.log, matches[n], fetched[n]);
    var a := Apply(b, matches[n], v);
    ApplyExtends(b, matches[n], v);
    var upto := n + 1;
    forall i | 0 <= i < |a.alerts|
      ensures JustifiedAt(sentLog, matches, fetched, a, upto, i)
    {
      if i < |b.alerts| {
        assert JustifiedAt(sentLog, matches, fetched, b, n, i);
        var k :| 0 <= k < n && matches[k].id == b.log[|sentLog| + i] && Justifies(matches[k], fetched[k], b.alerts[i]);
        assert a.log[|sentLog| + i] == a.log[..|b.log|][|sentLog| + i];
        assert a.alerts[i] == a.alerts[..|b.alerts|][i];
        assert matches[k].id == a.log[|sentLog| + i] && Justifies(matches[k], fetched[k], a.alerts[i]);
      } else {
        EvaluateAlert(b.log, matches[n], fetched[n]);
        assert matches[n].id == a.log[|sentLog| + i] && Justifies(matches[n], fetched[n], a.alerts[i]);
      }
    }
  }

  /** Every appended id, with the alert sent beside it, comes from a match among the first `upto` that met the whole rule. */
  lemma {:induction false} RunAlertsJustified(sentLog: seq<int>, matches: seq<Match>, fetched: seq<seq<OddsEntry>>, upto: nat)
    requires |fetched| == |matches| && upto <= |matches|
    ensures AllJustified(sentLog, matches, fetched, Run(sentLog, matches[..upto], fetched[..upto]), upto)
  {
    if upto == 0 {
      assert matches[..0] == [] && fetched[..0] == [];
    } else {
      var n := upto - 1;
      RunAlertsJustified(sentLog, matches, fetched, n);
      RunStep(sentLog, matches, fetched, n);
      JustifiedStep(sentLog, matches, fetched, Run(sentLog, matches[..n], fetched[..n]), n);
    }
  }

  /** A match among the first `upto` that meets the whole rule ends up in the log: alerted then, or already before. */
  lemma RunComplete(sentLog: seq<int>, matches: seq<Match>, fetched: seq<seq<OddsEntry>>, upto: nat, k: nat)
    requires |fetched| == |matches| && k < upto <= |matches|
    requires InFirstHalf(matches[k].elapsed) && IsTwoNil(matches[k].homeGoals, matches[k].awayGoals)
    requires fetched[k] != [] && OddsVerdict(matches[k], matches[k].elapsed.value, fetched[k]).Alert?
    ensures matches[k].id in Run(sentLog, matches[..upto], fetched[..upto]).log
  {
    var b := Run(sentLog, matches[..k], fetched[..k]);
    var v := Evaluate(b.log, matches[k], fetched[k]);
    RunStep(sentLog, matches, fetched, k);
    ApplyExtends(b, matches[k], v);
    var after := Apply(b, matches[k], v);
    PrefixMembers(b.log, after.log);
    if matches[k].id !in b.log {
      EvaluateQualifying(b.log, matches[k], fetched[k]);
      assert after.log[|b.log|] == matches[k].id;
    }
    assert matches[k].id in after.log;
    var ms, fs := matches[..upto], fetched[..upto];
    assert ms[..k + 1] == matches[..k + 1] && fs[..k + 1] == fetched[..k + 1];
    RunExtends(sentLog, ms, fs, k + 1);
    PrefixMembers(after.log, Run(sentLog, ms, fs).log);
  }

  /** Odds are fetched only for unseen matches in the first half at 2-0 or 0-2. */
  lemma {:induction false} RunQueriesOnlyTriggered(sentLog: seq<int>, matches: seq<Match>, fetched: seq<seq<OddsEntry>>, upto: nat)
    requires |fetched| == |matches| && upto <= |matches|
    ensures var r := Run(sentLog, matches[..upto], fetched[..upto]);
      forall i :: 0 <= i < |r.queried| ==>
        r.queried[i] !in sentLog
        && (exists k :: 0 <= k < upto && matches[k].id == r.queried[i]
              && InFirstHalf(matches[k].elapsed) && IsTwoNil(matches[k].homeGoals, matches[k].awayGoals))
  {
    if upto > 0 {
      var n := upto - 1;
      RunQueriesOnlyTriggered(sentLog, matches, fetched, n);
      RunAppendOnly(sentLog, matches[..n], fetched[..n]);
      var b := Run(sentLog, matches[..n], fetched[..n]);
      var v := Evaluate(b.log, matches[n], fetched[n]);
      RunStep(sentLog, matches, fetched, n);
      ApplyExtends(b, matches[n], v);
      var r := Apply(b, matches[n], v);
      PrefixMembers(sentLog, b.log);
      forall i | 0 <= i < |r.queried|
        ensures r.queried[i] !in sentLog
        ensures exists k :: (0 <= k < upto && matches[k].id == r.queried[i]
          && InFirstHalf(matches[k].elapsed) && IsTwoNil(matches[k].homeGoals, matches[k].awayGoals))
      {
        if i < |b.queried| {
          assert r.queried[i] == r.queried[..|b.queried|][i];
        } else {
          assert v.FetchedOdds() && r.queried[i] == matches[n].id;
        }
      }
    }
  }

  // ---------------------------------------------------------------------------
  // Properties of the rule for one match

  /** The quote's text reads as a number of at least 1.40 (line 75). */
  predicate ClearsThreshold(text: string) {
    ParseDecimal(text).Some? && AtLeast(ParseDecimal(text).value, MinOdds)
  }

  /** `quotes[k]` is the quote the inner loop stops at, and it names `team`. */
  predicate DecidesAt(quotes: seq<Quote>, team: string, k: int) {
    0 <= k < |quotes| && OtherTeamsBefore(quotes, team, k) && quotes[k].value == Some(team)
  }

  /** Odds are fetched exactly for unseen matches in the first half at 2-0 or 0-2 (lines 50-66). */
  lemma EvaluateFetches(log: seq<int>, m: Match, odds: seq<OddsEntry>)
    ensures Evaluate(log, m, odds).FetchedOdds()
      <==> m.id !in log && InFirstHalf(m.elapsed) && IsTwoNil(m.homeGoals, m.awayGoals)
  {
    if m.id !in log && InFirstHalf(m.elapsed) && IsTwoNil(m.homeGoals, m.awayGoals) && odds != [] {
      var v := OddsVerdict(m, m.elapsed.value, odds);
      assert !(v.AlreadySent? || v.NotFirstHalf? || v.NoTrigger?);
    }
  }

  /** At 2-0 the leading team is the home side, at 0-2 the away side (line 63). */
  lemma LeaderScored(m: Match)
    requires IsTwoNil(m.homeGoals, m.awayGoals)
    ensures LeadingTeam(m) == if m.homeGoals == 2 then m.home else m.away
  {
  }

  /**
   * The whole rule: a match raises an alert exactly when it is unseen, in the first half, at 2-0
   * or 0-2, its odds response and market can be read, and the first quote naming the leading team,
   * reached without a malformed quote before it, reads as at least 1.40.
   */
  lemma AlertExactly(log: seq<int>, m: Match, odds: seq<OddsEntry>)
    ensures Evaluate(log, m, odds).Alert? <==>
      (m.id !in log && InFirstHalf(m.elapsed) && IsTwoNil(m.homeGoals, m.awayGoals) && odds != []
       && MarketQuotes(odds).Success?
       && exists k :: DecidesAt(MarketQuotes(odds).value, LeadingTeam(m), k)
                      && MarketQuotes(odds).value[k].odd.Some? && ClearsThreshold(MarketQuotes(odds).value[k].odd.value))
  {
    if m.id !in log && InFirstHalf(m.elapsed) && IsTwoNil(m.homeGoals, m.awayGoals) && odds != [] && MarketQuotes(odds).Success? {
      var quotes, team := MarketQuotes(odds).value, LeadingTeam(m);
      DecidingQuoteFirstStop(quotes, team);
      DecidingQuoteNamesTeam(quotes, team);
      if Evaluate(log, m, odds).Alert? {
        var r := DecidingQuote(quotes, team);
        assert r.Success? && r.value.Some?;
        var k :| 0 <= k < |quotes| && quotes[k] == r.value.value;
        assert !OtherTeamsBefore(quotes, team, |quotes|);
        var j := FirstStop(quotes, team);
        assert DecidesAt(quotes, team, j) by {
          assert r == (if quotes[j].value.None? then Failure(MissingKey("value")) else Success(Some(quotes[j])));
        }
        assert quotes[j] == r.value.value;
      }
      forall k | DecidesAt(quotes, team, k) && quotes[k].odd.Some? && ClearsThreshold(quotes[k].odd.value)
        ensures Evaluate(log, m, odds).Alert?
      {
        assert DecidingQuote(quotes, team) == Success(Some(quotes[k]));
      }
    }
  }

  /** An alert reports the match itself, its minute, its leading team, and a quote for that team of at least 1.40. */
  lemma AlertNotice(log: seq<int>, m: Match, odds: seq<OddsEntry>)
    requires Evaluate(log, m, odds).Alert?
    ensures var n := Evaluate(log, m, odds).notice;
      n.m == m && m.elapsed == Some(n.minute) && n.minute <= LastMinute && n.leader == LeadingTeam(m)
      && ClearsThreshold(n.odd)
      && exists k :: DecidesAt(MarketQuotes(odds).value, LeadingTeam(m), k) && MarketQuotes(odds).value[k].odd == Some(n.odd)
  {
    var quotes, team := MarketQuotes(odds).value, LeadingTeam(m);
    DecidingQuoteFirstStop(quotes, team);
    DecidingQuoteNamesTeam(quotes, team);
    var r := DecidingQuote(quotes, team);
    assert r.Success? && r.value.Some?;
    assert !OtherTeamsBefore(quotes, team, |quotes|) by {
      var k :| 0 <= k < |quotes| && quotes[k] == r.value.value;
    }
    var j := FirstStop(quotes, team);
    assert r == (if quotes[j].value.None? then Failure(MissingKey("value")) else Success(Some(quotes[j])));
    assert DecidesAt(quotes, team, j);
  }

  /**
   * The deciding quote settles the match (lines 75-91): an alert quoting its text exactly when that
   * text reads as at least 1.40, below the threshold when it reads as less, and the error branch when
   * its "odd" is missing or is not decimal text.
   */
  lemma QuoteVerdictOutcomes(m: Match, minute: int, leader: string, q: Quote)
    ensures var v := QuoteVerdict(m, minute, leader, q);
      (v.Alert? <==> q.odd.Some? && ClearsThreshold(q.odd.value))
      && (v.Alert? ==> v.notice == Notice(m, minute, leader, q.odd.value))
      && (v.BelowThreshold? <==> q.odd.Some? && IsDecimalText(q.odd.value) && !ClearsThreshold(q.odd.value))
      && (v == ParseError(MissingKey("odd")) <==> q.odd.None?)
      && (q.odd.Some? && !IsDecimalText(q.odd.value) ==> v == ParseError(BadNumber(q.odd.value)))
      && (v.Alert? || v.BelowThreshold? || v.ParseError?)
  {
    if q.odd.Some? {
      ParseDecimalAccepts(q.odd.value);
    }
  }

  /** A quote with two decimals clears the threshold exactly when it is at least 140 hundredths. */
  lemma ClearsHundredths(w: string, f: string)
    requires AllDigits(w) && AllDigits(f) && |f| == 2
    ensures AllDigits(w + f)
    ensures ClearsThreshold(w + "." + f) <==> DigitsValue(w + f) >= 140
  {
    ParseFraction(w, f);
    AtLeastHundredths(DigitsValue(w + f), 140);
  }

  /** A quote with one decimal clears the threshold exactly when it is at least 14 tenths: "1.4" passes like "1.40". */
  lemma ClearsTenths(w: string, f: string)
    requires AllDigits(w) && AllDigits(f) && |f| == 1
    ensures AllDigits(w + f)
    ensures ClearsThreshold(w + "." + f) <==> DigitsValue(w + f) >= 14
  {
    var f0 := f + "0";
    assert AllDigits(f0);
    TrailingZeroIrrelevant(w, f, MinOdds);
    ParseFraction(w, f);
    assert w + "." + f0 == w + "." + f + "0";
    ClearsHundredths(w, f0);
    assert w + f0 == (w + f) + "0";
    DigitsValueAppend(w + f, "0");
    assert DigitsValue("0") == 0 by {
      assert "0"[..0] == [];
    }
  }

  /** A whole-number quote clears the threshold exactly when it is at least 2. */
  lemma ClearsWhole(w: string)
    requires w != [] && AllDigits(w)
    ensures ClearsThreshold(w) <==> DigitsValue(w) >= 2
  {
    ParseWhole(w);
    var v := DigitsValue(w);
    assert Shift(v, 2) == 100 * v by {
      assert Shift(v, 1) == 10 * v;
    }
  }
}
