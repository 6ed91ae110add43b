# Rementada alert: a verified model of the alert rule

The Rementada bot watches live football fixtures. For each one it decides whether to post a
"Rementada Alert". A fixture qualifies when all of these hold:

- it has not been alerted before: its id is not in the sent log;
- its elapsed minute is known and at most 45;
- the score is exactly 2-0 or 0-2;
- the bookmaker's "Match Winner" quote for the leading team is at least 1.40.

A qualifying fixture gets an alert message, and its id is appended to the sent log.

This project models `main` of `Rementada_alert.py`, lines 44-93, and the message it composes. The
model has six modules:

- `Wrappers`: `Option` and `Result`.
- `Numerals`:
  - the integers the message prints, as Python's `str` writes them;
  - the quote text that `float(...) >= 1.40` reads, as an exact decimal number.
- `Text`: what it means for a text to contain, start with or end with another.
- `Odds`: the odds response of the API and the two lookups in it:
  - the first bet named "Match Winner";
  - the first quote naming the leading team.
- `Alert`:
  - the per-match rule. `Evaluate` is the specification; `EvaluateMatch` is the loop with its `break`.
  - the message text.
  - the pass over all matches. `Run` is the specification; `RunAlerts` is the loop. It returns the saved
    log, the messages sent and the fixtures whose odds were fetched.
  - the properties of both.
- `Scenarios`: concrete matches and responses worked through the rule.

The HTTP calls are parameters of the pass. `matches` is the live-fixtures response. `fetched[i]` is
the odds response the API gives for `matches[i]`, and it is read only when the rule gets as far as
asking for it. Sending a message means appending its text to `messages`. Loading the log is the
parameter `sentLog`; saving it is the returned `log`.

## Model

| member | source | states |
|---|---|---|
| Numerals.NatToStringDigits | Rementada_alert.py:84-85 | the printed digits of a natural number have no leading zero and read back as that number |
| Numerals.IntToStringDigits | Rementada_alert.py:84-85 | `IntToString`, the printing of minute and goals: a printed integer is non-empty, is "0" for zero, has no leading zero, carries a minus sign exactly when it is negative, and reads back as itself |
| Numerals.DigitsValueAppend | Rementada_alert.py:75 | reading concatenated digits equals the first part shifted by the length of the second, plus the second |
| Numerals.ScanDigits | Rementada_alert.py:75 | a run of digits is read in one piece: the value so far is shifted and the run's own value added |
| Numerals.ParseWhole | Rementada_alert.py:75 | a quote of digits only reads as the whole number they denote |
| Numerals.ParseFraction | Rementada_alert.py:75 | a quote `w.f` reads as the digits of w and f scaled down by 10 to the length of f |
| Numerals.ScanShape | Rementada_alert.py:75 | whatever the scanner accepts is digits with at most one decimal point and at least one digit |
| Numerals.ParseDecimalAccepts | Rementada_alert.py:75 | `ParseDecimal`, the reading of the quote: it yields a number exactly when the text is plain decimal text; otherwise the model reads a fault |
| Numerals.AtLeastRescale | Rementada_alert.py:75 | scaling a decimal by ten in both digits and scale leaves every comparison unchanged |
| Numerals.TrailingZeroIrrelevant | Rementada_alert.py:75 | a trailing zero in the quote's fraction does not change whether it clears a threshold |
| Numerals.AtLeastHundredths | Rementada_alert.py:75 | two decimals with two places compare as their integer hundredths |
| Odds.WinOddsFirstStop | Rementada_alert.py:72 | `WinOdds`, the lookup of the market: it returns the values of the first bet named "Match Winner", a fault at the first bet with no name or values, and an empty list when every bet carries a name other than "Match Winner" |
| Odds.WinOddsIgnoresLater | Rementada_alert.py:72 | bets after the one that ends the lookup are never read |
| Odds.MarketQuotesReadsFirstOnly | Rementada_alert.py:71-72 | `MarketQuotes`: only the first entry of the response and its first bookmaker are consulted |
| Odds.DecidingQuoteFirstStop | Rementada_alert.py:73-91 | `DecidingQuote`, the inner loop: the first quote that is not another team's decides: a fault if it has no "value", else that quote; none at all exactly when every quote names another team |
| Odds.FirstStop | Rementada_alert.py:73-74 | when some quote is not another team's, the inner loop stops at a definite index with only other teams before it |
| Odds.DecidingQuoteNamesTeam | Rementada_alert.py:74 | a quote the loop settles on is one of the quotes and names the leading team |
| Odds.DecidingQuoteIgnoresLater | Rementada_alert.py:91 | after the deciding quote, even one below 1.40, the `break` leaves the rest unread |
| Alert.MessageFallbacks | Rementada_alert.py:76-83 | the message shows "Unknown League" when the league or its name is missing or empty, and the name itself otherwise; the same for the country with "Unknown Country" |
| Alert.TeamsLineMentions | Rementada_alert.py:82 | the teams line names the home and the away team |
| Alert.LeagueLineMentions | Rementada_alert.py:83 | the league line names the league and its country, or their fallbacks |
| Alert.MinuteLineMentions | Rementada_alert.py:84 | the minute line carries "Minute: m'" for the elapsed minute m |
| Alert.ScoreLineMentions | Rementada_alert.py:85 | the score line carries "h - a" and so each side's goals |
| Alert.OddsLineMentions | Rementada_alert.py:86 | the odds line names the leading team and ends with "<team> Win Odds: <quote>", the quote exactly as the API wrote it |
| Alert.MessageMentions | Rementada_alert.py:80-87 | `Message`, the alert text: it opens with the headline, names teams, league, country, minute, score and leading team, and ends with the odds line |
| Alert.TextsAt | Rementada_alert.py:88 | the texts of a list of alerts hold, in place `i`, the text of alert `i` |
| Alert.MessagesAt | Rementada_alert.py:88 | the `i`-th message sent is the message of the `i`-th alert |
| Alert.EvaluateMatch | Rementada_alert.py:49-93 | the loop body with the inner quote loop and its `break` decides exactly what `Evaluate` decides |
| Alert.RunAlerts | Rementada_alert.py:44-93 | the pass returns the log, messages and fetches of `Run`; the loaded log is a prefix of the saved one; one id is appended per message; no appended id was already in the log; the `i`-th message sent is the text of `Run`'s `i`-th alert |
| Alert.ApplyExtends | Rementada_alert.py:88-89 | one verdict keeps everything so far and appends at most one id, one alert and one fetch, naming this match |
| Alert.EvaluateAlert | Rementada_alert.py:50-89 | an alert is raised only for an unseen fixture that meets the whole rule |
| Alert.RunAppendOnly | Rementada_alert.py:89 | the log only grows by appending, one id per alert |
| Alert.RunExtends | Rementada_alert.py:88-90 | log and alerts after a prefix of the matches are prefixes of the final ones, so each save writes a prefix of the final log |
| Alert.RunAtMostOnce | Rementada_alert.py:50-51 | each appended id is new to the log, even when a fixture is listed twice |
| Alert.JustifiedStep | Rementada_alert.py:48-89 | deciding one more match keeps every alert traced to a qualifying match that carries the logged id |
| Alert.RunAlertsJustified | Rementada_alert.py:44-89 | `Run`, the pass, is sound: every alert sent, with the id logged beside it, comes from a match that met the whole rule |
| Alert.RunComplete | Rementada_alert.py:44-89 | `Run` is complete: every match meeting the whole rule ends up in the log, alerted then or already before |
| Alert.RunQueriesOnlyTriggered | Rementada_alert.py:50-66 | odds are fetched only for fixtures not in the loaded log, in the first half at 2-0 or 0-2 |
| Alert.EvaluateFetches | Rementada_alert.py:50-66 | odds are fetched exactly for unseen first-half fixtures at 2-0 or 0-2 |
| Alert.LeaderScored | Rementada_alert.py:63 | `LeadingTeam`: at 2-0 the leading team is the home side, at 0-2 the away side |
| Alert.AlertExactly | Rementada_alert.py:49-93 | `Evaluate`, the loop body: a match raises an alert exactly when it is unseen, in the first half and at 2-0 or 0-2, its market is readable, and the quote the inner loop stops at names the leader and reads as at least 1.40 |
| Alert.AlertNotice | Rementada_alert.py:75-86 | an alert reports the match, its minute (at most 45) and its leading team, and quotes, as written, the odds of the first quote the inner loop stops at, which names that team and is at least 1.40 |
| Alert.QuoteVerdictOutcomes | Rementada_alert.py:75-91 | `QuoteVerdict`, the deciding quote: an alert quoting its text exactly when it reads as at least 1.40, below the threshold when it reads as less, the error branch when "odd" is missing or the text is not decimal text |
| Alert.ClearsHundredths | Rementada_alert.py:75 | a two-decimal quote clears 1.40 exactly when it is at least 140 hundredths |
| Alert.ClearsTenths | Rementada_alert.py:75 | a one-decimal quote clears 1.40 exactly when it is at least 14 tenths |
| Alert.ClearsWhole | Rementada_alert.py:75 | a whole-number quote clears 1.40 exactly when it is at least 2 |
| Scenarios.OddsOfOneForty | Rementada_alert.py:75 | "1.40" passes: the comparison is inclusive |
| Scenarios.OddsOfOnePointFour | Rementada_alert.py:75 | "1.4" passes like "1.40" |
| Scenarios.OddsOfOneThirtyNine | Rementada_alert.py:75 | "1.39" fails |
| Scenarios.WholeOdds | Rementada_alert.py:75 | "2" passes and "1" fails |
| Scenarios.QuotedMarket | Rementada_alert.py:71-72 | the lookup passes over another market and reads the "Match Winner" quotes |
| Scenarios.HomeQuotesDecide | Rementada_alert.py:73-74 | the home side's quote decides for the home side; a team that is never quoted gets no quote |
| Scenarios.HomeLeadVerdict | Rementada_alert.py:62-89 | a first-half 2-0 with a readable quote ends in an alert or below the threshold, depending only on the quote |
| Scenarios.AlertAtOneFiftyFive | Rementada_alert.py:48-90 | 2-0 at minute 30 quoted 1.55: one alert, the id logged, the odds fetched |
| Scenarios.NoAlertAtOneTwenty | Rementada_alert.py:66-75 | the same match quoted 1.20: odds fetched, nothing sent or logged |
| Scenarios.DuplicateAlertedOnce | Rementada_alert.py:50-51 | a fixture listed twice in one pass is alerted once and fetched once |
| Scenarios.LoggedFixtureSkipped | Rementada_alert.py:50-51 | a fixture already in the loaded log changes nothing and is not fetched |
| Scenarios.MinuteBoundary | Rementada_alert.py:54-56 | minute 45 still counts; minute 46 and an unknown minute do not |
| Scenarios.ScoreTrigger | Rementada_alert.py:62-63 | 3-0, 2-1 and 1-0 do not fire; 0-2 looks up the away side |
| Scenarios.Malformed | Rementada_alert.py:67-68 | an empty response is skipped; an empty bookmaker list, a missing key or an unreadable quote ends in the error branch |
| Scenarios.FixtureNames | Rementada_alert.py:82-83 | the names the message carries for fixture 555 are Alpha FC, Beta United, Premier League and England |
| Scenarios.FixtureMinute | Rementada_alert.py:84 | the minute the message carries for fixture 555 reads "Minute: 30'" |
| Scenarios.FixtureScore | Rementada_alert.py:85 | the score the message carries for fixture 555 reads "2 - 0" |
| Scenarios.FixtureOdds | Rementada_alert.py:86 | the message for fixture 555 ends "Alpha FC Win Odds: 1.55" |
| Scenarios.AlertText | Rementada_alert.py:80-87 | the alert for fixture 555 opens with the headline, names both teams, the competition, minute 30 and the score 2 - 0, and ends with the quote 1.55 |

## Left out

- HTTP: the live-fixtures request (lines 34-37), the odds request (lines 39-42) and the post to the messaging API (lines 25-32) are left out. Their responses are parameters, and a sent message is an appended text. The API key, bot token, chat id and request headers (lines 5-11) are not modelled.
- File I/O: `load_sent_log` and `save_sent_log` (lines 15-23) are not modelled. The loaded log is the parameter `sentLog`. The saved log is the returned `log`. `Alert.RunExtends` shows that each save along the way writes a prefix of it.
- Exceptions from I/O: an exception raised by `send_alert` or `save_sent_log` inside the `try` block is not modelled. It would be caught at line 92. When it comes from `send_alert`, the id would not be appended. The model assumes sending and saving succeed.
- Errors outside the `try` block are not modelled. Fixture records are assumed to carry "fixture", "id", "status", "goals" and "teams" with names, so the KeyErrors of lines 49-64 cannot happen.
- Goals are integers. The JSON `null` the API sends before kick-off would compare unequal to 2 and 0, as a non-trigger score does; this case is not modelled separately.
- League: `league` is absent (`None`) or an object. A JSON `null` league would raise inside the `try` block at line 77; this is not modelled.
- Quote values are strings or absent. Non-string JSON values in "value", "odd" or "name" are not modelled.
- The printed error of line 93 is not modelled. Its cause is kept as the `Fault` of `ParseError`.
- Numerals.ParseDecimalAccepts: states the accepted texts of the model, which are fewer than those Python's `float` accepts (see the next line).
- Numerals.ParseDecimal: accepts only digits with at most one decimal point. Python's `float` also accepts a sign, surrounding whitespace, an exponent, underscores between digits, non-ASCII decimal digits (such as the fullwidth "１.５"), and "inf", "infinity" and "nan" in any case. The model reads all of these as a fault, because the odds API writes quotes as plain decimals.
- Alert.QuoteVerdictOutcomes: compares the quote with 1.40 exactly, as do `Alert.ClearsHundredths`, `Alert.ClearsTenths` and `Alert.ClearsWhole`. Python compares binary floats, so texts that round onto 1.40, such as "1.3999999999999999999", pass there but fail here. Floating point is out of scope.
