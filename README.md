# gamebot-service scoring and sessions, in Dafny

A model of the core of the gamebot webhook service (a single Flask file,
`app.py`). The service keeps a log of games played in a chat channel. Each
game is a scoreboard, an ordered list of player names from winner to last
place. Games are grouped into sessions. The model covers two parts.

- **Scoring engine** (module `Scoring`).
  - `get_wins` becomes the method `GetWins`. It is proved against the
    function `WinsOf`, a fold over the game list that mirrors the loop.
  - `get_winner` becomes the function `GetWinner`. It sorts the
    `(wins, name)` pairs with an insertion sort under Python's tuple order
    and takes the last one. The pairs are listed in the dictionary's
    insertion order, which is the order of each player's first win.
  - `summarize` becomes the method `Summarize`. Its nested loops are proved
    against the folds `Points` and `Appearances`.
  - Lemmas relate these folds to independent per-player definitions. Win
    counts are the multiset count of first places. Appearances are the
    multiset count over all scoreboard names. Points are the per-rank gain
    `Gain`. The lemmas also cover key sets, totals (through the map sum
    `MapSums.Sum`), bounds and the tie-break.
  - Python's string `<` is `StringOrder.Less`. It compares code points, and
    a proper prefix is smaller. The module proves that it is a strict total
    order.
- **Session and game-log state machine** (module `Sessions`).
  - `Session` is a class. Its id and start time are constants. `End` stamps
    `endTime`, and logging a game bumps `gameCount`.
  - `Tracker` is a class holding `app.history['games']`,
    `app.history['sessions']` and `app.state['session']`.
  - `Tracker.Valid()` is the invariant kept by every operation: while a
    session is current, its `gameCount` equals the number of logged records
    that carry its id.
  - `Tracker.Open()` says that the current session has no end time and is
    not yet in the history. Every operation keeps it except the failing
    path of `end_session` as written (see Findings).

`uuid.uuid4()` and `time.asctime()` are parameters. The id must be unused
by every logged game and closed session. That requirement applies only when
a session is about to be created, which is the only time the source calls
`uuid4`. For `this_sessions_games` that means only when no session is
current and the game history is non-empty.

Records and sessions are the JSON dictionaries of `Record.json()` and
`Session.json()`, written as the datatypes `GameRecord` and
`SessionRecord`. JSON `null` is `None`.

Three behaviours of the code are easy to miss:
- Logging a game does not reject an empty scoreboard. A blank `/gameover`
  text splits to `[]` and is logged as it is. `get_wins` then fails on that
  record (`Error.EmptyScoreboard`).
- Ending a session with no games is not handled. It raises (see Findings).
- `this_sessions_games` creates a session only when the game history is
  non-empty. The filter is lazy, and its predicate calls `this_session()`
  once per record.

`Summarize`'s bound is stated per appearance (`PointsCap`), not per game. A
name can occur twice in one scoreboard (`"A A B".split()`), and then the
per-game bound does not hold. When the names of a scoreboard are distinct,
`RankPoints` gives each rank exactly `N - n`.

## Model

| member | source | states |
|---|---|---|
| `Scoring.GetWins` | app.py:122-130 | Fails (EmptyScoreboard) exactly when some scoreboard is empty; otherwise returns the dictionary built one win per game for `scoreboard[0]` (`WinsOf`) |
| `Scoring.WinsCount` | app.py:122-130 | A name is a key of the wins exactly when it is the first place of some game, and its count is the number of games it won |
| `Scoring.WinsTotal` | app.py:122-130 | Every win count is at least 1 and the counts add up to the number of games |
| `Scoring.InsertAdds` | app.py:134 | Inserting a pair adds exactly that pair to the list, as a multiset |
| `Scoring.InsertAscending` | app.py:134 | Inserting a pair into an ascending list keeps it ascending under the `(wins, name)` tuple order |
| `Scoring.Sort` | app.py:134 | `sorted` keeps the number of pairs |
| `Scoring.SortAscending` | app.py:134 | The sort yields an ascending permutation of the `(wins, name)` pairs |
| `Scoring.SortedLastIsMax` | app.py:134-135 | `sorted(pairs)[-1]` is one of the pairs and no pair is greater under the tuple order |
| `Scoring.WinOrder` | app.py:127-129 | The insertion-ordered key list of `wins` holds exactly the keys of `wins` |
| `Scoring.Items` | app.py:134 | `[(v, k) for (k, v) in wins.items()]`: one `(count, name)` pair per listed key, in order |
| `Scoring.GetWinner` | app.py:133-135 | `get_winner`: sorts the `(wins, name)` pairs and takes the last name; a winner is always a key of the wins of a non-empty list of scored games (the full choice is in `WinnerFails` and `WinnerIsBest`) |
| `Scoring.WinnerFails` | app.py:133-135 | `get_winner` fails with EmptyScoreboard exactly when a scoreboard is empty, fails with NoGames exactly when there are no games, and succeeds otherwise |
| `Scoring.LastItemIsBest` | app.py:134-135 | Given a list holding every key of the wins, the name in the last sorted `(count, name)` pair has the highest count, and every other name with that count is smaller |
| `Scoring.WinnerIsBest` | app.py:133-135 | The winner is a key of the wins with the highest count; any other player with the same count has a lexicographically smaller name |
| `Scoring.WinnerExample` | app.py:133-135 | With A winning two games and B one, the winner is A |
| `Scoring.TieBreakExample` | app.py:133-135 | With Ann and Bob on one win each, the winner is Bob, the greater name |
| `StringOrder.Transitive` | app.py:134 | Python's string `<` is transitive |
| `StringOrder.Total` | app.py:134 | Any two distinct strings are ordered by Python's string `<` one way or the other |
| `Scoring.Summarize` | app.py:138-159 | Returns `player_points` and `player_games` as built by the nested loops (`Points`, `Appearances`) |
| `Scoring.AwardRanksAt` | app.py:147-151 | After the first `j` ranks of a game, a name's points grew by its per-rank gain and the keys are the old keys plus the names seen |
| `Scoring.CountPlayersAt` | app.py:153-156 | After the first `j` ranks of a game, a name's game count grew by its number of appearances among them |
| `Scoring.Gain` | app.py:147-151 | The points a name earns from one scoreboard are never negative |
| `Scoring.SummaryAt` | app.py:143-159 | Both maps have as keys exactly the names that appear in some scoreboard; a player's points are the sum of its per-game gains, and its game count is its number of appearances |
| `Scoring.SameKeys` | app.py:147-156 | `player_points` and `player_games` have the same key set |
| `Scoring.PointsBounds` | app.py:145-151 | Every player's points are at least 0 and at most `N - 1` per appearance in an `N`-player game |
| `Scoring.RankPoints` | app.py:145-151 | In a game of `N` distinct names, the name at 1-indexed rank `n` gains exactly `N - n` points (winner `N - 1`, last 0) |
| `Scoring.GamePointsTotal` | app.py:145-151 | One `N`-player game adds `N(N-1)/2` points in total |
| `Scoring.PointsTotal` | app.py:143-157 | Over all games, the points add up to `N(N-1)/2` per game |
| `Scoring.SummarizeExample` | app.py:138-159 | The game `A B C` gives points A 2, B 1, C 0 and one game each |
| `Sessions.SessionGames` | app.py:80-82 | The filter of `this_sessions_games`: never longer than the history, and every record kept carries the session's id (`SessionGamesMembers`, `SessionGamesAppend` give membership and order) |
| `Sessions.SessionGamesMembers` | app.py:80-82 | A record is kept by the session filter exactly when it is in the history and carries the session's id |
| `Sessions.SessionGamesAppend` | app.py:80-82 | The filter keeps history order: filtering a concatenation concatenates the filtered parts |
| `Sessions.UnusedIdNoGames` | app.py:41 | A fresh session id has no logged games |
| `Sessions.Session.constructor` | app.py:38-43 | A new session has the given id and start time, no end time and a game count of 0 |
| `Sessions.Session.Json` | app.py:49-53 | `Session.json()`: a snapshot holding the session's id, start time, end time and game count |
| `Sessions.Session.End` | app.py:45-53 | Ending stamps the end time, keeps the count, and returns the session's snapshot with that end time |
| `Sessions.Tracker.constructor` | app.py:57-69 | Start-up state: the loaded games and sessions, and no current session |
| `Sessions.Tracker.ThisSession` | app.py:72-77 | With a current session, returns it and changes nothing; otherwise installs and returns a new session with the fresh id, count 0 and no end time; keeps the invariant |
| `Sessions.Tracker.StartSession` | app.py:90-98 | Returns the start time of the current session; starting twice keeps the first session and its start time |
| `Sessions.Tracker.ThisSessionsGames` | app.py:80-82 | Returns exactly the current session's records in history order; creates a session only when the history is non-empty |
| `Sessions.Tracker.LogGame` | app.py:205-208 | Appends exactly one record tagged with the current session's id, raises that session's count by one, leaves the closed sessions unchanged, and keeps count equal to the number of records with that id |
| `Sessions.Tracker.EndSessionAsWritten` | app.py:101-119 | Appends one closed copy of the session (same id, start and count, end time set) and leaves the games unchanged. On a winner it clears the current session. When `get_winner` fails, for instance with zero games, the closed session stays current |
| `Sessions.Tracker.EndSession` | app.py:101-119 | As above, but the current session is always cleared, and the winner is absent when `get_winner` fails (always so with zero games) |
| `Sessions.EndEmptySessionTwiceAsWritten` | app.py:109-118 | `start`, `end`, `start`, `end` with no games appends the same session id twice and both ends fail |
| `Sessions.EndEmptySessionTwice` | app.py:109-118 | The same sequence with the corrected end closes two distinct sessions, each with 0 games and no winner |

## Left out

- Flask routing, request parsing, `jsonify` and logging (app.py:173-191, 194-203, 223-224).
- The rest of `log_result` after the logging steps (app.py:210-221): the reply message and the `scoreboard[0]` of line 213, which raises on a blank scoreboard after the record is already stored.
- `save_history` and the start-up `json.load` (app.py:67-69, 85-87): file I/O and JSON serialisation. A save does not change the in-memory state, so the model omits it. The loaded history is a constructor parameter.
- `pretty_print` (app.py:162-170): floating-point averages, float formatting, and an order among equal averages that depends on insertion order.
- The message strings of `start_session`, `end_session` and the command handlers. The model returns the values that feed them: the start time, the end time, the game count and the winner.
- `uuid.uuid4()` and `time.asctime()`: they are parameters. The id is assumed fresh, meaning unused by any game record or closed session.
- Python exceptions become `Result.Failure`. The two `IndexError`s are told apart as `EmptyScoreboard` and `NoGames`. The HTTP 500 reply that Flask sends on an exception is not modelled.
- The local `total_games` of `summarize` (app.py:140, 157) is never read, so it is not modelled.
- The insertion order of `player_points` and `player_games` is not modelled, because only `pretty_print` observes it.
- Concurrent requests are not modelled. Each operation runs to completion before the next one starts.

## Findings

| source | as written | input that shows it | evidently intended | confidence | as-written member | corrected member |
|---|---|---|---|---|---|---|
| app.py:109-118 | The session is stamped and appended to `sessions` before `get_winner` runs. `get_winner` raises on a session with no games, so line 118 never clears it. The closed session stays current, and the next `end` appends the same session id again. | `/session start`, then `/session end` twice, with no `/gameover` in between | Every `end` closes and clears the session. A session without games reports no winner. | high; not executed | `Sessions.EndEmptySessionTwiceAsWritten` | `Sessions.Tracker.EndSession` |
