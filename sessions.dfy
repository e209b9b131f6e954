/** The session lifecycle and game log of app.py: the `Session` object, the
    process-wide `app.state['session']` and the `app.history` document with
    its `games` and `sessions` lists. `uuid.uuid4()` and `time.asctime()`
    are parameters: a fresh id and timestamps supplied by the caller. */
module Sessions {
  import opened Records
  import Scoring

  /** `this_sessions_games` without its call to `this_session`: the records
      logged under session `id`, in history order. */
  function SessionGames(games: seq<GameRecord>, id: string): (r: seq<GameRecord>)
    ensures |r| <= |games|
    ensures forall i :: 0 <= i < |r| ==> r[i].sessionId == Some(id)
    decreases |games|
  {
    if games == [] then []
    else
      var last := games[|games| - 1];
      SessionGames(games[..|games| - 1], id) + (if last.sessionId == Some(id) then [last] else [])
  }

  /** The filter keeps a record exactly when it carries the session's id. */
  lemma {:induction false} SessionGamesMembers(games: seq<GameRecord>, id: string, g: GameRecord)
    ensures g in SessionGames(games, id) <==> g in games && g.sessionId == Some(id)
    decreases |games|
  {
    if games != [] {
      var prefix := games[..|games| - 1];
      SessionGamesMembers(prefix, id, g);
      assert games == prefix + [games[|games| - 1]];
    }
  }

  /** The filter keeps the order of the history: filtering a concatenation
      concatenates the filtered parts. */
  lemma {:induction false} SessionGamesAppend(a: seq<GameRecord>, b: seq<GameRecord>, id: string)
    ensures SessionGames(a + b, id) == SessionGames(a, id) + SessionGames(b, id)
    decreases |b|
  {
    if b != [] {
      var b' := b[..|b| - 1];
      assert (a + b)[..|a + b| - 1] == a + b';
      assert (a + b)[|a + b| - 1] == b[|b| - 1];
      SessionGamesAppend(a, b', id);
    } else {
      assert a + b == a;
    }
  }

  /** A session id that no logged game and no closed session carries yet, as
      `uuid.uuid4()` is relied on to give. */
  ghost predicate UnusedId(games: seq<GameRecord>, sessions: seq<SessionRecord>, id: string) {
    && (forall i :: 0 <= i < |games| ==> games[i].sessionId != Some(id))
    && (forall i :: 0 <= i < |sessions| ==> sessions[i].sessionId != id)
  }

  lemma {:induction false} UnusedIdNoGames(games: seq<GameRecord>, sessions: seq<SessionRecord>, id: string)
    requires UnusedId(games, sessions, id)
    ensures SessionGames(games, id) == []
    decreases |games|
  {
    if games != [] {
      UnusedIdNoGames(games[..|games| - 1], sessions, id);
    }
  }

  /** What `end_session` reports: the end time, the game count and the winner. */
  datatype EndSummary = EndSummary(endTime: string, gameCount: int, winner: Option<string>)

  /** `Session`: its id and start time never change; `end` stamps `endTime`
      and the game logger bumps `gameCount`. */
  class Session {
    const sessionId: string
    const startTime: string
    var endTime: Option<string>
    var gameCount: int

    /** `Session()`, with `uuid4()` and `asctime()` given as `id` and `now`. */
    constructor (id: string, now: string)
      ensures sessionId == id && startTime == now
      ensures endTime == None && gameCount == 0
    {
      sessionId := id;
      startTime := now;
      endTime := None;
      gameCount := 0;
    }

    /** `Session.json()`. */
    function Json(): (j: SessionRecord)
      reads this
      ensures j.sessionId == sessionId && j.startTime == startTime
      ensures j.endTime == endTime && j.gameCount == gameCount
    {
      SessionRecord(sessionId, startTime, endTime, gameCount)
    }

    /** `Session.end()`: stamps the end time and returns the snapshot. */
    method End(now: string) returns (j: SessionRecord)
      modifies this
      ensures endTime == Some(now) && gameCount == old(gameCount)
      ensures j == SessionRecord(sessionId, startTime, Some(now), gameCount)
    {
      endTime := Some(now);
      j := Json();
    }
  }

  /** The process state of app.py: `app.history['games']`,
      `app.history['sessions']` and `app.state['session']`. */
  class Tracker {
    var games: seq<GameRecord>
    var sessions: seq<SessionRecord>
    var current: Session?

    /** While a session is current, its game count is the number of logged
        games that carry its id. */
    ghost predicate Valid()
      reads this, current
    {
      current != null ==> current.gameCount == |SessionGames(games, current.sessionId)|
    }

    /** The current session is still open and not yet in the history. */
    ghost predicate Open()
      reads this, current
    {
      current != null ==>
        && current.endTime == None
        && forall i :: 0 <= i < |sessions| ==> sessions[i].sessionId != current.sessionId
    }

    /** The state at start-up: the history as loaded from the JSON file, and
        no session. */
    constructor (loadedGames: seq<GameRecord>, loadedSessions: seq<SessionRecord>)
      ensures games == loadedGames && sessions == loadedSessions && current == null
      ensures Valid() && Open()
    {
      games := loadedGames;
      sessions := loadedSessions;
      current := null;
    }

    /** `this_session`: the current session, created first if there is none.
        `freshId` and `now` are used only when one is created. */
    method ThisSession(freshId: string, now: string) returns (s: Session)
      requires Valid()
      requires current == null ==> UnusedId(games, sessions, freshId)
      modifies this
      ensures Valid() && current == s
      ensures games == old(games) && sessions == old(sessions)
      ensures old(current) != null ==> s == old(current)
      ensures old(current) == null ==>
        && fresh(s) && s.sessionId == freshId && s.startTime == now
        && s.endTime == None && s.gameCount == 0
      ensures old(Open()) ==> Open()
    {
      if current == null {
        current := new Session(freshId, now);
        UnusedIdNoGames(games, sessions, freshId);
      }
      s := current;
    }

    /** `start_session`: the start time of the (possibly new) current session. */
    method StartSession(freshId: string, now: string) returns (startTime: string)
      requires Valid()
      requires current == null ==> UnusedId(games, sessions, freshId)
      modifies this
      ensures Valid() && current != null && startTime == current.startTime
      ensures games == old(games) && sessions == old(sessions)
      ensures old(current) != null ==> current == old(current)
      ensures old(current) == null ==> fresh(current) && current.sessionId == freshId && startTime == now
      ensures old(Open()) ==> Open()
    {
      var s := ThisSession(freshId, now);
      startTime := s.startTime;
    }

    /** `this_sessions_games`. The filter is lazy and its predicate calls
        `this_session` once per record, so a session is created only when
        the history holds at least one record. */
    method ThisSessionsGames(freshId: string, now: string) returns (rs: seq<GameRecord>)
      requires Valid()
      requires current == null && games != [] ==> UnusedId(games, sessions, freshId)
      modifies this
      ensures Valid()
      ensures games == old(games) && sessions == old(sessions)
      ensures old(current) != null ==> current == old(current)
      ensures games == [] ==> current == old(current) && rs == []
      ensures games != [] ==> current != null && rs == SessionGames(games, current.sessionId)
      ensures old(current) == null && current != null ==>
        fresh(current) && current.sessionId == freshId && current.gameCount == 0 && rs == []
      ensures old(Open()) ==> Open()
    {
      if games == [] {
        rs := [];
      } else {
        var s := ThisSession(freshId, now);
        rs := SessionGames(games, s.sessionId);
      }
    }

    /** The game-logging steps of `log_result`: a record tagged with the
        current session's id is appended and that session's count goes up
        by one. The scoreboard is taken as given, even when empty. */
    method LogGame(scoreboard: seq<string>, freshId: string, now: string, stamp: string)
      requires Valid()
      requires current == null ==> UnusedId(games, sessions, freshId)
      modifies this, current
      ensures Valid() && current != null
      ensures games == old(games) + [GameRecord(stamp, scoreboard, Some(current.sessionId))]
      ensures sessions == old(sessions)
      ensures old(current) != null ==>
        && current == old(current)
        && current.gameCount == old(current.gameCount) + 1
        && current.endTime == old(current.endTime)
      ensures old(current) == null ==>
        && fresh(current) && current.sessionId == freshId && current.startTime == now
        && current.gameCount == 1 && current.endTime == None
      ensures old(Open()) ==> Open()
    {
      var s := ThisSession(freshId, now);
      var record := GameRecord(stamp, scoreboard, Some(s.sessionId));
      s := ThisSession(freshId, now);
      s.gameCount := s.gameCount + 1;
      SessionGamesAppend(games, [record], s.sessionId);
      games := games + [record];
    }

    /** `end_session` as written: the session is closed and appended to the
        history before the winner is computed; when `get_winner` raises, the
        exception skips the reset of `app.state['session']`, so the closed
        session stays current. */
    method EndSessionAsWritten(freshId: string, now: string, endStamp: string)
      returns (r: Result<EndSummary, Error>)
      requires Valid()
      requires current == null ==> UnusedId(games, sessions, freshId)
      modifies this, current
      ensures Valid()
      ensures games == old(games)
      ensures |sessions| == |old(sessions)| + 1 && sessions[..|old(sessions)|] == old(sessions)
      ensures var closed := sessions[|old(sessions)|];
        && closed.endTime == Some(endStamp)
        && (old(current) != null ==>
              && closed.sessionId == old(current.sessionId)
              && closed.startTime == old(current.startTime)
              && closed.gameCount == old(current.gameCount))
        && (old(current) == null ==>
              closed.sessionId == freshId && closed.startTime == now && closed.gameCount == 0)
        && r.Success? == Scoring.GetWinner(SessionGames(games, closed.sessionId)).Success?
        && (r.Success? ==>
              && current == null
              && r.value == EndSummary(endStamp, closed.gameCount,
                                       Some(Scoring.GetWinner(SessionGames(games, closed.sessionId)).value)))
        && (r.Failure? ==>
              && current != null
              && current.sessionId == closed.sessionId
              && current.endTime == Some(endStamp)
              && current.gameCount == closed.gameCount
              && r.error == Scoring.GetWinner(SessionGames(games, closed.sessionId)).error)
        && (closed.gameCount == 0 ==> r == Failure(NoGames))
      ensures r.Failure? && old(current) != null ==> current == old(current)
      ensures r.Failure? && old(current) == null ==> fresh(current)
    {
      var s := ThisSession(freshId, now);
      var closed := s.End(endStamp);
      sessions := sessions + [closed];
      var gs := ThisSessionsGames(freshId, now);
      if games == [] {
        assert gs == SessionGames(games, s.sessionId);
      }
      Scoring.WinnerFails(gs);
      var winner := Scoring.GetWinner(gs);
      if winner.Failure? {
        return Failure(winner.error);
      }
      r := Success(EndSummary(endStamp, s.gameCount, Some(winner.value)));
      current := null;
    }

    /** `end_session` as evidently intended: the closed session leaves the
        state whether or not a winner exists, and a session without a
        winner reports none. */
    method EndSession(freshId: string, now: string, endStamp: string) returns (r: EndSummary)
      requires Valid()
      requires current == null ==> UnusedId(games, sessions, freshId)
      modifies this, current
      ensures Valid() && Open() && current == null
      ensures games == old(games)
      ensures |sessions| == |old(sessions)| + 1 && sessions[..|old(sessions)|] == old(sessions)
      ensures var closed := sessions[|old(sessions)|];
        && closed.endTime == Some(endStamp)
        && (old(current) != null ==>
              && closed.sessionId == old(current.sessionId)
              && closed.startTime == old(current.startTime)
              && closed.gameCount == old(current.gameCount))
        && (old(current) == null ==>
              closed.sessionId == freshId && closed.startTime == now && closed.gameCount == 0)
        && r.endTime == endStamp && r.gameCount == closed.gameCount
        && r.winner == (var w := Scoring.GetWinner(SessionGames(games, closed.sessionId));
                        if w.Success? then Some(w.value) else None)
        && (closed.gameCount == 0 ==> r.winner == None)
    {
      var s := ThisSession(freshId, now);
      var closed := s.End(endStamp);
      sessions := sessions + [closed];
      var gs := ThisSessionsGames(freshId, now);
      if games == [] {
        assert gs == SessionGames(games, s.sessionId);
      }
      Scoring.WinnerFails(gs);
      var winner := Scoring.GetWinner(gs);
      r := EndSummary(endStamp, s.gameCount, if winner.Success? then Some(winner.value) else None);
      current := null;
    }
  }

  /** `start` then `end` with no game in between, twice over, with
      `end_session` as written: the first `end` raises in `get_winner`, the
      closed session stays current, and the second `end` appends that same
      session to the history again instead of a new one. */
  method EndEmptySessionTwiceAsWritten(id1: string, id2: string, t0: string, t1: string, t2: string)
    returns (history: seq<SessionRecord>, first: Result<EndSummary, Error>, second: Result<EndSummary, Error>)
    ensures first == Failure(NoGames) && second == Failure(NoGames)
    ensures |history| == 2
    ensures history[0].sessionId == id1 && history[1].sessionId == id1
    ensures history[0].endTime == Some(t1) && history[1].endTime == Some(t2)
  {
    var tracker := new Tracker([], []);
    var started := tracker.StartSession(id1, t0);
    first := tracker.EndSessionAsWritten(id1, t0, t1);
    started := tracker.StartSession(id2, t0);
    second := tracker.EndSessionAsWritten(id2, t0, t2);
    history := tracker.sessions;
  }

  /** The same sequence with `EndSession`: each `end` closes its own session,
      reports no winner, and the next `start` opens a new one. */
  method EndEmptySessionTwice(id1: string, id2: string, t0: string, t1: string, t2: string)
    returns (history: seq<SessionRecord>, first: EndSummary, second: EndSummary)
    requires id1 != id2
    ensures first == EndSummary(t1, 0, None) && second == EndSummary(t2, 0, None)
    ensures |history| == 2
    ensures history[0] == SessionRecord(id1, t0, Some(t1), 0)
    ensures history[1] == SessionRecord(id2, t0, Some(t2), 0)
  {
    var tracker := new Tracker([], []);
    var started := tracker.StartSession(id1, t0);
    first := tracker.EndSession(id1, t0, t1);
    started := tracker.StartSession(id2, t0);
    second := tracker.EndSession(id2, t0, t2);
    history := tracker.sessions;
  }
}
