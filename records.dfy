/** Value types shared by the scoring engine and the session state machine:
    the JSON shapes of a game record and of a session, and the failures
    the Python code raises as exceptions. */
module Records {

  datatype Option<+T> = None | Some(value: T)

  datatype Result<+R, +E> = Success(value: R) | Failure(error: E)

  /** The two ways the scoring code fails. Both are an IndexError in Python:
      `scoreboard[0]` on an empty scoreboard inside `get_wins`, and
      `sorted_results[-1]` on an empty list inside `get_winner`. */
  datatype Error = EmptyScoreboard | NoGames

  /** `Record(...).json()`: a game's capture time, its scoreboard ordered from
      winner to last place, and the id of the session it was logged in
      (`None` stands for JSON `null`, which `Record` allows). */
  datatype GameRecord = GameRecord(timestamp: string, scoreboard: seq<string>, sessionId: Option<string>)

  /** `Session.json()`: a snapshot of a session's fields. */
  datatype SessionRecord = SessionRecord(sessionId: string, startTime: string, endTime: Option<string>, gameCount: int)
}
