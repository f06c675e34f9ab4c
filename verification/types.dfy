/** The records of the bot and the constants of its scheduler. */
module Types {
  datatype Option<+T> = None | Some(value: T)

  /** An instant or a duration, in nanoseconds. */
  type Time = int

  const SECOND: Time := 1_000_000_000
  const RETRY_BUFFER: Time := 60 * SECOND
  const AUTH_RETRY_DELAY: Time := 30 * 60 * SECOND
  const FAIL_NOTIFY: nat := 3

  /** The back-off ladder: one minute, five minutes, a quarter of an hour, an hour. */
  const LADDER: seq<Time> := [60 * SECOND, 300 * SECOND, 900 * SECOND, 3600 * SECOND]

  const LOLZ := "lolz"
  const MIPPED := "mipped"

  datatype Status = StatusOk | StatusAuthFailed | StatusUnknown

  /** A forum account; `name` is its label. `readable` says whether its secret decrypts under the configured key. */
  datatype Account = Account(forum: string, name: string, readable: bool, status: Status)

  datatype Thread = Thread(
    id: nat, accountId: nat, forum: string, threadRef: string, title: string,
    intervalSec: int, enabled: bool, nextBumpAt: Option<Time>, lastBumpAt: Option<Time>)

  datatype BumpLog = BumpLog(id: nat, threadId: nat, at: Time, ok: bool, message: string, nextAt: Option<Time>)

  datatype Snapshot = Snapshot(id: nat, threadId: nat, at: Time, views: Option<int>, replies: Option<int>)

  datatype Settings = Settings(
    defaultIntervalSec: int, lolzIntervalSec: int, jitterSec: int, requestDelayMs: int,
    importMaxAgeDays: int, notifications: bool)
}
