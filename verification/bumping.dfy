/**
 One bump attempt as a value: which threads can be attempted, how each kind of forum answer moves
 the schedule, the back-off ladder, the failure counter and the notices to the owner.
 The class in scheduler.dfy is proved against these functions.
 */
module Bumping {
  import opened Types
  import opened Tables
  import opened Int64

  /** What the forum client hands back. Nothing is assumed about it. */
  datatype Answer =
    | AuthError
    | OtherError(text: string)
    | Reply(ok: bool, message: string, retryAfter: Time)
  {
    predicate Bumped() { Reply? && ok }

    predicate ErrorFree() { Reply? }

    function LogMessage(): string {
      match this
      case AuthError => "auth failed"
      case OtherError(text) => "error: " + text
      case Reply(_, message, _) => message
    }
  }

  datatype Notice = AccountLost(account: string) | Streak(thread: string)

  /** Everything the scheduler keeps: the store, the two in-memory maps, the pacing mark, the live
      settings, whether a notifier is registered, and what it has been told. */
  datatype Sched = Sched(
    db: Db, backoff: map<nat, nat>, failures: map<nat, nat>, lastReq: Option<Time>,
    settings: Settings, notifier: bool, sent: seq<Notice>)
  {
    predicate Listening() { notifier && settings.notifications }
  }

  /** Which writes after an answer get through: the account status, the row, the log entry. A disk error or an
      expired context stops any of them; the code goes on. */
  datatype Saved = Saved(status: bool, row: bool, log: bool)

  /** What the outside world decides about one attempt: the clock at the gate, the overshoot of its timer,
      cancellation, the answer, the clock after the answer, the random roll, and which writes get through. */
  datatype Env = Env(
    measuredAt: Time, lag: nat, cancelled: bool, answer: Answer, at: Time, roll: nat, saved: Saved)

  function Count(m: map<nat, nat>, id: nat): nat {
    if id in m then m[id] else 0
  }

  /** A uniform roll in [0, jitterSec), or 0 when jitter is off. */
  function Jitter(s: Settings, roll: nat): (j: nat)
    ensures s.jitterSec > 0 ==> j < s.jitterSec
  {
    if s.jitterSec <= 0 then 0 else roll % s.jitterSec
  }

  function RequestDelay(s: Settings): nat {
    if s.requestDelayMs <= 0 then 0 else s.requestDelayMs * 1_000_000
  }

  /** When the pacing gate lets a caller through: the rest of the delay, unless cancelled. */
  function Resume(lastReq: Option<Time>, delay: nat, measuredAt: Time, lag: nat, cancelled: bool): Time {
    if lastReq.Some? && lastReq.value + delay > measuredAt && !cancelled
    then lastReq.value + delay + lag
    else measuredAt + lag
  }

  /** The rung used when the map holds `stored`. */
  function Rung(stored: nat): nat {
    if stored >= |LADDER| then |LADDER| - 1 else stored
  }

  /** How long after the answer the next attempt is due. Sums and products of durations wrap at 64 bits. */
  function Delay(a: Answer, intervalSec: int, jitter: nat, stored: nat): Time {
    match a
    case AuthError => AUTH_RETRY_DELAY
    case OtherError(_) => LADDER[Rung(stored)]
    case Reply(ok, _, retryAfter) =>
      Wrap(if !ok && retryAfter > 0 then retryAfter + RETRY_BUFFER else (intervalSec + jitter) * SECOND)
  }

  function NextBackoff(backoff: map<nat, nat>, id: nat, a: Answer): map<nat, nat> {
    match a
    case AuthError => backoff
    case OtherError(_) => backoff[id := Rung(Count(backoff, id)) + 1]
    case Reply(_, _, _) => backoff - {id}
  }

  function NextFailures(failures: map<nat, nat>, id: nat, ok: bool): map<nat, nat> {
    if ok then failures - {id} else failures[id := Count(failures, id) + 1]
  }

  function AccountAfter(db: Db, t: Thread, acc: Account, a: Answer): Db {
    match a
    case AuthError => SetStatus(db, t.accountId, StatusAuthFailed)
    case OtherError(_) => db
    case Reply(_, _, _) => if acc.status != StatusOk then SetStatus(db, t.accountId, StatusOk) else db
  }

  function DisplayName(t: Thread): string {
    if t.title == "" then t.threadRef else t.title
  }

  /** Messages one answer causes, when the notifier listens. */
  function Alerts(s: Sched, t: Thread, acc: Account, a: Answer): seq<Notice> {
    if !s.Listening() then []
    else
      (if a.AuthError? then [AccountLost(acc.name)] else []) +
      (if !a.Bumped() && Count(s.failures, t.id) + 1 == FAIL_NOTIFY then [Streak(DisplayName(t))] else [])
  }

  /** The row an attempt writes back over the copy it started from. */
  function RowAfter(t: Thread, a: Answer, at: Time, next: Time): Thread {
    t.(nextBumpAt := Some(next), lastBumpAt := if a.Bumped() then Some(at) else t.lastBumpAt)
  }

  function NextDue(s: Sched, t: Thread, a: Answer, roll: nat, at: Time): Time {
    at + Delay(a, t.intervalSec, Jitter(s.settings, roll), Count(s.backoff, t.id))
  }

  /** The account status and the whole row, as far as they are written. */
  function RowRecorded(db: Db, t: Thread, acc: Account, a: Answer, saved: Saved, at: Time, next: Time): Db {
    var d := if saved.status then AccountAfter(db, t, acc, a) else db;
    if saved.row then PutThread(d, RowAfter(t, a, at, next)) else d
  }

  /** The store once the answer is in: account status, whole row, log entry. */
  function Recorded(s: Sched, t: Thread, acc: Account, a: Answer, roll: nat, saved: Saved, at: Time): Db {
    var next := NextDue(s, t, a, roll, at);
    var d := RowRecorded(s.db, t, acc, a, saved, at, next);
    if saved.log then AddLog(d, t.id, at, a.Bumped(), a.LogMessage(), Some(next)) else d
  }

  /** Everything that happens once the answer is in. */
  function Settle(s: Sched, t: Thread, acc: Account, a: Answer, roll: nat, saved: Saved, at: Time): Sched {
    s.(db := Recorded(s, t, acc, a, roll, saved, at),
       backoff := NextBackoff(s.backoff, t.id, a),
       failures := NextFailures(s.failures, t.id, a.Bumped()),
       sent := s.sent + Alerts(s, t, acc, a))
  }

  /** An attempt gets as far as the forum: account found, forum known, secret readable. */
  predicate Reaches(db: Db, t: Thread) {
    && t.accountId in db.accounts
    && t.forum in {LOLZ, MIPPED}
    && db.accounts[t.accountId].readable
  }

  function Bump(s: Sched, t: Thread, e: Env): Sched {
    if Reaches(s.db, t) then
      Settle(s.(lastReq := Some(Resume(s.lastReq, RequestDelay(s.settings), e.measuredAt, e.lag, e.cancelled))),
             t, s.db.accounts[t.accountId], e.answer, e.roll, e.saved, e.at)
    else s
  }

  // ----- the due list -----

  predicate Due(t: Thread, now: Time) {
    t.enabled && (t.nextBumpAt.None? || t.nextBumpAt.value <= now)
  }

  /** NULL sorts before every instant. */
  predicate NotAfter(a: Option<Time>, b: Option<Time>) {
    a.None? || (b.Some? && a.value <= b.value)
  }

  /** ORDER BY next_bump_at, each row once. */
  ghost predicate Ordered(out: seq<Thread>) {
    forall j, k :: 0 <= j < k < |out| ==>
      out[j].id != out[k].id && NotAfter(out[j].nextBumpAt, out[k].nextBumpAt)
  }

  /** `out` lists the due rows of `db`, each once, NULLs first and then by ascending schedule. Which
      of two equal rows comes first is left open. */
  ghost predicate IsDueList(db: Db, now: Time, out: seq<Thread>) {
    && (forall k :: 0 <= k < |out| ==>
          out[k].id in db.threads && out[k] == db.threads[out[k].id] && Due(out[k], now))
    && Ordered(out)
    && (forall id :: id in db.threads && Due(db.threads[id], now) ==> exists k :: 0 <= k < |out| && out[k].id == id)
  }

  // ----- a pass over the due list -----

  /** The scheduler after the first `n` rows of `due`. */
  function Pass(s: Sched, due: seq<Thread>, env: nat -> Env, n: nat): Sched
    requires n <= |due|
  {
    if n == 0 then s else Bump(Pass(s, due, env, n - 1), due[n - 1], env(n - 1))
  }

  /** What an attempt, and hence a pass, leaves as it was. */
  ghost predicate SameSetting(s: Sched, p: Sched) {
    && p.settings == s.settings
    && p.db.threads.Keys == s.db.threads.Keys
    && p.db.accounts.Keys == s.db.accounts.Keys
    && (forall a :: a in s.db.accounts ==> p.db.accounts[a].readable == s.db.accounts[a].readable)
  }

  lemma AccountAfterFrame(db: Db, t: Thread, acc: Account, a: Answer)
    ensures var d := AccountAfter(db, t, acc, a);
      && d.threads == db.threads && d.logs == db.logs && d.thrSeq == db.thrSeq && d.accounts.Keys == db.accounts.Keys
      && forall id :: id in db.accounts ==> d.accounts[id].readable == db.accounts[id].readable
  {
  }

  lemma RowRecordedFrame(db: Db, t: Thread, acc: Account, a: Answer, saved: Saved, at: Time, next: Time)
    ensures var d := RowRecorded(db, t, acc, a, saved, at, next);
      && d.accounts == (if saved.status then AccountAfter(db, t, acc, a) else db).accounts
      && d.logs == db.logs && d.thrSeq == db.thrSeq
      && d.threads == if saved.row && t.id in db.threads && t.accountId in db.accounts
                      then db.threads[t.id := RowAfter(t, a, at, next)] else db.threads
  {
    AccountAfterFrame(db, t, acc, a);
  }

  /** An answer changes no row but the one it is about, and that one only while its account stands and the write
      gets through. */
  lemma RecordedRows(s: Sched, t: Thread, acc: Account, a: Answer, roll: nat, saved: Saved, at: Time)
    ensures var d := Recorded(s, t, acc, a, roll, saved, at);
      && d.accounts == (if saved.status then AccountAfter(s.db, t, acc, a) else s.db).accounts && d.thrSeq == s.db.thrSeq
      && d.threads == if saved.row && t.id in s.db.threads && t.accountId in s.db.accounts
                      then s.db.threads[t.id := RowAfter(t, a, at, NextDue(s, t, a, roll, at))] else s.db.threads
  {
    RowRecordedFrame(s.db, t, acc, a, saved, at, NextDue(s, t, a, roll, at));
  }

  lemma BumpFrame(s: Sched, t: Thread, e: Env)
    ensures SameSetting(s, Bump(s, t, e))
    ensures forall id :: id in s.db.threads && id != t.id ==> Bump(s, t, e).db.threads[id] == s.db.threads[id]
    ensures forall id :: id != t.id ==> Count(Bump(s, t, e).backoff, id) == Count(s.backoff, id)
    ensures t.id in s.db.threads ==>
              Bump(s, t, e).db.threads[t.id] ==
              if Reaches(s.db, t) && e.saved.row then RowAfter(t, e.answer, e.at, NextDue(s, t, e.answer, e.roll, e.at))
              else s.db.threads[t.id]
  {
    if Reaches(s.db, t) {
      var acc := s.db.accounts[t.accountId];
      var s1 := s.(lastReq := Some(Resume(s.lastReq, RequestDelay(s.settings), e.measuredAt, e.lag, e.cancelled)));
      AccountAfterFrame(s.db, t, acc, e.answer);
      RecordedRows(s1, t, acc, e.answer, e.roll, e.saved, e.at);
      assert Bump(s, t, e).db == Recorded(s1, t, acc, e.answer, e.roll, e.saved, e.at);
      assert NextDue(s1, t, e.answer, e.roll, e.at) == NextDue(s, t, e.answer, e.roll, e.at);
    }
  }

  /** Rows not yet visited keep their row and their rung. */
  lemma {:induction false} PassFrame(s: Sched, due: seq<Thread>, env: nat -> Env, n: nat, id: nat)
    requires n <= |due|
    ensures SameSetting(s, Pass(s, due, env, n))
    ensures id in s.db.threads && (forall k :: 0 <= k < n ==> due[k].id != id) ==>
              Pass(s, due, env, n).db.threads[id] == s.db.threads[id]
    ensures (forall k :: 0 <= k < n ==> due[k].id != id) ==>
              Count(Pass(s, due, env, n).backoff, id) == Count(s.backoff, id)
  {
    if n == 0 {
    } else {
      PassFrame(s, due, env, n - 1, id);
      BumpFrame(Pass(s, due, env, n - 1), due[n - 1], env(n - 1));
    }
  }

  /** The schedule the k-th attempt of a pass sets, in terms of the state the pass began with. */
  function PassNext(s: Sched, due: seq<Thread>, env: nat -> Env, k: nat): Time
    requires k < |due|
  {
    NextDue(s, due[k], env(k).answer, env(k).roll, env(k).at)
  }

  lemma LastInPass(s: Sched, due: seq<Thread>, env: nat -> Env, k: nat)
    requires k < |due| && due[k].id in s.db.threads && s.db.threads[due[k].id] == due[k]
    requires forall j :: 0 <= j < k ==> due[j].id != due[k].id
    ensures due[k].id in Pass(s, due, env, k + 1).db.threads
    ensures Pass(s, due, env, k + 1).db.threads[due[k].id] ==
            if Reaches(s.db, due[k]) && env(k).saved.row then RowAfter(due[k], env(k).answer, env(k).at, PassNext(s, due, env, k))
            else due[k]
  {
    var p := Pass(s, due, env, k);
    PassFrame(s, due, env, k, due[k].id);
    BumpFrame(p, due[k], env(k));
    assert Reaches(p.db, due[k]) == Reaches(s.db, due[k]);
  }

  /** The row of the k-th due thread once the pass is over: untouched when the attempt could not start,
      otherwise rescheduled from its own answer and the rung it had when the pass began. */
  lemma {:induction false} PassRow(s: Sched, due: seq<Thread>, env: nat -> Env, n: nat, k: nat)
    requires k < n <= |due| && due[k].id in s.db.threads && s.db.threads[due[k].id] == due[k]
    requires forall j :: 0 <= j < n && j != k ==> due[j].id != due[k].id
    ensures due[k].id in Pass(s, due, env, n).db.threads
    ensures Pass(s, due, env, n).db.threads[due[k].id] ==
            if Reaches(s.db, due[k]) && env(k).saved.row then RowAfter(due[k], env(k).answer, env(k).at, PassNext(s, due, env, k))
            else due[k]
  {
    if k < n - 1 {
      PassRow(s, due, env, n - 1, k);
      BumpFrame(Pass(s, due, env, n - 1), due[n - 1], env(n - 1));
    } else {
      LastInPass(s, due, env, k);
    }
  }

  /** A pass drains its due set. After it, a thread is still due as of the pass's start if and only if
      it was due before and its attempt could not start, or its row could not be written, or its new schedule
      is not later. */
  lemma PassDrains(s: Sched, due: seq<Thread>, env: nat -> Env, now: Time, id: nat)
    requires IsDueList(s.db, now, due) && id in s.db.threads
    ensures id in Pass(s, due, env, |due|).db.threads
    ensures Due(Pass(s, due, env, |due|).db.threads[id], now) <==>
            exists k :: 0 <= k < |due| && due[k].id == id &&
                        (!Reaches(s.db, due[k]) || !env(k).saved.row || PassNext(s, due, env, k) <= now)
    ensures !Due(s.db.threads[id], now) ==> Pass(s, due, env, |due|).db.threads[id] == s.db.threads[id]
  {
    PassFrame(s, due, env, |due|, id);
    if k :| 0 <= k < |due| && due[k].id == id {
      PassRow(s, due, env, |due|, k);
      assert forall j :: 0 <= j < |due| && due[j].id == id ==> j == k;
    }
  }

  /** The delay an answer asks for, without wrap-around. */
  function IdealDelay(a: Answer, intervalSec: int, jitter: nat, stored: nat): Time {
    match a
    case AuthError => 1800 * SECOND
    case OtherError(_) => LADDER[Rung(stored)]
    case Reply(ok, _, retryAfter) =>
      if !ok && retryAfter > 0 then retryAfter + 60 * SECOND else (intervalSec + jitter) * SECOND
  }

  /** The delay is the one asked for if and only if that fits in 64 bits. */
  lemma DelayIsIdealIff(a: Answer, intervalSec: int, jitter: nat, stored: nat)
    ensures Delay(a, intervalSec, jitter, stored) == IdealDelay(a, intervalSec, jitter, stored) <==>
              Fits(IdealDelay(a, intervalSec, jitter, stored))
  {
    WrapExact(IdealDelay(a, intervalSec, jitter, stored));
  }

  /** So with answers no earlier than the start, positive intervals, delays that fit, no attempt stopped early
      and no row write lost, nothing that was due is due any more. */
  lemma PassEmptiesDueSet(s: Sched, due: seq<Thread>, env: nat -> Env, now: Time, id: nat)
    requires IsDueList(s.db, now, due) && id in s.db.threads
    requires forall k :: 0 <= k < |due| ==>
               && Reaches(s.db, due[k]) && env(k).saved.row && due[k].intervalSec > 0 && env(k).at >= now
               && Fits(IdealDelay(env(k).answer, due[k].intervalSec, Jitter(s.settings, env(k).roll), Count(s.backoff, due[k].id)))
    ensures id in Pass(s, due, env, |due|).db.threads && !Due(Pass(s, due, env, |due|).db.threads[id], now)
  {
    PassDrains(s, due, env, now, id);
    forall k | 0 <= k < |due| ensures PassNext(s, due, env, k) > now {
      DelayIsIdealIff(env(k).answer, due[k].intervalSec, Jitter(s.settings, env(k).roll), Count(s.backoff, due[k].id));
    }
  }
}
