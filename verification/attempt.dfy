/** One attempt, column by column: what it leaves in the row, the log, the account, the maps and the owner's chat,
    told from the forum's answer and the settings as they are stored. */
module Attempts {
  import opened Types
  import opened Tables
  import opened Bumping
  import opened Int64

  /** Account known, its secret readable, its forum one of the two. */
  ghost predicate CanStart(s: Sched, t: Thread) {
    && t.accountId in s.db.accounts && s.db.accounts[t.accountId].readable
    && (t.forum == "lolz" || t.forum == "mipped")
  }

  lemma OtherwiseNothing(s: Sched, t: Thread, e: Env)
    requires !CanStart(s, t)
    ensures Bump(s, t, e) == s
  {
  }

  /** The pause after each answer, in nanoseconds: half an hour, a minute up to an hour by the number of errors
      before, the forum's wait and a minute, or the interval and the jitter rolled. */
  function Pause(s: Sched, t: Thread, e: Env): Time {
    match e.answer
    case AuthError => 1_800_000_000_000
    case OtherError(_) =>
      var errors := if t.id in s.backoff then s.backoff[t.id] else 0;
      if errors == 0 then 60_000_000_000
      else if errors == 1 then 300_000_000_000
      else if errors == 2 then 900_000_000_000
      else 3_600_000_000_000
    case Reply(ok, _, wait) =>
      if !ok && wait > 0 then wait + 60_000_000_000
      else (t.intervalSec + if s.settings.jitterSec > 0 then e.roll % s.settings.jitterSec else 0) * 1_000_000_000
  }

  lemma PauseIsIdeal(s: Sched, t: Thread, e: Env)
    ensures Pause(s, t, e) == IdealDelay(e.answer, t.intervalSec, Jitter(s.settings, e.roll), Count(s.backoff, t.id))
  {
  }

  lemma NextIsPaused(s: Sched, t: Thread, e: Env)
    requires Fits(Pause(s, t, e))
    ensures NextDue(s, t, e.answer, e.roll, e.at) == e.at + Pause(s, t, e)
  {
    PauseIsIdeal(s, t, e);
    DelayIsIdealIff(e.answer, t.intervalSec, Jitter(s.settings, e.roll), Count(s.backoff, t.id));
  }

  /** The row: every column is the copy's, but the schedule, and the last bump when the reply says ok. */
  lemma RowAfterAttempt(s: Sched, t: Thread, e: Env)
    requires CanStart(s, t) && t.id in s.db.threads && e.saved.row && Fits(Pause(s, t, e))
    ensures var d := Bump(s, t, e).db.threads;
      && d.Keys == s.db.threads.Keys && (forall id :: id in d && id != t.id ==> d[id] == s.db.threads[id])
      && d[t.id] == Thread(t.id, t.accountId, t.forum, t.threadRef, t.title, t.intervalSec, t.enabled,
                           Some(e.at + Pause(s, t, e)),
                           match e.answer
                           case AuthError => t.lastBumpAt
                           case OtherError(_) => t.lastBumpAt
                           case Reply(ok, _, _) => if ok then Some(e.at) else t.lastBumpAt)
  {
    BumpFrame(s, t, e);
    NextIsPaused(s, t, e);
  }

  /** The log entry: ok exactly when the reply says so. */
  lemma LogAfterAttempt(s: Sched, t: Thread, e: Env)
    requires CanStart(s, t) && t.id in s.db.threads && e.saved.log && Fits(Pause(s, t, e))
    ensures Bump(s, t, e).db.logs == s.db.logs + [
              BumpLog(s.db.logSeq + 1, t.id, e.at,
                      match e.answer
                      case AuthError => false
                      case OtherError(_) => false
                      case Reply(ok, _, _) => ok,
                      match e.answer
                      case AuthError => "auth failed"
                      case OtherError(text) => "error: " + text
                      case Reply(_, message, _) => message,
                      Some(e.at + Pause(s, t, e)))]
  {
    var s1 := s.(lastReq := Some(Resume(s.lastReq, RequestDelay(s.settings), e.measuredAt, e.lag, e.cancelled)));
    var next := NextDue(s1, t, e.answer, e.roll, e.at);
    RowRecordedFrame(s.db, t, s.db.accounts[t.accountId], e.answer, e.saved, e.at, next);
    LogSeqStays(s.db, t, s.db.accounts[t.accountId], e.answer, e.saved, e.at, next);
    NextIsPaused(s, t, e);
    assert next == NextDue(s, t, e.answer, e.roll, e.at);
  }

  lemma LogSeqStays(db: Db, t: Thread, acc: Account, a: Answer, saved: Saved, at: Time, next: Time)
    ensures RowRecorded(db, t, acc, a, saved, at, next).logSeq == db.logSeq
    ensures RowRecorded(db, t, acc, a, saved, at, next).threads.Keys == db.threads.Keys
  {
    AccountAfterFrame(db, t, acc, a);
  }

  /** The account: refused credentials mark it, an error-free reply marks it ok, other errors leave it. */
  lemma AccountAfterAttempt(s: Sched, t: Thread, e: Env)
    requires CanStart(s, t) && e.saved.status
    ensures var before, after := s.db.accounts[t.accountId], Bump(s, t, e).db.accounts;
      && after.Keys == s.db.accounts.Keys && (forall id :: id in after && id != t.accountId ==> after[id] == s.db.accounts[id])
      && after[t.accountId] == Account(before.forum, before.name, before.readable,
                                       match e.answer
                                       case AuthError => StatusAuthFailed
                                       case OtherError(_) => before.status
                                       case Reply(_, _, _) => StatusOk)
  {
    var s1 := s.(lastReq := Some(Resume(s.lastReq, RequestDelay(s.settings), e.measuredAt, e.lag, e.cancelled)));
    RecordedRows(s1, t, s.db.accounts[t.accountId], e.answer, e.roll, e.saved, e.at);
  }

  /** The failures in a row: none after a reply that says ok, one more after anything else; other threads' are
      left alone. */
  lemma FailuresAfterAttempt(s: Sched, t: Thread, e: Env, id: nat)
    requires CanStart(s, t)
    ensures var before, after := if id in s.failures then s.failures[id] else 0,
        if id in Bump(s, t, e).failures then Bump(s, t, e).failures[id] else 0;
      after == if id != t.id then before
               else match e.answer
                    case AuthError => before + 1
                    case OtherError(_) => before + 1
                    case Reply(ok, _, _) => if ok then 0 else before + 1
  {
  }

  /** The ladder: one rung up after an error, back to the ground after any reply, as it was after refused
      credentials. */
  lemma LadderAfterAttempt(s: Sched, t: Thread, e: Env, id: nat)
    requires CanStart(s, t)
    ensures var before, after := if id in s.backoff then s.backoff[id] else 0,
        if id in Bump(s, t, e).backoff then Bump(s, t, e).backoff[id] else 0;
      after == if id != t.id then before
               else match e.answer
                    case AuthError => before
                    case OtherError(_) => if before < 4 then before + 1 else 4
                    case Reply(_, _, _) => 0
  {
  }

  /** The owner's chat, when there is one and notifications are on: the account's name after refused credentials,
      and the thread's title, or its reference when it has none, after the third failure in a row. */
  lemma ChatAfterAttempt(s: Sched, t: Thread, e: Env)
    requires CanStart(s, t)
    ensures var third := (t.id in s.failures && s.failures[t.id] == 2)
        && match e.answer case AuthError => true case OtherError(_) => true case Reply(ok, _, _) => !ok;
      Bump(s, t, e).sent == s.sent +
        if !s.notifier || !s.settings.notifications then []
        else (if e.answer.AuthError? then [AccountLost(s.db.accounts[t.accountId].name)] else [])
             + if third then [Streak(if t.title != "" then t.title else t.threadRef)] else []
  {
  }

  /** The gate, in the unit of its setting: an attempt that is not cancelled comes at least so many milliseconds
      after the last one, and no later than that unless it was asked for later; without a setting it does not
      wait. */
  lemma GateInMilliseconds(s: Sched, t: Thread, e: Env)
    requires CanStart(s, t)
    ensures var mark := Bump(s, t, e).lastReq;
      && mark.Some? && mark.value >= e.measuredAt
      && (s.lastReq.None? || e.cancelled ==> mark.value == e.measuredAt + e.lag)
      && (s.lastReq.Some? && !e.cancelled && s.settings.requestDelayMs > 0 ==>
            var free := s.lastReq.value + s.settings.requestDelayMs * 1_000_000;
            mark.value == e.lag + if free > e.measuredAt then free else e.measuredAt)
      && (s.lastReq.Some? && s.lastReq.value <= e.measuredAt && s.settings.requestDelayMs <= 0 ==>
            mark.value == e.measuredAt + e.lag)
  {
  }

  /** The jitter takes every value below the setting, and no other. */
  lemma JitterRange(s: Settings, roll: nat)
    ensures if s.jitterSec > 0 then Jitter(s, roll) < s.jitterSec else Jitter(s, roll) == 0
    ensures roll < s.jitterSec ==> Jitter(s, roll) == roll
  {
  }

  /** The due list, column by column. */
  lemma DueListColumns(db: Db, now: Time, out: seq<Thread>)
    requires IsDueList(db, now, out)
    ensures forall k :: 0 <= k < |out| ==> out[k].id in db.threads && out[k] == db.threads[out[k].id]
    ensures forall id :: id in db.threads ==>
              ((exists k :: 0 <= k < |out| && out[k].id == id) <==>
               db.threads[id].enabled && match db.threads[id].nextBumpAt case None => true case Some(at) => at <= now)
    ensures forall j, k :: 0 <= j < k < |out| ==> out[j].id != out[k].id
    ensures forall j, k :: 0 <= j < k < |out| && out[j].nextBumpAt.Some? ==>
              out[k].nextBumpAt.Some? && out[j].nextBumpAt.value <= out[k].nextBumpAt.value
  {
  }
}
