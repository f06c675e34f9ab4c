/** The scheduler as an object over the store. Its fields are those of the running process: a restart
    is a new object over the same store. */
module Scheduling {
  import opened Types
  import opened Tables
  import opened Bumping
  import opened Sqlite
  import opened Int64
  import opened Seqs
  import opened Importing
  import Lolz
  import MippedList

  /** What the forum's server would show: whether it tells the account's own identifier, and its two listings. */
  datatype Remote = Remote(known: bool, lolz: Lolz.Server, mipped: MippedList.Server)

  /** The age limit of an import that begins at `now`; none when the setting is not positive. */
  function Cutoff(days: int, now: Time): Option<Time> {
    if days > 0 then Some(now - days * 24 * 3600 * SECOND) else None
  }

  /** What the forum client lists of an account's own threads. */
  function Discovery(forum: string, cutoff: Option<Time>, r: Remote): Lolz.Outcome {
    if !r.known then Lolz.Refused
    else if forum == LOLZ then Lolz.Crawl(r.lolz, cutoff, 1, true, [])
    else
      var (hits, whole) := MippedList.Crawl(r.mipped, 1, []);
      if whole then Lolz.Listed(MippedList.Listing(hits)) else Lolz.Broken(MippedList.Listing(hits))
  }

  /** The interval a new thread of this forum gets. */
  function IntervalOf(settings: Settings, forum: string): int {
    if forum == LOLZ then settings.lolzIntervalSec else settings.defaultIntervalSec
  }

  datatype ImportResult = ImportFailed | Imported(added: nat, found: nat)

  class Scheduler {
    const store: SQLite
    var backoff: map<nat, nat>
    var failures: map<nat, nat>
    var lastReq: Option<Time>
    var settings: Settings
    var notifier: bool
    var sent: seq<Notice>

    ghost function View(): Sched
      reads this, store
    {
      Sched(store.Contents(), backoff, failures, lastReq, settings, notifier, sent)
    }

    constructor (store: SQLite, settings: Settings)
      ensures this.store == store
      ensures View() == Sched(store.Contents(), map[], map[], None, settings, false, [])
    {
      this.store := store;
      this.settings := settings;
      backoff, failures, lastReq := map[], map[], None;
      notifier, sent := false, [];
    }

    method Notify(n: Notice)
      modifies this`sent
      ensures sent == if View().Listening() then old(sent) + [n] else old(sent)
    {
      if !notifier {
        return;
      }
      if !settings.notifications {
        return;
      }
      sent := sent + [n];
    }

    /** The pacing gate, once the lock is held: see pacing.dfy for the protocol between callers. */
    method Pace(measuredAt: Time, lag: nat, cancelled: bool)
      modifies this`lastReq
      ensures lastReq == Some(Resume(old(lastReq), RequestDelay(settings), measuredAt, lag, cancelled))
      ensures !cancelled && old(lastReq).Some? ==> lastReq.value >= old(lastReq).value + RequestDelay(settings)
    {
      var now := measuredAt + lag;
      if lastReq.Some? {
        var wait := lastReq.value + RequestDelay(settings) - measuredAt;
        if wait > 0 && !cancelled {
          now := measuredAt + wait + lag;
        }
      }
      lastReq := Some(now);
    }

    method TakeBackoff(id: nat) returns (d: Time)
      modifies this`backoff
      ensures d == LADDER[Rung(Count(old(backoff), id))]
      ensures forall text :: backoff == NextBackoff(old(backoff), id, OtherError(text))
    {
      var idx := Count(backoff, id);
      if idx >= |LADDER| {
        idx := |LADDER| - 1;
      }
      d := LADDER[idx];
      backoff := backoff[id := idx + 1];
    }

    method TrackFailure(t: Thread, ok: bool)
      modifies this`failures, this`sent
      ensures failures == NextFailures(old(failures), t.id, ok)
      ensures sent == old(sent) +
                      if View().Listening() && !ok && Count(failures, t.id) == FAIL_NOTIFY then [Streak(DisplayName(t))] else []
    {
      if ok {
        failures := failures - {t.id};
        return;
      }
      failures := failures[t.id := Count(failures, t.id) + 1];
      if failures[t.id] == FAIL_NOTIFY {
        Notify(Streak(DisplayName(t)));
      }
    }

    /** `saved` says whether the write gets through. */
    method MarkAccount(id: nat, status: Status, saved: bool)
      modifies store`accounts
      ensures store.Contents() == if saved then SetStatus(old(store.Contents()), id, status) else old(store.Contents())
    {
      if saved {
        store.SetAccountStatus(id, status);
      }
    }

    /** Interval and jitter in the arithmetic of durations. */
    method Interval(sec: int, jitter: nat) returns (d: Time)
      ensures d == Wrap((sec + jitter) * SECOND)
    {
      WrapOfSum(sec * SECOND, jitter * SECOND);
      d := Wrap(Wrap(sec * SECOND) + Wrap(jitter * SECOND));
    }

    /** Acts on the forum's answer: the account status, the ladder, the auth notice and the schedule. */
    method Digest(t: Thread, acc: Account, a: Answer, roll: nat, saved: bool, now: Time) returns (nextAt: Time, logOk: bool)
      modifies this`backoff, this`sent, store`accounts
      ensures store.Contents() == if saved then AccountAfter(old(store.Contents()), t, acc, a) else old(store.Contents())
      ensures backoff == NextBackoff(old(backoff), t.id, a)
      ensures sent == old(sent) + if View().Listening() && a.AuthError? then [AccountLost(acc.name)] else []
      ensures nextAt == now + Delay(a, t.intervalSec, Jitter(settings, roll), Count(old(backoff), t.id))
      ensures logOk == a.Bumped()
    {
      logOk := false;
      match a {
        case AuthError =>
          MarkAccount(t.accountId, StatusAuthFailed, saved);
          nextAt := now + AUTH_RETRY_DELAY;
          Notify(AccountLost(acc.name));
        case OtherError(_) =>
          var d := TakeBackoff(t.id);
          nextAt := now + d;
        case Reply(ok, _, retryAfter) =>
          if acc.status != StatusOk {
            MarkAccount(t.accountId, StatusOk, saved);
          }
          backoff := backoff - {t.id};
          var d;
          if ok {
            logOk := true;
            d := Interval(t.intervalSec, Jitter(settings, roll));
          } else if retryAfter > 0 {
            d := Wrap(retryAfter + RETRY_BUFFER);
          } else {
            d := Interval(t.intervalSec, Jitter(settings, roll));
          }
          nextAt := now + d;
      }
    }

    /** Persists the outcome: the row, its log entry, the failure counter. Errors are passed over. */
    method Conclude(t: Thread, acc: Account, a: Answer, roll: nat, saved: Saved, now: Time)
      modifies this, store
      ensures View() == Settle(old(View()), t, acc, a, roll, saved, now)
    {
      ghost var s := View();
      var nextAt, logOk := Digest(t, acc, a, roll, saved.status, now);
      assert nextAt == NextDue(s, t, a, roll, now);
      Save(t, acc, a, saved, nextAt, now, s.db);
      TrackFailure(t, logOk);
      AlertsInTurn(s, t, acc, a);
    }

    /** The row and its log entry. `db` is the store before the account's status was written. */
    method Save(t: Thread, acc: Account, a: Answer, saved: Saved, nextAt: Time, now: Time, ghost db: Db)
      requires store.Contents() == if saved.status then AccountAfter(db, t, acc, a) else db
      modifies store
      ensures var d := RowRecorded(db, t, acc, a, saved, now, nextAt);
        store.Contents() == if saved.log then AddLog(d, t.id, now, a.Bumped(), a.LogMessage(), Some(nextAt)) else d
    {
      var row := t.(nextBumpAt := Some(nextAt));
      if a.Bumped() {
        row := row.(lastBumpAt := Some(now));
      }
      Persist(row, now, a.Bumped(), a.LogMessage(), nextAt, saved);
    }

    method Persist(row: Thread, at: Time, ok: bool, message: string, nextAt: Time, saved: Saved)
      modifies store
      ensures var d := if saved.row then PutThread(old(store.Contents()), row) else old(store.Contents());
        store.Contents() == if saved.log then AddLog(d, row.id, at, ok, message, Some(nextAt)) else d
    {
      if saved.row {
        var updated := store.UpdateThread(row);
      }
      if saved.log {
        var added := store.AddBumpLog(row.id, at, ok, message, Some(nextAt));
      }
    }

    /** One attempt on the copy `t`; None when it stops before reaching the forum. */
    method BumpThread(t: Thread, e: Env) returns (result: Option<Answer>)
      modifies this, store
      ensures View() == Bump(old(View()), t, e)
      ensures result == if old(Reaches(store.Contents(), t)) then Some(e.answer) else None
    {
      var found := store.GetAccount(t.accountId);
      if found.None? {
        return None;
      }
      if t.forum != LOLZ && t.forum != MIPPED {
        return None;
      }
      if !found.value.readable {
        return None;
      }
      Pace(e.measuredAt, e.lag, e.cancelled);
      Conclude(t, found.value, e.answer, e.roll, e.saved, e.at);
      result := Some(e.answer);
    }

    /** One tick of the bump loop. It is cancelled once `budget` rows have been visited. */
    method ProcessDue(now: Time, env: nat -> Env, budget: nat) returns (due: seq<Thread>)
      requires Sound(store.Contents())
      modifies this, store
      ensures IsDueList(old(store.Contents()), now, due)
      ensures View() == Pass(old(View()), due, env, if budget < |due| then budget else |due|)
    {
      due := store.ListDueThreads(now);
      var k := 0;
      while k < |due|
        invariant 0 <= k <= |due| && k <= budget
        invariant View() == Pass(old(View()), due, env, k)
      {
        if k == budget {
          return;
        }
        var _ := BumpThread(due[k], env(k));
        k := k + 1;
      }
    }

    /** The manual action of the panel: it does not look at the schedule. */
    method BumpNow(id: nat, e: Env) returns (result: Option<Answer>)
      modifies this, store
      ensures View() == if id in old(store.threads) then Bump(old(View()), old(store.threads)[id], e) else old(View())
      ensures result.Some? <==> id in old(store.threads) && Reaches(old(store.Contents()), old(store.threads)[id])
    {
      var t := store.GetThread(id);
      if t.None? {
        return None;
      }
      result := BumpThread(t.value, e);
    }

    function DefaultInterval(forum: string): int
      reads this
    {
      IntervalOf(settings, forum)
    }

    method ImportOne(job: Job, d: Lolz.Discovered, io: bool, have: set<string>, added: nat)
      returns (have': set<string>, added': nat)
      modifies store`threads, store`thrSeq
      ensures Merged(store.Contents(), have', added') == MergeOne(Merged(old(store.Contents()), have, added), job, d, io)
    {
      have', added' := have, added;
      var key := job.key(d.ref);
      if key in have {
        return;
      }
      have' := have + {key};
      if !io {
        return;
      }
      var created := store.CreateThread(NewRow(job, d));
      if created.None? {
        return;
      }
      added' := added + 1;
    }

    method ImportAll(job: Job, found: seq<Lolz.Discovered>, io: nat -> bool) returns (added: nat)
      requires Sound(store.Contents())
      modifies store`threads, store`thrSeq
      ensures var m := Merge(old(store.Contents()), job, found, io, |found|);
        store.Contents() == m.db && added == m.added
    {
      ghost var db := store.Contents();
      var existing := store.ListThreadsByAccount(job.accountId);
      var have := ExistingKeys(existing, job.key);
      KeysOfRows(db, job, existing);
      added := 0;
      for i := 0 to |found|
        invariant Merged(store.Contents(), have, added) == Merge(db, job, found, io, i)
      {
        have, added := ImportOne(job, found[i], io(i), have, added);
      }
    }

    method MyThreads(forum: string, now: Time, r: Remote) returns (listing: Lolz.Outcome)
      ensures listing == Discovery(forum, Cutoff(settings.importMaxAgeDays, now), r)
    {
      if !r.known {
        return Lolz.Refused;
      }
      var fetches;
      if forum == LOLZ {
        listing, fetches := Lolz.MyThreads(r.lolz, Cutoff(settings.importMaxAgeDays, now));
      } else {
        listing, fetches := MippedList.MyThreads(r.mipped);
      }
    }

    /** Imports the own threads of account `id`, whose record was read earlier as `acc`; the age limit and the
        default interval are those of the live settings. */
    method ImportThreads(id: nat, acc: Account, e: Env, r: Remote, io: nat -> bool) returns (result: ImportResult)
      requires Sound(store.Contents())
      modifies this`lastReq, store`threads, store`thrSeq
      ensures var listing := Discovery(acc.forum, Cutoff(settings.importMaxAgeDays, e.at), r);
        && (result.Imported? <==> acc.forum in {LOLZ, MIPPED} && acc.readable && listing.Listed?)
        && (result.Imported? ==>
              var m := Merge(old(store.Contents()), JobFor(id, acc.forum, old(DefaultInterval(acc.forum))),
                             listing.out, io, |listing.out|);
              store.Contents() == m.db && result == Imported(m.added, |listing.out|))
        && (result.ImportFailed? ==> store.Contents() == old(store.Contents()))
    {
      if acc.forum != LOLZ && acc.forum != MIPPED {
        return ImportFailed;
      }
      if !acc.readable {
        return ImportFailed;
      }
      Pace(e.measuredAt, e.lag, e.cancelled);
      var listing := MyThreads(acc.forum, e.at, r);
      if !listing.Listed? {
        return ImportFailed;
      }
      var added := ImportAll(JobFor(id, acc.forum, DefaultInterval(acc.forum)), listing.out, io);
      result := Imported(added, |listing.out|);
    }
  }

  /** The notices of one answer go out one after the other. */
  lemma AlertsInTurn(s: Sched, t: Thread, acc: Account, a: Answer)
    ensures s.sent + Alerts(s, t, acc, a) ==
            s.sent + (if s.Listening() && a.AuthError? then [AccountLost(acc.name)] else [])
            + if s.Listening() && !a.Bumped() && Count(s.failures, t.id) + 1 == FAIL_NOTIFY then [Streak(DisplayName(t))] else []
  {
    Regroup(s.sent, if s.Listening() && a.AuthError? then [AccountLost(acc.name)] else [],
            if s.Listening() && !a.Bumped() && Count(s.failures, t.id) + 1 == FAIL_NOTIFY then [Streak(DisplayName(t))] else []);
  }

  method ExistingKeys(existing: seq<Thread>, key: string -> string) returns (have: set<string>)
    ensures have == set t | t in existing :: key(t.threadRef)
  {
    have := {};
    for i := 0 to |existing|
      invariant have == set t | t in existing[..i] :: key(t.threadRef)
    {
      assert forall t :: t in existing[..i + 1] <==> t in existing[..i] || t == existing[i];
      have := have + {key(existing[i].threadRef)};
    }
    assert existing[..|existing|] == existing;
  }

  lemma KeysOfRows(db: Db, job: Job, rows: seq<Thread>)
    requires Sound(db)
    requires forall t :: t in rows <==> t.id in db.threads && db.threads[t.id] == t && t.accountId == job.accountId
    ensures Keys(db, job) == set t | t in rows :: job.key(t.threadRef)
  {
    forall id | Owns(db, job.accountId, id) ensures db.threads[id] in rows {
    }
    forall t | t in rows ensures Owns(db, job.accountId, t.id) {
    }
  }
}
