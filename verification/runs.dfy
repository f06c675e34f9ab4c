/**
 Runs of the whole bot. The bump loop, any number of panel handlers and the stats loop interleave step by
 step: reading a row and writing it back are different steps, and so are starting an attempt and getting
 its answer. A restart may fall anywhere. Each thread carries the history of its finished attempts, which
 no code of the bot sees.
 */
module Runs {
  import opened Types
  import opened Tables
  import opened Bumping

  /** The bump loop; every other number is a panel handler or the stats loop. */
  const LOOP: nat := 0

  /** An attempt under way: the copy of the row and of the account it works on, when it started, and which
      start of its thread it is. */
  datatype Flight = Flight(copy: Thread, acc: Account, start: Time, nth: nat)

  /** An answered attempt: when it started, when it was answered, what decided its delay, in which life
      of the process, whether the owner was listening, what was sent, and which writes got through. */
  datatype Attempt = Attempt(
    start: Time, at: Time, answer: Answer, intervalSec: int, jitter: nat, stored: nat,
    boot: nat, listening: bool, pushed: seq<Notice>, saved: Saved)
  {
    function Due(): Time { at + Delay(answer, intervalSec, jitter, stored) }

    function Ideal(): Time { IdealDelay(answer, intervalSec, jitter, stored) }
  }

  /** An attempt started: when, in which life of the process, and what became of it. `done` is None until the
      answer is dealt with. */
  datatype Try = Try(start: Time, boot: nat, done: Option<Attempt>)

  /** The i-th answer of a thread. */
  datatype Place = Place(id: nat, i: nat)

  /** The process and its database, with what no code of the bot sees: each thread's answers and starts, and
      the answers of this life of the process in the order they came. */
  datatype World = World(
    s: Sched, clock: Time, queue: seq<Thread>, listedAt: Time, flights: map<nat, Flight>,
    held: map<nat, Thread>, boot: nat,
    hist: map<nat, seq<Attempt>>, tries: map<nat, seq<Try>>, told: seq<Place>)

  /** What a handler changes in the copy it holds. */
  datatype Edit = Retitle(title: string) | Toggle | SetInterval(sec: int)

  datatype Event =
    | Wait(d: nat)
    | Tick(order: seq<Thread>)
    | Launch
    | Manual(pid: nat, id: nat)
    | Answered(pid: nat, answer: Answer, roll: nat, saved: Saved)
    | Read(pid: nat, id: nat)
    | Write(pid: nat, edit: Edit)
    | NewAccount(acc: Account)
    | SetAccount(id: nat, acc: Account)
    | NewThread(t: Thread)
    | RemoveThread(id: nat)
    | RemoveAccount(id: nat)
    | TakeSnapshot(id: nat, views: Option<int>, replies: Option<int>)
    | Configure(settings: Settings, notifier: bool)
    | Restart

  function Edited(t: Thread, e: Edit): Thread {
    match e
    case Retitle(title) => t.(title := title)
    case Toggle => t.(enabled := !t.enabled)
    case SetInterval(sec) => t.(intervalSec := sec)
  }

  /** An edit in the panel changes one column of the copy. */
  lemma EditsOneColumn(t: Thread, title: string, sec: int)
    ensures Edited(t, Retitle(title)) ==
            Thread(t.id, t.accountId, t.forum, t.threadRef, title, t.intervalSec, t.enabled, t.nextBumpAt, t.lastBumpAt)
    ensures Edited(t, Toggle) ==
            Thread(t.id, t.accountId, t.forum, t.threadRef, t.title, t.intervalSec, !t.enabled, t.nextBumpAt, t.lastBumpAt)
    ensures Edited(t, SetInterval(sec)) ==
            Thread(t.id, t.accountId, t.forum, t.threadRef, t.title, sec, t.enabled, t.nextBumpAt, t.lastBumpAt)
  {
  }

  function HistOf(hist: map<nat, seq<Attempt>>, id: nat): seq<Attempt> {
    if id in hist then hist[id] else []
  }

  function Hist(w: World, id: nat): seq<Attempt> {
    HistOf(w.hist, id)
  }

  function Tries(w: World, id: nat): seq<Try> {
    if id in w.tries then w.tries[id] else []
  }

  function Close(ts: seq<Try>, n: nat, x: Attempt): seq<Try> {
    if n < |ts| then ts[n := ts[n].(done := Some(x))] else ts
  }

  ghost predicate Enabled(w: World, e: Event) {
    match e
    case Tick(order) => w.queue == [] && LOOP !in w.flights && IsDueList(w.s.db, w.clock, order)
    case Launch => w.queue != [] && LOOP !in w.flights
    case Manual(pid, id) => pid != LOOP && pid !in w.flights && id in w.s.db.threads
    case Answered(pid, _, _, _) => pid in w.flights
    case Read(pid, id) => pid !in w.held && id in w.s.db.threads
    case Write(pid, _) => pid in w.held
    case NewThread(t) => t.nextBumpAt.None? && t.lastBumpAt.None?
    case _ => true
  }

  /** Starting an attempt on a copy: nothing happens when it stops before the forum. */
  function Start(w: World, pid: nat, t: Thread): World {
    if Reaches(w.s.db, t) then
      w.(flights := w.flights[pid := Flight(t, w.s.db.accounts[t.accountId], w.clock, |Tries(w, t.id)|)],
         tries := w.tries[t.id := Tries(w, t.id) + [Try(w.clock, w.boot, None)]])
    else w
  }

  function Entry(w: World, f: Flight, a: Answer, roll: nat, saved: Saved): Attempt {
    Attempt(f.start, w.clock, a, f.copy.intervalSec, Jitter(w.s.settings, roll), Count(w.s.backoff, f.copy.id),
            w.boot, w.s.Listening(), Alerts(w.s, f.copy, f.acc, a), saved)
  }

  function Finish(w: World, pid: nat, a: Answer, roll: nat, saved: Saved): World
    requires pid in w.flights
  {
    var f := w.flights[pid];
    w.(s := Settle(w.s, f.copy, f.acc, a, roll, saved, w.clock),
       flights := w.flights - {pid},
       hist := w.hist[f.copy.id := Hist(w, f.copy.id) + [Entry(w, f, a, roll, saved)]],
       tries := w.tries[f.copy.id := Close(Tries(w, f.copy.id), f.nth, Entry(w, f, a, roll, saved))],
       told := w.told + [Place(f.copy.id, |Hist(w, f.copy.id)|)])
  }

  function WithDb(w: World, db: Db): World {
    w.(s := w.s.(db := db))
  }

  ghost function Step(w: World, e: Event): World
    requires Enabled(w, e)
  {
    match e
    case Wait(d) => w.(clock := w.clock + d)
    case Tick(order) => w.(queue := order, listedAt := w.clock)
    case Launch => Start(w.(queue := w.queue[1..]), LOOP, w.queue[0])
    case Manual(pid, id) => Start(w, pid, w.s.db.threads[id])
    case Answered(pid, answer, roll, saved) => Finish(w, pid, answer, roll, saved)
    case Read(pid, id) => w.(held := w.held[pid := w.s.db.threads[id]])
    case Write(pid, edit) => WithDb(w, PutThread(w.s.db, Edited(w.held[pid], edit))).(held := w.held - {pid})
    case NewAccount(acc) => WithDb(w, InsertAccount(w.s.db, acc))
    case SetAccount(id, acc) =>
      if id in w.s.db.accounts then WithDb(w, w.s.db.(accounts := w.s.db.accounts[id := acc])) else w
    case NewThread(t) => WithDb(w, InsertThread(w.s.db, t))
    case RemoveThread(id) => WithDb(w, DeleteThread(w.s.db, id))
    case RemoveAccount(id) => WithDb(w, DeleteAccount(w.s.db, id))
    case TakeSnapshot(id, views, replies) => WithDb(w, AddSnapshot(w.s.db, id, w.clock, views, replies))
    case Configure(settings, notifier) => w.(s := w.s.(settings := settings, notifier := notifier))
    case Restart =>
      w.(s := w.s.(backoff := map[], failures := map[], lastReq := None, sent := []),
         queue := [], flights := map[], held := map[], boot := w.boot + 1, told := [])
  }

  /** What can happen: time passes, panel and owner act and the process restarts at any time; the loop lists when it
      is done with the last list, launches when there is a list and no attempt of it is under way; anybody may
      attempt or read a row there is, one at a time; and an answer of any kind may come to what is under way. */
  lemma WhatCanHappen(
      w: World, d: nat, pid: nat, id: nat, a: Answer, roll: nat, saved: Saved, edit: Edit, acc: Account, t: Thread,
      settings: Settings, on: bool, order: seq<Thread>)
    ensures Enabled(w, Wait(d)) && Enabled(w, Restart) && Enabled(w, Configure(settings, on))
    ensures Enabled(w, NewAccount(acc)) && Enabled(w, SetAccount(id, acc)) && Enabled(w, RemoveAccount(id)) && Enabled(w, RemoveThread(id))
    ensures t.nextBumpAt.None? && t.lastBumpAt.None? ==> Enabled(w, NewThread(t))
    ensures w.queue == [] && LOOP !in w.flights && IsDueList(w.s.db, w.clock, order) ==> Enabled(w, Tick(order))
    ensures w.queue != [] && LOOP !in w.flights ==> Enabled(w, Launch)
    ensures id in w.s.db.threads && pid != LOOP && pid !in w.flights ==> Enabled(w, Manual(pid, id))
    ensures id in w.s.db.threads && pid !in w.held ==> Enabled(w, Read(pid, id))
    ensures pid in w.held ==> Enabled(w, Write(pid, edit))
    ensures pid in w.flights ==> Enabled(w, Answered(pid, a, roll, saved))
  {
  }

  /** What the panel's and the owner's steps do: inserts and deletes, */
  lemma WhatInsertsDo(w: World, acc: Account, t: Thread)
    ensures Step(w, NewAccount(acc)).s.db.accounts == w.s.db.accounts[w.s.db.accSeq + 1 := acc]
    ensures t.nextBumpAt.None? && t.lastBumpAt.None? && t.accountId in w.s.db.accounts ==>
              Step(w, NewThread(t)).s.db.threads == w.s.db.threads[w.s.db.thrSeq + 1 := t.(id := w.s.db.thrSeq + 1)]
  {
  }

  lemma WhatDeletesDo(w: World, id: nat)
    ensures id !in Step(w, RemoveThread(id)).s.db.threads
    ensures id !in Step(w, RemoveAccount(id)).s.db.accounts
  {
  }

  lemma WhatSnapshotsDo(w: World, id: nat, views: Option<int>, replies: Option<int>)
    requires id in w.s.db.threads
    ensures Step(w, TakeSnapshot(id, views, replies)).s.db.snaps ==
            w.s.db.snaps + [Snapshot(w.s.db.snapSeq + 1, id, w.clock, views, replies)]
  {
  }

  /** a copy of a row and its write-back, */
  lemma WhatCopiesDo(w: World, pid: nat, id: nat, edit: Edit)
    ensures Enabled(w, Read(pid, id)) ==> Step(w, Read(pid, id)) == w.(held := w.held[pid := w.s.db.threads[id]])
    ensures Enabled(w, Write(pid, edit)) ==>
              var t, v := Edited(w.held[pid], edit), Step(w, Write(pid, edit));
              && pid !in v.held && v.hist == w.hist && v.flights == w.flights && v.queue == w.queue
              && (t.id in w.s.db.threads && t.accountId in w.s.db.accounts ==> v.s.db.threads == w.s.db.threads[t.id := t])
  {
  }

  /** changes of an account and of the settings, */
  lemma WhatSettingsDo(w: World, id: nat, acc: Account, settings: Settings, on: bool)
    ensures id in w.s.db.accounts ==> Step(w, SetAccount(id, acc)).s.db.accounts == w.s.db.accounts[id := acc]
    ensures id !in w.s.db.accounts ==> Step(w, SetAccount(id, acc)) == w
    ensures Step(w, Configure(settings, on)).s == w.s.(settings := settings, notifier := on)
  {
  }

  /** and a restart, which keeps the database and forgets everything else. */
  lemma WhatRestartsDo(w: World)
    ensures var v := Step(w, Restart);
      && v.s.db == w.s.db && v.s.backoff == map[] && v.s.failures == map[] && v.queue == [] && v.flights == map[] && v.held == map[]
      && v.clock == w.clock && v.boot == w.boot + 1
  {
  }

  /** The bot on an empty database, at any time and with any settings. */
  predicate Initial(w: World) {
    && w.s.db == EMPTY && w.s.backoff == map[] && w.s.failures == map[]
    && w.queue == [] && w.flights == map[] && w.held == map[] && w.boot == 0
    && w.hist == map[] && w.tries == map[] && w.told == [] && w.s.sent == []
    && w.listedAt <= w.clock
  }

  ghost predicate Run(tr: seq<World>, es: seq<Event>) {
    && |tr| == |es| + 1
    && Initial(tr[0])
    && forall k :: 0 <= k < |es| ==> Enabled(tr[k], es[k]) && tr[k + 1] == Step(tr[k], es[k])
  }

  // ----- reading a history -----

  /** Errors other than refused credentials since the last error-free answer, in one life of the process. */
  function ErrRun(h: seq<Attempt>, boot: nat): nat {
    if h == [] || h[|h| - 1].boot != boot || h[|h| - 1].answer.ErrorFree() then 0
    else ErrRun(h[..|h| - 1], boot) + if h[|h| - 1].answer.OtherError? then 1 else 0
  }

  /** Attempts since the last successful bump, in one life of the process. */
  function FailRun(h: seq<Attempt>, boot: nat): nat {
    if h == [] || h[|h| - 1].boot != boot || h[|h| - 1].answer.Bumped() then 0
    else FailRun(h[..|h| - 1], boot) + 1
  }

  function AtMost(n: nat, cap: nat): nat {
    if n < cap then n else cap
  }

  /** What the row should say: the schedule set by the last answer that reached it. */
  function LastDue(h: seq<Attempt>): Option<Time> {
    if h == [] then None
    else if h[|h| - 1].saved.row then Some(h[|h| - 1].Due())
    else LastDue(h[..|h| - 1])
  }

  /** And the last success that reached it. */
  function LastOk(h: seq<Attempt>): Option<Time> {
    if h == [] then None
    else if h[|h| - 1].saved.row && h[|h| - 1].answer.Bumped() then Some(h[|h| - 1].at)
    else LastOk(h[..|h| - 1])
  }

  /** The answers that reached the log. */
  function Written(h: seq<Attempt>): seq<Attempt> {
    if h == [] then []
    else Written(h[..|h| - 1]) + if h[|h| - 1].saved.log then [h[|h| - 1]] else []
  }

  // ----- what every run keeps -----

  /** Copies hold identifiers that were handed out, and agree with a live row on its account. */
  predicate Rooted(db: Db, t: Thread) {
    t.id <= db.thrSeq && t.accountId <= db.accSeq && (t.id in db.threads ==> db.threads[t.id].accountId == t.accountId)
  }

  ghost predicate Identified(w: World) {
    && Sound(w.s.db)
    && (forall k :: 0 <= k < |w.queue| ==> Rooted(w.s.db, w.queue[k]))
    && (forall p :: p in w.flights ==> Rooted(w.s.db, w.flights[p].copy))
    && (forall p :: p in w.held ==> Rooted(w.s.db, w.held[p]))
    && (forall id :: id in w.hist ==> id <= w.s.db.thrSeq)
  }

  /** The maps in memory are functions of the history of this life of the process. */
  ghost predicate Remembered(w: World) {
    forall id: nat ::
      && Count(w.s.backoff, id) == AtMost(ErrRun(Hist(w, id), w.boot), |LADDER|)
      && Count(w.s.failures, id) == FailRun(Hist(w, id), w.boot)
  }

  /** The owner was told of a streak of failures. */
  ghost predicate Reported(x: Attempt) {
    exists name :: Streak(name) in x.pushed
  }

  /** The owner was told of an account with refused credentials. */
  ghost predicate Warned(x: Attempt) {
    exists account :: AccountLost(account) in x.pushed
  }

  /** `x` was treated according to the entries before it. */
  ghost predicate Treated(before: seq<Attempt>, x: Attempt) {
    && x.stored == AtMost(ErrRun(before, x.boot), |LADDER|)
    && (Reported(x) <==> x.listening && FailRun(before + [x], x.boot) == FAIL_NOTIFY)
    && (Warned(x) <==> x.listening && x.answer.AuthError?)
    && |x.pushed| == (if Reported(x) then 1 else 0) + (if Warned(x) then 1 else 0)
  }

  /** So was each entry of a history, and they are in the order of time. */
  ghost predicate Consistent(h: seq<Attempt>) {
    && (forall k :: 0 <= k < |h| ==> Treated(h[..k], h[k]))
    && (forall j, k :: 0 <= j < k < |h| ==> h[j].boot <= h[k].boot && h[j].at <= h[k].at)
  }

  ghost predicate Historical(w: World) {
    forall id: nat :: Consistent(Hist(w, id)) &&
      forall k :: 0 <= k < |Hist(w, id)| ==> Hist(w, id)[k].boot <= w.boot && Hist(w, id)[k].at <= w.clock
  }

  /** These log rows tell these answers, entry by entry. */
  ghost predicate Mirrors(logs: seq<BumpLog>, h: seq<Attempt>) {
    |logs| == |h| && forall k :: 0 <= k < |h| ==>
      && logs[k].at == h[k].at && logs[k].ok == h[k].answer.Bumped()
      && logs[k].message == h[k].answer.LogMessage() && logs[k].nextAt == Some(h[k].Due())
  }

  /** The log of a live thread tells the answers that reached it. */
  ghost predicate Logged(w: World) {
    forall id :: id in w.s.db.threads ==> Mirrors(ThreadLogs(w.s.db.logs, id), Written(Hist(w, id)))
  }

  function PushedAt(hist: map<nat, seq<Attempt>>, p: Place): seq<Notice> {
    if p.i < |HistOf(hist, p.id)| then HistOf(hist, p.id)[p.i].pushed else []
  }

  /** What was sent after these answers, one after the other. */
  function Messages(hist: map<nat, seq<Attempt>>, told: seq<Place>): seq<Notice> {
    if told == [] then [] else Messages(hist, told[..|told| - 1]) + PushedAt(hist, told[|told| - 1])
  }

  /** `told` names the answers of this life of the process, each once and in order. */
  ghost predicate Complete(w: World) {
    && (forall k :: 0 <= k < |w.told| ==>
          w.told[k].i < |Hist(w, w.told[k].id)| && Hist(w, w.told[k].id)[w.told[k].i].boot == w.boot)
    && (forall j, k :: 0 <= j < k < |w.told| && w.told[j].id == w.told[k].id ==> w.told[j].i < w.told[k].i)
    && (forall id: nat, i: nat :: i < |Hist(w, id)| && Hist(w, id)[i].boot == w.boot ==> Place(id, i) in w.told)
  }

  /** The notifier got the messages of the answers of this life, and nothing else. */
  ghost predicate Delivered(w: World) {
    Complete(w) && w.s.sent == Messages(w.hist, w.told)
  }

  // ----- lemmas about one step -----

  lemma RowRecordedSound(db: Db, t: Thread, acc: Account, a: Answer, saved: Saved, at: Time, next: Time)
    requires Sound(db)
    ensures Sound(RowRecorded(db, t, acc, a, saved, at, next))
  {
    AccountAfterFrame(db, t, acc, a);
    var d := if saved.status then AccountAfter(db, t, acc, a) else db;
    assert Sound(d);
    UpdatesKeepSound(d, t.accountId, StatusOk, RowAfter(t, a, at, next));
  }

  lemma SettleSound(s: Sched, t: Thread, acc: Account, a: Answer, roll: nat, saved: Saved, at: Time)
    requires Sound(s.db)
    ensures Sound(Recorded(s, t, acc, a, roll, saved, at))
  {
    var next := NextDue(s, t, a, roll, at);
    RowRecordedSound(s.db, t, acc, a, saved, at, next);
    AddLogKeepsSound(RowRecorded(s.db, t, acc, a, saved, at, next), t.id, at, a.Bumped(), a.LogMessage(), Some(next));
  }

  /** One row was appended, recording this outcome. */
  ghost predicate Extends(after: seq<BumpLog>, before: seq<BumpLog>, at: Time, a: Answer, next: Time) {
    && |after| == |before| + 1 && after[..|before|] == before
    && after[|before|].at == at && after[|before|].ok == a.Bumped()
    && after[|before|].message == a.LogMessage() && after[|before|].nextAt == Some(next)
  }

  lemma SettleLogs(s: Sched, t: Thread, acc: Account, a: Answer, roll: nat, saved: Saved, at: Time, id: nat)
    requires Sound(s.db) && id in s.db.threads
    ensures var before := ThreadLogs(s.db.logs, id);
      var after := ThreadLogs(Recorded(s, t, acc, a, roll, saved, at).logs, id);
      if id != t.id || !saved.log then after == before else Extends(after, before, at, a, NextDue(s, t, a, roll, at))
  {
    var next := NextDue(s, t, a, roll, at);
    var d := RowRecorded(s.db, t, acc, a, saved, at, next);
    RowRecordedFrame(s.db, t, acc, a, saved, at, next);
    if t.id in d.threads {
      ThreadLogsAppend(d.logs, BumpLog(d.logSeq + 1, t.id, at, a.Bumped(), a.LogMessage(), Some(next)), id);
    }
  }
}
