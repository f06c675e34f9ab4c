/** What every run keeps, whatever the interleaving, the forum's answers and the restarts. */
module RunLaws {
  import opened Types
  import opened Tables
  import opened Bumping
  import opened Runs

  const BLANK_ACCOUNT := Account("", "", false, StatusOk)
  const BLANK := Thread(0, 0, "", "", "", 0, false, None, None)

  // ----- identifiers and references -----

  /** The database moves on: no counter goes back, no row comes back, and a thread that stays keeps its account. */
  ghost predicate Evolves(a: Db, b: Db) {
    && Sound(b) && a.thrSeq <= b.thrSeq && a.accSeq <= b.accSeq
    && (forall id :: id in b.accounts && id <= a.accSeq ==> id in a.accounts)
    && forall id :: id in b.threads && id <= a.thrSeq ==> id in a.threads && b.threads[id].accountId == a.threads[id].accountId
  }

  lemma EvolvesKeepsIdentified(w: World, v: World)
    requires Identified(w) && Evolves(w.s.db, v.s.db)
    requires forall k :: 0 <= k < |v.queue| ==> v.queue[k] in w.queue
    requires forall p :: p in v.flights ==> p in w.flights && v.flights[p].copy == w.flights[p].copy
    requires forall p :: p in v.held ==> p in w.held && v.held[p] == w.held[p]
    requires forall id :: id in v.hist ==> id <= w.s.db.thrSeq
    ensures Identified(v)
  {
  }

  lemma RecordedKeys(s: Sched, t: Thread, acc: Account, a: Answer, roll: nat, saved: Saved, at: Time)
    ensures var d := Recorded(s, t, acc, a, roll, saved, at);
      && d.accounts.Keys == s.db.accounts.Keys && d.threads.Keys == s.db.threads.Keys
      && d.accSeq == s.db.accSeq && d.thrSeq == s.db.thrSeq
  {
    AccountAfterFrame(s.db, t, acc, a);
    RecordedRows(s, t, acc, a, roll, saved, at);
  }

  lemma FinishEvolves(w: World, e: Event)
    requires Identified(w) && Enabled(w, e) && e.Answered?
    ensures Evolves(w.s.db, Step(w, e).s.db)
  {
    var f := w.flights[e.pid];
    assert Rooted(w.s.db, f.copy);
    SettleSound(w.s, f.copy, f.acc, e.answer, e.roll, e.saved, w.clock);
    RecordedRows(w.s, f.copy, f.acc, e.answer, e.roll, e.saved, w.clock);
    RecordedKeys(w.s, f.copy, f.acc, e.answer, e.roll, e.saved, w.clock);
    assert Step(w, e).s.db == Recorded(w.s, f.copy, f.acc, e.answer, e.roll, e.saved, w.clock);
  }

  lemma WriteEvolves(w: World, e: Event)
    requires Identified(w) && Enabled(w, e) && e.Write?
    ensures Evolves(w.s.db, Step(w, e).s.db)
  {
    var t := Edited(w.held[e.pid], e.edit);
    assert Rooted(w.s.db, t);
    UpdatesKeepSound(w.s.db, 0, StatusOk, t);
    assert Step(w, e).s.db == PutThread(w.s.db, t);
  }

  lemma NewThreadEvolves(db: Db, t: Thread)
    requires Sound(db)
    ensures Evolves(db, InsertThread(db, t))
  {
    InsertsKeepSound(db, BLANK_ACCOUNT, t);
  }

  lemma NewAccountEvolves(db: Db, acc: Account)
    requires Sound(db)
    ensures Evolves(db, InsertAccount(db, acc))
  {
    InsertsKeepSound(db, acc, BLANK);
  }

  lemma InsertEvolves(w: World, e: Event)
    requires Identified(w) && Enabled(w, e) && (e.NewThread? || e.NewAccount? || e.SetAccount?)
    ensures Evolves(w.s.db, Step(w, e).s.db)
  {
    if e.NewThread? {
      NewThreadEvolves(w.s.db, e.t);
    } else if e.NewAccount? {
      NewAccountEvolves(w.s.db, e.acc);
    }
  }

  lemma RemoveEvolves(w: World, e: Event)
    requires Identified(w) && Enabled(w, e) && (e.RemoveThread? || e.RemoveAccount?)
    ensures Evolves(w.s.db, Step(w, e).s.db)
  {
    if e.RemoveThread? {
      DropKeepsSound(w.s.db, {e.id});
    } else {
      DeleteAccountKeepsSound(w.s.db, e.id);
    }
  }

  lemma DatabaseEvolves(w: World, e: Event)
    requires Identified(w) && Enabled(w, e)
    ensures Evolves(w.s.db, Step(w, e).s.db)
  {
    if e.Answered? {
      FinishEvolves(w, e);
    } else if e.Write? {
      WriteEvolves(w, e);
    } else if e.NewThread? || e.NewAccount? || e.SetAccount? {
      InsertEvolves(w, e);
    } else if e.RemoveThread? || e.RemoveAccount? {
      RemoveEvolves(w, e);
    } else if e.TakeSnapshot? {
      AddSnapshotKeepsSound(w.s.db, e.id, w.clock, e.views, e.replies);
    } else {
      assert Step(w, e).s.db == w.s.db;
    }
  }

  lemma RowsAreRooted(w: World, id: nat)
    requires Identified(w) && id in w.s.db.threads
    ensures Rooted(w.s.db, w.s.db.threads[id])
  {
  }

  /** Copies are taken of rows or of other copies. */
  lemma IdentifiedAfterCopy(w: World, e: Event)
    requires Identified(w) && Enabled(w, e) && (e.Tick? || e.Read?)
    ensures Identified(Step(w, e))
  {
    assert Step(w, e).s.db == w.s.db;
  }

  lemma StartIdentified(w: World, pid: nat, t: Thread)
    requires Identified(w) && Rooted(w.s.db, t)
    ensures Identified(Start(w, pid, t))
  {
  }

  lemma IdentifiedAfterStart(w: World, e: Event)
    requires Identified(w) && Enabled(w, e) && (e.Launch? || e.Manual?)
    ensures Identified(Step(w, e))
  {
    if e.Launch? {
      StartIdentified(w.(queue := w.queue[1..]), LOOP, w.queue[0]);
    } else {
      RowsAreRooted(w, e.id);
      StartIdentified(w, e.pid, w.s.db.threads[e.id]);
    }
  }

  lemma StepKeepsCopies(w: World, e: Event)
    requires Enabled(w, e) && !e.Tick? && !e.Read? && !e.Launch? && !e.Manual?
    ensures var v := Step(w, e);
      && (forall k :: 0 <= k < |v.queue| ==> v.queue[k] in w.queue)
      && (forall p :: p in v.flights ==> p in w.flights && v.flights[p].copy == w.flights[p].copy)
      && (forall p :: p in v.held ==> p in w.held && v.held[p] == w.held[p])
      && (forall id :: id in v.hist ==> id in w.hist || (e.Answered? && id == w.flights[e.pid].copy.id))
  {
  }

  lemma IdentifiedKept(w: World, e: Event)
    requires Identified(w) && Enabled(w, e)
    ensures Identified(Step(w, e))
  {
    if e.Tick? || e.Read? {
      IdentifiedAfterCopy(w, e);
    } else if e.Launch? || e.Manual? {
      IdentifiedAfterStart(w, e);
    } else {
      DatabaseEvolves(w, e);
      StepKeepsCopies(w, e);
      EvolvesKeepsIdentified(w, Step(w, e));
    }
  }

  // ----- the ladder and the failure counter -----

  lemma RunsAppend(h: seq<Attempt>, x: Attempt, boot: nat)
    ensures ErrRun(h + [x], boot) ==
            if x.boot != boot || x.answer.ErrorFree() then 0 else ErrRun(h, boot) + if x.answer.OtherError? then 1 else 0
    ensures FailRun(h + [x], boot) == if x.boot != boot || x.answer.Bumped() then 0 else FailRun(h, boot) + 1
  {
    assert (h + [x])[..|h|] == h;
  }

  lemma AlertsMeaning(s: Sched, t: Thread, acc: Account, a: Answer)
    ensures (exists name :: Streak(name) in Alerts(s, t, acc, a)) <==>
              s.Listening() && !a.Bumped() && Count(s.failures, t.id) + 1 == FAIL_NOTIFY
  {
    if s.Listening() && !a.Bumped() && Count(s.failures, t.id) + 1 == FAIL_NOTIFY {
      assert Streak(DisplayName(t)) in Alerts(s, t, acc, a);
    }
  }

  lemma WarningsMeaning(s: Sched, t: Thread, acc: Account, a: Answer)
    ensures (exists account :: AccountLost(account) in Alerts(s, t, acc, a)) <==> s.Listening() && a.AuthError?
    ensures |Alerts(s, t, acc, a)| ==
            if !s.Listening() then 0
            else (if a.AuthError? then 1 else 0) + if !a.Bumped() && Count(s.failures, t.id) + 1 == FAIL_NOTIFY then 1 else 0
  {
    if s.Listening() && a.AuthError? {
      assert AccountLost(acc.name) in Alerts(s, t, acc, a);
    }
  }

  lemma LadderAfter(backoff: map<nat, nat>, id: nat, a: Answer, errors: nat)
    requires Count(backoff, id) == AtMost(errors, |LADDER|)
    ensures Count(NextBackoff(backoff, id, a), id) ==
            AtMost(if a.ErrorFree() then 0 else errors + if a.OtherError? then 1 else 0, |LADDER|)
  {
  }

  lemma MapsOfOthers(w: World, a: Answer, id: nat, other: nat)
    requires other != id
    ensures Count(NextBackoff(w.s.backoff, id, a), other) == Count(w.s.backoff, other)
    ensures Count(NextFailures(w.s.failures, id, a.Bumped()), other) == Count(w.s.failures, other)
  {
  }

  lemma OnlyAnswersMakeHistory(w: World, e: Event)
    requires Enabled(w, e) && !e.Answered?
    ensures Step(w, e).hist == w.hist
    ensures !e.Restart? ==>
              Step(w, e).s.backoff == w.s.backoff && Step(w, e).s.failures == w.s.failures && Step(w, e).boot == w.boot
  {
  }

  lemma RungAfterAnswer(w: World, pid: nat, a: Answer, roll: nat, saved: Saved, id: nat)
    requires Remembered(w) && pid in w.flights
    ensures var v := Finish(w, pid, a, roll, saved);
      Count(v.s.backoff, id) == AtMost(ErrRun(Hist(v, id), v.boot), |LADDER|)
  {
    var f := w.flights[pid];
    HistAfter(w, pid, a, roll, saved, id);
    if id == f.copy.id {
      RunsAppend(Hist(w, id), Entry(w, f, a, roll, saved), w.boot);
      LadderAfter(w.s.backoff, id, a, ErrRun(Hist(w, id), w.boot));
    } else {
      MapsOfOthers(w, a, f.copy.id, id);
    }
  }

  lemma FailuresAfterAnswer(w: World, pid: nat, a: Answer, roll: nat, saved: Saved, id: nat)
    requires Remembered(w) && pid in w.flights
    ensures var v := Finish(w, pid, a, roll, saved);
      Count(v.s.failures, id) == FailRun(Hist(v, id), v.boot)
  {
    var f := w.flights[pid];
    HistAfter(w, pid, a, roll, saved, id);
    if id == f.copy.id {
      RunsAppend(Hist(w, id), Entry(w, f, a, roll, saved), w.boot);
    } else {
      MapsOfOthers(w, a, f.copy.id, id);
    }
  }

  lemma NoHistoryInNextLife(h: seq<Attempt>, boot: nat)
    requires forall k :: 0 <= k < |h| ==> h[k].boot <= boot
    ensures ErrRun(h, boot + 1) == 0 && FailRun(h, boot + 1) == 0
  {
  }

  lemma RememberedOtherwise(w: World, e: Event, id: nat)
    requires Remembered(w) && Historical(w) && Enabled(w, e) && !e.Answered?
    ensures var v := Step(w, e);
      && Count(v.s.backoff, id) == AtMost(ErrRun(Hist(v, id), v.boot), |LADDER|)
      && Count(v.s.failures, id) == FailRun(Hist(v, id), v.boot)
  {
    OnlyAnswersMakeHistory(w, e);
    if e.Restart? {
      NoHistoryInNextLife(Hist(w, id), w.boot);
    }
  }

  lemma RememberedKept(w: World, e: Event)
    requires Remembered(w) && Historical(w) && Enabled(w, e)
    ensures Remembered(Step(w, e))
  {
    var v := Step(w, e);
    forall id: nat
      ensures Count(v.s.backoff, id) == AtMost(ErrRun(Hist(v, id), v.boot), |LADDER|)
      ensures Count(v.s.failures, id) == FailRun(Hist(v, id), v.boot)
    {
      if e.Answered? {
        assert v == Finish(w, e.pid, e.answer, e.roll, e.saved);
        RungAfterAnswer(w, e.pid, e.answer, e.roll, e.saved, id);
        FailuresAfterAnswer(w, e.pid, e.answer, e.roll, e.saved, id);
      } else {
        RememberedOtherwise(w, e, id);
      }
    }
  }

  lemma ConsistentAppend(h: seq<Attempt>, x: Attempt)
    requires Consistent(h) && Treated(h, x) && forall k :: 0 <= k < |h| ==> h[k].boot <= x.boot && h[k].at <= x.at
    ensures Consistent(h + [x])
  {
    var g := h + [x];
    forall k | 0 <= k < |g| ensures Treated(g[..k], g[k]) {
      assert g[..k] == h[..k];
    }
  }

  lemma HistAfter(w: World, pid: nat, a: Answer, roll: nat, saved: Saved, id: nat)
    requires pid in w.flights
    ensures Hist(Finish(w, pid, a, roll, saved), id) ==
            Hist(w, id) + if id == w.flights[pid].copy.id then [Entry(w, w.flights[pid], a, roll, saved)] else []
  {
  }

  lemma HistoricalAfterAnswer(w: World, pid: nat, a: Answer, roll: nat, saved: Saved, id: nat)
    requires Remembered(w) && Historical(w) && pid in w.flights
    ensures Consistent(Hist(Finish(w, pid, a, roll, saved), id))
  {
    HistAfter(w, pid, a, roll, saved, id);
    var f := w.flights[pid];
    if id == f.copy.id {
      var x := Entry(w, f, a, roll, saved);
      EntryIsTreated(w, f, a, roll, saved);
      ConsistentAppend(Hist(w, id), x);
    }
  }

  lemma EntryIsTreated(w: World, f: Flight, a: Answer, roll: nat, saved: Saved)
    requires Remembered(w)
    ensures Treated(Hist(w, f.copy.id), Entry(w, f, a, roll, saved))
  {
    AlertsMeaning(w.s, f.copy, f.acc, a);
    WarningsMeaning(w.s, f.copy, f.acc, a);
    RunsAppend(Hist(w, f.copy.id), Entry(w, f, a, roll, saved), w.boot);
  }

  lemma HistoricalKept(w: World, e: Event)
    requires Remembered(w) && Historical(w) && Enabled(w, e)
    ensures Historical(Step(w, e))
  {
    var v := Step(w, e);
    if e.Answered? {
      assert v == Finish(w, e.pid, e.answer, e.roll, e.saved);
      forall id: nat ensures Consistent(Hist(v, id))
        ensures forall k :: 0 <= k < |Hist(v, id)| ==> Hist(v, id)[k].boot <= v.boot && Hist(v, id)[k].at <= v.clock
      {
        HistAfter(w, e.pid, e.answer, e.roll, e.saved, id);
        HistoricalAfterAnswer(w, e.pid, e.answer, e.roll, e.saved, id);
      }
    } else {
      assert v.hist == w.hist && v.boot >= w.boot && v.clock >= w.clock;
      assert forall id: nat :: Hist(v, id) == Hist(w, id);
    }
  }

  // ----- the messages -----

  lemma {:induction false} MessagesFrame(a: map<nat, seq<Attempt>>, b: map<nat, seq<Attempt>>, told: seq<Place>)
    requires forall k :: 0 <= k < |told| ==> PushedAt(a, told[k]) == PushedAt(b, told[k])
    ensures Messages(a, told) == Messages(b, told)
  {
    if told == [] {
    } else {
      MessagesFrame(a, b, told[..|told| - 1]);
    }
  }

  lemma PlacesStay(w: World, pid: nat, a: Answer, roll: nat, saved: Saved, p: Place)
    requires pid in w.flights && p.i < |Hist(w, p.id)|
    ensures p.i < |Hist(Finish(w, pid, a, roll, saved), p.id)|
    ensures Hist(Finish(w, pid, a, roll, saved), p.id)[p.i] == Hist(w, p.id)[p.i]
  {
    HistAfter(w, pid, a, roll, saved, p.id);
  }

  lemma TellsMore(w: World, pid: nat, a: Answer, roll: nat, saved: Saved)
    requires pid in w.flights
    ensures Finish(w, pid, a, roll, saved).told == w.told + [Place(w.flights[pid].copy.id, |Hist(w, w.flights[pid].copy.id)|)]
    ensures Finish(w, pid, a, roll, saved).boot == w.boot
  {
  }

  /** Old places stay good, and the new one is the last answer of its thread. */
  lemma PlacesGood(w: World, pid: nat, a: Answer, roll: nat, saved: Saved)
    requires Complete(w) && pid in w.flights
    ensures var v := Finish(w, pid, a, roll, saved);
      && (forall k :: 0 <= k < |v.told| ==>
            v.told[k].i < |Hist(v, v.told[k].id)| && Hist(v, v.told[k].id)[v.told[k].i].boot == v.boot)
      && (forall j, k :: 0 <= j < k < |v.told| && v.told[j].id == v.told[k].id ==> v.told[j].i < v.told[k].i)
  {
    var v, id := Finish(w, pid, a, roll, saved), w.flights[pid].copy.id;
    TellsMore(w, pid, a, roll, saved);
    HistAfter(w, pid, a, roll, saved, id);
    forall k | 0 <= k < |w.told|
      ensures w.told[k].i < |Hist(v, w.told[k].id)| && Hist(v, w.told[k].id)[w.told[k].i].boot == v.boot
    {
      PlacesStay(w, pid, a, roll, saved, w.told[k]);
    }
  }

  lemma CompleteAfterAnswer(w: World, pid: nat, a: Answer, roll: nat, saved: Saved)
    requires Complete(w) && pid in w.flights
    ensures Complete(Finish(w, pid, a, roll, saved))
  {
    var v := Finish(w, pid, a, roll, saved);
    PlacesGood(w, pid, a, roll, saved);
    TellsMore(w, pid, a, roll, saved);
    forall o: nat, i: nat | i < |Hist(v, o)| && Hist(v, o)[i].boot == v.boot ensures Place(o, i) in v.told {
      AnswersAreTold(w, pid, a, roll, saved, o, i);
    }
  }

  lemma AnswersAreTold(w: World, pid: nat, a: Answer, roll: nat, saved: Saved, id: nat, i: nat)
    requires Complete(w) && pid in w.flights
    requires i < |Hist(Finish(w, pid, a, roll, saved), id)| && Hist(Finish(w, pid, a, roll, saved), id)[i].boot == w.boot
    ensures Place(id, i) in Finish(w, pid, a, roll, saved).told
  {
    HistAfter(w, pid, a, roll, saved, id);
    if i < |Hist(w, id)| {
      assert Hist(w, id)[i].boot == w.boot;
    }
  }

  lemma SentAfterAnswer(w: World, pid: nat, a: Answer, roll: nat, saved: Saved)
    requires Delivered(w) && pid in w.flights
    ensures Finish(w, pid, a, roll, saved).s.sent == Messages(Finish(w, pid, a, roll, saved).hist, Finish(w, pid, a, roll, saved).told)
  {
    var v, id := Finish(w, pid, a, roll, saved), w.flights[pid].copy.id;
    HistAfter(w, pid, a, roll, saved, id);
    var p := Place(id, |Hist(w, id)|);
    assert v.told == w.told + [p] && v.told[..|w.told|] == w.told;
    assert PushedAt(v.hist, p) == Alerts(w.s, w.flights[pid].copy, w.flights[pid].acc, a);
    forall k | 0 <= k < |w.told| ensures PushedAt(w.hist, w.told[k]) == PushedAt(v.hist, w.told[k]) {
      PlacesStay(w, pid, a, roll, saved, w.told[k]);
    }
    MessagesFrame(w.hist, v.hist, w.told);
  }

  lemma DeliveredFrame(w: World, v: World)
    requires Delivered(w) && v.hist == w.hist && v.told == w.told && v.boot == w.boot && v.s.sent == w.s.sent
    ensures Delivered(v)
  {
    assert forall id :: Hist(v, id) == Hist(w, id);
  }

  lemma DeliveredAfresh(w: World, v: World)
    requires Historical(w) && v.hist == w.hist && v.told == [] && v.boot == w.boot + 1 && v.s.sent == []
    ensures Delivered(v)
  {
    assert forall id :: Hist(v, id) == Hist(w, id);
  }

  lemma OnlyAnswersSend(w: World, e: Event)
    requires Enabled(w, e) && !e.Answered? && !e.Restart?
    ensures Step(w, e).s.sent == w.s.sent && Step(w, e).told == w.told && Step(w, e).boot == w.boot
  {
  }

  lemma DeliveredKept(w: World, e: Event)
    requires Delivered(w) && Historical(w) && Enabled(w, e)
    ensures Delivered(Step(w, e))
  {
    if e.Answered? {
      assert Step(w, e) == Finish(w, e.pid, e.answer, e.roll, e.saved);
      CompleteAfterAnswer(w, e.pid, e.answer, e.roll, e.saved);
      SentAfterAnswer(w, e.pid, e.answer, e.roll, e.saved);
    } else {
      OnlyAnswersMakeHistory(w, e);
      if e.Restart? {
        DeliveredAfresh(w, Step(w, e));
      } else {
        OnlyAnswersSend(w, e);
        DeliveredFrame(w, Step(w, e));
      }
    }
  }

  // ----- the log -----

  lemma {:induction false} NoRowsOfOthers(logs: seq<BumpLog>, id: nat)
    requires forall k :: 0 <= k < |logs| ==> logs[k].threadId != id
    ensures ThreadLogs(logs, id) == []
  {
    if logs == [] {
    } else {
      NoRowsOfOthers(logs[..|logs| - 1], id);
    }
  }

  lemma MirrorsAppend(before: seq<BumpLog>, after: seq<BumpLog>, h: seq<Attempt>, x: Attempt)
    requires Mirrors(before, h) && Extends(after, before, x.at, x.answer, x.Due())
    ensures Mirrors(after, h + [x])
  {
    assert forall k :: 0 <= k < |before| ==> after[k] == after[..|before|][k];
  }

  lemma WrittenAppend(h: seq<Attempt>, x: Attempt)
    ensures Written(h + [x]) == Written(h) + if x.saved.log then [x] else []
  {
    assert (h + [x])[..|h|] == h;
  }

  lemma LoggedAfterAnswer(w: World, f: Flight, a: Answer, roll: nat, saved: Saved, id: nat)
    requires Sound(w.s.db) && id in w.s.db.threads && Mirrors(ThreadLogs(w.s.db.logs, id), Written(Hist(w, id)))
    ensures Mirrors(ThreadLogs(Recorded(w.s, f.copy, f.acc, a, roll, saved, w.clock).logs, id),
                    Written(Hist(w, id) + if id == f.copy.id then [Entry(w, f, a, roll, saved)] else []))
  {
    SettleLogs(w.s, f.copy, f.acc, a, roll, saved, w.clock, id);
    if id == f.copy.id {
      WrittenAppend(Hist(w, id), Entry(w, f, a, roll, saved));
      if saved.log {
        OwnLogAfterAnswer(w, f, a, roll, saved, ThreadLogs(Recorded(w.s, f.copy, f.acc, a, roll, saved, w.clock).logs, id));
      }
    } else {
      assert Hist(w, id) + [] == Hist(w, id);
    }
  }

  lemma OwnLogAfterAnswer(w: World, f: Flight, a: Answer, roll: nat, saved: Saved, after: seq<BumpLog>)
    requires Mirrors(ThreadLogs(w.s.db.logs, f.copy.id), Written(Hist(w, f.copy.id)))
    requires Extends(after, ThreadLogs(w.s.db.logs, f.copy.id), w.clock, a, NextDue(w.s, f.copy, a, roll, w.clock))
    ensures Mirrors(after, Written(Hist(w, f.copy.id)) + [Entry(w, f, a, roll, saved)])
  {
    var x := Entry(w, f, a, roll, saved);
    assert x.Due() == NextDue(w.s, f.copy, a, roll, w.clock);
    MirrorsAppend(ThreadLogs(w.s.db.logs, f.copy.id), after, Written(Hist(w, f.copy.id)), x);
  }

  lemma LoggedAfterRemoval(w: World, ids: set<nat>, id: nat)
    requires Logged(w) && id in w.s.db.threads && id !in ids
    ensures Mirrors(ThreadLogs(KeepLogs(w.s.db.logs, ids), id), Written(Hist(w, id)))
  {
    CascadeOnLogs(w.s.db.logs, ids, id);
  }

  lemma LoggedAfterInsert(w: World, t: Thread, id: nat)
    requires Identified(w) && Logged(w) && id in InsertThread(w.s.db, t).threads
    ensures Mirrors(ThreadLogs(w.s.db.logs, id), Written(Hist(w, id)))
  {
    if id !in w.s.db.threads {
      NoRowsOfOthers(w.s.db.logs, id);
    }
  }

  lemma LoggedAfterStatement(w: World, e: Event, id: nat)
    requires Identified(w) && Logged(w) && Enabled(w, e) && !e.Answered? && id in Step(w, e).s.db.threads
    ensures Mirrors(ThreadLogs(Step(w, e).s.db.logs, id), Written(Hist(w, id)))
  {
    if e.RemoveThread? {
      LoggedAfterRemoval(w, {e.id}, id);
    } else if e.RemoveAccount? {
      LoggedAfterRemoval(w, ThreadsOf(w.s.db, e.id), id);
    } else if e.NewThread? {
      LoggedAfterInsert(w, e.t, id);
    } else {
      LogsStay(w, e, id);
    }
  }

  lemma LogsStay(w: World, e: Event, id: nat)
    requires Identified(w) && Enabled(w, e) && !e.Answered? && !e.RemoveThread? && !e.RemoveAccount? && !e.NewThread?
    ensures Step(w, e).s.db.logs == w.s.db.logs
    ensures id in Step(w, e).s.db.threads ==> id in w.s.db.threads
  {
  }

  lemma LoggedKept(w: World, e: Event)
    requires Identified(w) && Logged(w) && Enabled(w, e)
    ensures Logged(Step(w, e))
  {
    var v := Step(w, e);
    if e.Answered? {
      var f := w.flights[e.pid];
      assert v == Finish(w, e.pid, e.answer, e.roll, e.saved);
      assert v.s.db == Recorded(w.s, f.copy, f.acc, e.answer, e.roll, e.saved, w.clock);
      RecordedKeys(w.s, f.copy, f.acc, e.answer, e.roll, e.saved, w.clock);
      forall id | id in v.s.db.threads ensures Mirrors(ThreadLogs(v.s.db.logs, id), Written(Hist(v, id))) {
        LoggedAfterAnswer(w, f, e.answer, e.roll, e.saved, id);
        HistAfter(w, e.pid, e.answer, e.roll, e.saved, id);
      }
    } else {
      OnlyAnswersMakeHistory(w, e);
      forall id | id in v.s.db.threads ensures Mirrors(ThreadLogs(v.s.db.logs, id), Written(Hist(v, id))) {
        LoggedAfterStatement(w, e, id);
      }
    }
  }
}
