/**
 Run-level theorems: what holds after every run, and the schedule safety that holds exactly as long as
 no handler writes back a row it read before an attempt changed it.
 */
module Safety {
  import opened Types
  import opened Bumping
  import opened Runs
  import opened RunLaws
  import opened Gaps

  // ----- every run -----

  ghost predicate Kept(w: World) {
    Identified(w) && Remembered(w) && Historical(w) && Logged(w) && Delivered(w)
  }

  lemma KeptAtStart(w: World)
    requires Initial(w)
    ensures Kept(w)
  {
  }

  lemma {:induction false} EveryRunKeeps(tr: seq<World>, es: seq<Event>, k: nat)
    requires Run(tr, es) && k < |tr|
    ensures Kept(tr[k])
    decreases k
  {
    if k == 0 {
      KeptAtStart(tr[0]);
    } else {
      EveryRunKeeps(tr, es, k - 1);
      IdentifiedKept(tr[k - 1], es[k - 1]);
      RememberedKept(tr[k - 1], es[k - 1]);
      HistoricalKept(tr[k - 1], es[k - 1]);
      LoggedKept(tr[k - 1], es[k - 1]);
      DeliveredKept(tr[k - 1], es[k - 1]);
    }
  }

  lemma LadderStep(h: seq<Attempt>, i: nat)
    requires Consistent(h) && i < |h| && h[i].answer.OtherError?
    ensures ErrRun(h[..i + 1], h[i].boot) == ErrRun(h[..i], h[i].boot) + 1
    ensures h[i].Due() == h[i].at + LADDER[AtMost(ErrRun(h[..i + 1], h[i].boot) - 1, 3)]
  {
    assert h[..i + 1] == h[..i] + [h[i]];
    RunsAppend(h[..i], h[i], h[i].boot);
  }

  /** The ladder refines the history: the answer that is the n-th error since the last error-free one, or
      since the restart, is retried after rung min(n - 1, 3); refused credentials do not count. */
  lemma LadderFollowsHistory(tr: seq<World>, es: seq<Event>, k: nat, id: nat, i: nat)
    requires Run(tr, es) && k < |tr| && i < |Hist(tr[k], id)| && Hist(tr[k], id)[i].answer.OtherError?
    ensures ErrRun(Hist(tr[k], id)[..i + 1], Hist(tr[k], id)[i].boot) > 0
    ensures var h := Hist(tr[k], id);
      h[i].Due() == h[i].at + LADDER[AtMost(ErrRun(h[..i + 1], h[i].boot) - 1, 3)]
  {
    EveryRunKeeps(tr, es, k);
    LadderStep(Hist(tr[k], id), i);
  }

  /** A streak: attempts a..b of one life of the process, none successful, right after a success, a
      restart or the beginning. */
  ghost predicate StreakFrom(h: seq<Attempt>, a: nat, b: nat) {
    && a < b <= |h|
    && (forall k :: a <= k < b ==> !h[k].answer.Bumped() && h[k].boot == h[a].boot)
    && (a > 0 ==> h[a - 1].answer.Bumped() || h[a - 1].boot != h[a].boot)
  }

  lemma {:induction false} StreakLength(h: seq<Attempt>, a: nat, b: nat)
    requires StreakFrom(h, a, b)
    ensures FailRun(h[..b], h[a].boot) == b - a
    decreases b
  {
    assert h[..b] == h[..b - 1] + [h[b - 1]];
    RunsAppend(h[..b - 1], h[b - 1], h[a].boot);
    if b == a + 1 {
    } else {
      StreakLength(h, a, b - 1);
    }
  }

  lemma NoticeAtThird(h: seq<Attempt>, a: nat, b: nat, i: nat)
    requires StreakFrom(h, a, b) && a <= i < b && Treated(h[..i], h[i])
    ensures Reported(h[i]) <==> i == a + 2 && h[i].listening
  {
    StreakLength(h, a, i + 1);
    assert h[..i] + [h[i]] == h[..i + 1];
  }

  /** Each streak is reported to the owner once, at its third attempt, provided the owner is being
      listened to at that moment; and never elsewhere. */
  lemma OneNoticePerStreak(tr: seq<World>, es: seq<Event>, k: nat, id: nat, a: nat, b: nat, i: nat)
    requires Run(tr, es) && k < |tr| && StreakFrom(Hist(tr[k], id), a, b) && a <= i < b
    ensures Reported(Hist(tr[k], id)[i]) <==> i == a + 2 && Hist(tr[k], id)[i].listening
  {
    EveryRunKeeps(tr, es, k);
    assert Consistent(Hist(tr[k], id));
    NoticeAtThird(Hist(tr[k], id), a, b, i);
  }

  /** Refused credentials are reported each time, a success never causes a message, and no message is sent
      twice. */
  lemma NoticesFollowAnswers(tr: seq<World>, es: seq<Event>, k: nat, id: nat, i: nat)
    requires Run(tr, es) && k < |tr| && i < |Hist(tr[k], id)|
    ensures var x := Hist(tr[k], id)[i];
      && (Warned(x) <==> x.listening && x.answer.AuthError?)
      && (x.answer.Bumped() ==> x.pushed == [])
      && |x.pushed| == (if Reported(x) then 1 else 0) + (if Warned(x) then 1 else 0)
  {
    EveryRunKeeps(tr, es, k);
    var h := Hist(tr[k], id);
    assert Consistent(h) && Treated(h[..i], h[i]);
    RunsAppend(h[..i], h[i], h[i].boot);
  }

  /** What the notifier has received since the last restart is, in order, what was sent after the answers of
      this life, one after the other. */
  lemma SentAsPushed(tr: seq<World>, es: seq<Event>, k: nat)
    requires Run(tr, es) && k < |tr|
    ensures tr[k].s.sent == Messages(tr[k].hist, tr[k].told) && Complete(tr[k])
  {
    EveryRunKeeps(tr, es, k);
  }

  lemma {:induction false} SentFrom(hist: map<nat, seq<Attempt>>, told: seq<Place>, n: nat)
    requires n < |Messages(hist, told)|
    ensures exists k :: 0 <= k < |told| && Messages(hist, told)[n] in PushedAt(hist, told[k])
  {
    var front := told[..|told| - 1];
    if n < |Messages(hist, front)| {
      SentFrom(hist, front, n);
      var k :| 0 <= k < |front| && Messages(hist, front)[n] in PushedAt(hist, front[k]);
      assert told[k] == front[k];
    } else {
      assert Messages(hist, told)[n] in PushedAt(hist, told[|told| - 1]);
    }
  }

  /** The message came with the i-th answer of this thread, the third failure in a row in this life. */
  ghost predicate ThirdFailure(w: World, m: Notice, id: nat, i: nat) {
    i < |Hist(w, id)| && m in Hist(w, id)[i].pushed && FailRun(Hist(w, id)[..i + 1], w.boot) == FAIL_NOTIFY
  }

  lemma StreakIsThird(w: World, m: Notice, id: nat, i: nat)
    requires i < |Hist(w, id)| && m in Hist(w, id)[i].pushed && m.Streak?
    requires Hist(w, id)[i].boot == w.boot && Treated(Hist(w, id)[..i], Hist(w, id)[i])
    ensures ThirdFailure(w, m, id, i)
  {
    var h := Hist(w, id);
    assert m == Streak(m.thread) && Reported(h[i]);
    assert h[..i] + [h[i]] == h[..i + 1];
  }

  /** So a streak message the owner received is about a thread whose third failure in a row, in this life of
      the process, it was. */
  lemma StreakMessagesAreTrue(tr: seq<World>, es: seq<Event>, k: nat, n: nat)
    requires Run(tr, es) && k < |tr| && n < |tr[k].s.sent| && tr[k].s.sent[n].Streak?
    ensures exists id: nat, i: nat :: ThirdFailure(tr[k], tr[k].s.sent[n], id, i)
  {
    EveryRunKeeps(tr, es, k);
    ThirdOf(tr[k], n);
  }

  lemma ThirdOf(w: World, n: nat)
    requires Delivered(w) && Historical(w) && n < |w.s.sent| && w.s.sent[n].Streak?
    ensures exists id: nat, i: nat :: ThirdFailure(w, w.s.sent[n], id, i)
  {
    SentFrom(w.hist, w.told, n);
    var j :| 0 <= j < |w.told| && w.s.sent[n] in PushedAt(w.hist, w.told[j]);
    var id, i := w.told[j].id, w.told[j].i;
    assert Consistent(Hist(w, id));
    StreakIsThird(w, w.s.sent[n], id, i);
  }

  lemma UnusedIsClean(w: World, id: nat)
    requires Kept(w) && id !in w.hist
    ensures Hist(w, id) == [] && Count(w.s.backoff, id) == 0 && Count(w.s.failures, id) == 0
  {
  }

  lemma NoHistoryBeyondCounter(w: World, e: Event, id: nat)
    requires Kept(w) && Enabled(w, e) && id > w.s.db.thrSeq
    ensures id !in Step(w, e).hist
  {
    if e.Answered? {
      assert Step(w, e).hist.Keys == w.hist.Keys + {w.flights[e.pid].copy.id};
    } else {
      OnlyAnswersMakeHistory(w, e);
    }
  }

  /** Deletes leave the maps alone, yet a new thread starts on the first rung with no failure and an
      empty history, because its identifier was never used. */
  lemma NewThreadStartsClean(tr: seq<World>, es: seq<Event>, k: nat, id: nat)
    requires Run(tr, es) && k < |es| && id in tr[k + 1].s.db.threads && id !in tr[k].s.db.threads
    ensures Hist(tr[k + 1], id) == [] && Count(tr[k + 1].s.backoff, id) == 0 && Count(tr[k + 1].s.failures, id) == 0
    ensures forall j :: 0 <= j <= k ==> id !in tr[j].s.db.threads
  {
    EveryRunKeeps(tr, es, k);
    EveryRunKeeps(tr, es, k + 1);
    DatabaseEvolves(tr[k], es[k]);
    NoHistoryBeyondCounter(tr[k], es[k], id);
    UnusedIsClean(tr[k + 1], id);
    forall j | 0 <= j <= k ensures id !in tr[j].s.db.threads {
      CountersGrow(tr, es, j, k);
      EveryRunKeeps(tr, es, j);
    }
  }

  function Counters(tr: seq<World>): (cs: seq<int>)
    ensures |cs| == |tr| && forall i :: 0 <= i < |tr| ==> cs[i] == tr[i].s.db.thrSeq
  {
    seq(|tr|, i requires 0 <= i < |tr| => tr[i].s.db.thrSeq)
  }

  /** No identifier counter ever goes back. */
  lemma CountersGrow(tr: seq<World>, es: seq<Event>, j: nat, k: nat)
    requires Run(tr, es) && j <= k < |tr|
    ensures tr[j].s.db.thrSeq <= tr[k].s.db.thrSeq
  {
    forall i | 0 < i < |tr| ensures Counters(tr)[i] >= Counters(tr)[i - 1] {
      CounterGrows(tr, es, i - 1);
    }
    GapsAddUp(Counters(tr), 0, j, k);
  }

  lemma CounterGrows(tr: seq<World>, es: seq<Event>, k: nat)
    requires Run(tr, es) && k < |es|
    ensures tr[k].s.db.thrSeq <= tr[k + 1].s.db.thrSeq
  {
    EveryRunKeeps(tr, es, k);
    DatabaseEvolves(tr[k], es[k]);
  }

  // ----- accounts -----

  /** In every run, an error-free answer whose status write gets through leaves the account marked ok if and only if
      it was so marked, or the attempt had read that it was not; refused credentials then always leave it marked,
      and nothing else marks it. */
  lemma AccountMarkedOkIff(tr: seq<World>, es: seq<Event>, k: nat)
    requires Run(tr, es) && k < |es| && Enabled(tr[k], es[k]) && es[k].Answered?
    requires tr[k].flights[es[k].pid].copy.accountId in tr[k].s.db.accounts
    ensures var f, e := tr[k].flights[es[k].pid], es[k];
      var before, after := tr[k].s.db.accounts[f.copy.accountId], tr[k + 1].s.db.accounts;
      && f.copy.accountId in after
      && (e.saved.status && e.answer.AuthError? ==> after[f.copy.accountId].status == StatusAuthFailed)
      && (e.saved.status && e.answer.ErrorFree() ==>
            (after[f.copy.accountId].status == StatusOk <==> before.status == StatusOk || f.acc.status != StatusOk))
      && (!e.saved.status || e.answer.OtherError? ==> after[f.copy.accountId] == before)
  {
    var w, e := tr[k], es[k];
    var f := w.flights[e.pid];
    RecordedRows(w.s, f.copy, f.acc, e.answer, e.roll, e.saved, w.clock);
    assert tr[k + 1].s.db == Recorded(w.s, f.copy, f.acc, e.answer, e.roll, e.saved, w.clock);
  }

  /** An account that is gone stays gone: its identifier is never handed out again, so no copy of a row ever
      leads to the account of somebody else. */
  lemma {:induction false} AccountsStayGone(tr: seq<World>, es: seq<Event>, j: nat, k: nat, id: nat)
    requires Run(tr, es) && j <= k < |tr| && id <= tr[j].s.db.accSeq && id !in tr[j].s.db.accounts
    ensures id <= tr[k].s.db.accSeq && id !in tr[k].s.db.accounts
    decreases k
  {
    if j == k {
    } else {
      AccountsStayGone(tr, es, j, k - 1, id);
      AccountStaysGone(tr, es, k - 1, id);
    }
  }

  lemma AccountStaysGone(tr: seq<World>, es: seq<Event>, k: nat, id: nat)
    requires Run(tr, es) && k < |es| && id <= tr[k].s.db.accSeq && id !in tr[k].s.db.accounts
    ensures id <= tr[k + 1].s.db.accSeq && id !in tr[k + 1].s.db.accounts
  {
    EveryRunKeeps(tr, es, k);
    DatabaseEvolves(tr[k], es[k]);
  }

  /** A copy in the loop's queue whose account is gone never finds an account again. */
  lemma CopiesKeepTheirAccount(tr: seq<World>, es: seq<Event>, j: nat, k: nat, i: nat)
    requires Run(tr, es) && j <= k < |tr| && i < |tr[j].queue| && tr[j].queue[i].accountId !in tr[j].s.db.accounts
    ensures tr[j].queue[i].accountId !in tr[k].s.db.accounts
  {
    EveryRunKeeps(tr, es, j);
    assert Rooted(tr[j].s.db, tr[j].queue[i]);
    AccountsStayGone(tr, es, j, k, tr[j].queue[i].accountId);
  }

  // ----- the row follows the history, exactly as long as writes are current -----

  /** The row's schedule is the one set by its thread's last answer that reached the row. */
  ghost predicate Scheduled(w: World, id: nat) {
    id in w.s.db.threads ==> w.s.db.threads[id].nextBumpAt == LastDue(Hist(w, id))
  }

  /** And its last bump is the last success that did. */
  ghost predicate InStep(w: World, id: nat) {
    Scheduled(w, id) && (id in w.s.db.threads ==> w.s.db.threads[id].lastBumpAt == LastOk(Hist(w, id)))
  }

  /** A write-back to this row finds the schedule it was read with. */
  ghost predicate KeepsSchedule(w: World, e: Event, id: nat)
    requires Enabled(w, e)
  {
    e.Write? && w.held[e.pid].id == id && id in w.s.db.threads ==>
      w.s.db.threads[id].nextBumpAt == w.held[e.pid].nextBumpAt
  }

  /** No lost update on this row: what is about to be written was read from the row as it still stands. An
      attempt sets its own schedule, so only the last-bump column of its copy matters, and only when it fails. */
  ghost predicate Current(w: World, e: Event, id: nat)
    requires Enabled(w, e)
  {
    && KeepsSchedule(w, e, id)
    && (e.Write? && w.held[e.pid].id == id && id in w.s.db.threads ==>
          w.s.db.threads[id].lastBumpAt == w.held[e.pid].lastBumpAt)
    && (e.Answered? && e.saved.row && w.flights[e.pid].copy.id == id && id in w.s.db.threads && !e.answer.Bumped() ==>
          w.s.db.threads[id].lastBumpAt == w.flights[e.pid].copy.lastBumpAt)
  }

  lemma LastAppend(h: seq<Attempt>, x: Attempt)
    ensures LastDue(h + [x]) == if x.saved.row then Some(x.Due()) else LastDue(h)
    ensures LastOk(h + [x]) == if x.saved.row && x.answer.Bumped() then Some(x.at) else LastOk(h)
  {
    assert (h + [x])[..|h|] == h;
  }

  lemma RowAfterWrite(w: World, e: Event, id: nat)
    requires Identified(w) && Enabled(w, e) && e.Write?
    ensures Step(w, e).hist == w.hist && Step(w, e).s.db.threads.Keys == w.s.db.threads.Keys
    ensures id in w.s.db.threads ==>
              Step(w, e).s.db.threads[id] ==
              if w.held[e.pid].id == id then Edited(w.held[e.pid], e.edit) else w.s.db.threads[id]
  {
    assert Rooted(w.s.db, Edited(w.held[e.pid], e.edit));
  }

  lemma RowAfterAnswer(w: World, e: Event, id: nat)
    requires Identified(w) && Enabled(w, e) && e.Answered?
    ensures var f := w.flights[e.pid];
      var x := Entry(w, f, e.answer, e.roll, e.saved);
      && Step(w, e).s.db.threads.Keys == w.s.db.threads.Keys
      && (id in w.s.db.threads ==>
            Step(w, e).s.db.threads[id] ==
            if f.copy.id == id && e.saved.row then RowAfter(f.copy, e.answer, x.at, x.Due()) else w.s.db.threads[id])
      && Hist(Step(w, e), id) == Hist(w, id) + if f.copy.id == id then [x] else []
  {
    var f := w.flights[e.pid];
    assert Rooted(w.s.db, f.copy);
    RecordedRows(w.s, f.copy, f.acc, e.answer, e.roll, e.saved, w.clock);
    assert Step(w, e) == Finish(w, e.pid, e.answer, e.roll, e.saved);
    HistAfter(w, e.pid, e.answer, e.roll, e.saved, id);
  }

  /** A step that is neither a write-back nor an answer leaves rows alone or adds one without history. */
  lemma OtherStepsOnRows(w: World, e: Event, id: nat)
    requires Identified(w) && Enabled(w, e) && !e.Write? && !e.Answered? && id in Step(w, e).s.db.threads
    ensures if id in w.s.db.threads then Step(w, e).s.db.threads[id] == w.s.db.threads[id]
            else id !in w.hist && Step(w, e).s.db.threads[id].nextBumpAt.None? && Step(w, e).s.db.threads[id].lastBumpAt.None?
  {
  }

  lemma InStepAfterOther(w: World, e: Event, id: nat)
    requires Identified(w) && Enabled(w, e) && !e.Write? && !e.Answered?
    ensures Scheduled(w, id) ==> Scheduled(Step(w, e), id)
    ensures InStep(w, id) ==> InStep(Step(w, e), id)
  {
    OnlyAnswersMakeHistory(w, e);
    if id in Step(w, e).s.db.threads {
      OtherStepsOnRows(w, e, id);
    }
  }

  /** Whatever happens to other rows, a step keeps a row's schedule in step with its thread's history if and
      only if a write-back to this row finds the schedule it was read with. */
  lemma ScheduledIff(w: World, e: Event, id: nat)
    requires Identified(w) && Scheduled(w, id) && Enabled(w, e)
    ensures Scheduled(Step(w, e), id) <==> KeepsSchedule(w, e, id)
  {
    if e.Write? {
      RowAfterWrite(w, e, id);
    } else if e.Answered? {
      RowAfterAnswer(w, e, id);
      LastAppend(Hist(w, id), Entry(w, w.flights[e.pid], e.answer, e.roll, e.saved));
    } else {
      InStepAfterOther(w, e, id);
    }
  }

  /** The exact condition for the whole row: a step keeps it in step if and only if it is current for it. */
  lemma RowFollowsHistoryIffCurrent(w: World, e: Event, id: nat)
    requires Identified(w) && InStep(w, id) && Enabled(w, e)
    ensures InStep(Step(w, e), id) <==> Current(w, e, id)
  {
    if e.Write? {
      RowAfterWrite(w, e, id);
    } else if e.Answered? {
      RowAfterAnswer(w, e, id);
      LastAppend(Hist(w, id), Entry(w, w.flights[e.pid], e.answer, e.roll, e.saved));
    } else {
      InStepAfterOther(w, e, id);
    }
  }
}
