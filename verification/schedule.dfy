/**
 Schedule safety of whole runs, restarts included, thread by thread. Hypotheses about the thread in question
 only: it is not bumped by hand, and no handler writes back a copy of its row whose schedule an attempt has
 changed since it was read. `LostUpdateBreaksSpacing` shows that the second cannot be dropped.
 */
module Schedule {
  import opened Types
  import opened Int64
  import opened Tables
  import opened Bumping
  import opened Runs
  import opened RunLaws
  import opened Safety
  import opened Gaps
  import opened Sqlite

  // ----- the log and the row tell the same story -----

  function LastOkRow(logs: seq<BumpLog>): Option<Time> {
    if logs == [] then None
    else if logs[|logs| - 1].ok then Some(logs[|logs| - 1].at)
    else LastOkRow(logs[..|logs| - 1])
  }

  function Bumps(h: seq<Attempt>): nat {
    if h == [] then 0 else Bumps(h[..|h| - 1]) + if h[|h| - 1].answer.Bumped() then 1 else 0
  }

  function LastBumped(h: seq<Attempt>): Option<Time> {
    if h == [] then None
    else if h[|h| - 1].answer.Bumped() then Some(h[|h| - 1].at)
    else LastBumped(h[..|h| - 1])
  }

  lemma {:induction false} MirrorCounts(logs: seq<BumpLog>, h: seq<Attempt>)
    requires Mirrors(logs, h)
    ensures LastOkRow(logs) == LastBumped(h) && OkCount(logs) == Bumps(h)
  {
    if h == [] {
    } else {
      MirrorCounts(logs[..|logs| - 1], h[..|h| - 1]);
    }
  }

  lemma {:induction false} WrittenFrom(h: seq<Attempt>)
    ensures forall x :: x in Written(h) ==> x in h
  {
    if h == [] {
    } else {
      WrittenFrom(h[..|h| - 1]);
      assert forall x :: x in h[..|h| - 1] ==> x in h;
    }
  }

  /** Nothing is missing in the log if and only if every log entry got through. */
  lemma {:induction false} WrittenAll(h: seq<Attempt>)
    ensures |Written(h)| <= |h|
    ensures (forall k :: 0 <= k < |h| ==> h[k].saved.log) <==> |Written(h)| == |h|
    ensures |Written(h)| == |h| ==> Written(h) == h
  {
    if h == [] {
    } else {
      var front := h[..|h| - 1];
      WrittenAll(front);
      assert h == front + [h[|h| - 1]];
    }
  }

  lemma {:induction false} WrittenInOrder(h: seq<Attempt>)
    requires forall j, k :: 0 <= j < k < |h| ==> h[j].at <= h[k].at
    ensures forall j, k :: 0 <= j < k < |Written(h)| ==> Written(h)[j].at <= Written(h)[k].at
  {
    if h == [] {
    } else {
      var front := h[..|h| - 1];
      WrittenInOrder(front);
      WrittenFrom(front);
      assert forall x :: x in front ==> x.at <= h[|h| - 1].at;
    }
  }

  /** The writes of the row and of the log entry succeed or fail together. */
  ghost predicate Together(h: seq<Attempt>) {
    forall k :: 0 <= k < |h| ==> h[k].saved.row == h[k].saved.log
  }

  lemma {:induction false} TogetherAgrees(h: seq<Attempt>)
    requires Together(h)
    ensures LastDue(h) == if Written(h) == [] then None else Some(Written(h)[|Written(h)| - 1].Due())
    ensures LastOk(h) == LastBumped(Written(h))
  {
    if h == [] {
    } else {
      var front, last := h[..|h| - 1], h[|h| - 1];
      TogetherAgrees(front);
      if last.saved.log {
        assert Written(h)[..|Written(front)|] == Written(front);
      } else {
        assert Written(h) == Written(front);
      }
    }
  }

  lemma {:induction false} ThreadLogsIds(logs: seq<BumpLog>, id: nat)
    requires forall j, k :: 0 <= j < k < |logs| ==> logs[j].id < logs[k].id
    ensures forall j, k :: 0 <= j < k < |ThreadLogs(logs, id)| ==> ThreadLogs(logs, id)[j].id < ThreadLogs(logs, id)[k].id
    ensures forall k :: 0 <= k < |ThreadLogs(logs, id)| ==> ThreadLogs(logs, id)[k] in logs
  {
    if logs == [] {
    } else {
      ThreadLogsIds(logs[..|logs| - 1], id);
    }
  }

  /** Every step of the run is current for this row. */
  ghost predicate AlwaysCurrent(tr: seq<World>, es: seq<Event>, id: nat) {
    Run(tr, es) && forall k :: 0 <= k < |es| ==> Enabled(tr[k], es[k]) && Current(tr[k], es[k], id)
  }

  lemma {:induction false} InStepThroughout(tr: seq<World>, es: seq<Event>, k: nat, id: nat)
    requires AlwaysCurrent(tr, es, id) && k < |tr|
    ensures InStep(tr[k], id)
    decreases k
  {
    if k == 0 {
    } else {
      InStepThroughout(tr, es, k - 1, id);
      EveryRunKeeps(tr, es, k - 1);
      RowFollowsHistoryIffCurrent(tr[k - 1], es[k - 1], id);
    }
  }

  /** In every run, whatever is lost: a live thread's log tells, in order, the answers whose log entry got
      through, and it is the whole history if and only if all did. */
  lemma LogTellsHistory(tr: seq<World>, es: seq<Event>, k: nat, id: nat)
    requires Run(tr, es) && k < |tr| && id in tr[k].s.db.threads
    ensures var logs, h := ThreadLogs(tr[k].s.db.logs, id), Hist(tr[k], id);
      && Chronological(logs) && Mirrors(logs, Written(h)) && OkCount(logs) == Bumps(Written(h))
      && (Mirrors(logs, h) <==> forall i :: 0 <= i < |h| ==> h[i].saved.log)
  {
    EveryRunKeeps(tr, es, k);
    var logs, h := ThreadLogs(tr[k].s.db.logs, id), Hist(tr[k], id);
    ThreadLogsIds(tr[k].s.db.logs, id);
    assert Consistent(h) && Mirrors(logs, Written(h));
    MirrorCounts(logs, Written(h));
    WrittenInOrder(h);
    LogIsHistoryIff(logs, h);
  }

  lemma LogIsHistoryIff(logs: seq<BumpLog>, h: seq<Attempt>)
    requires Mirrors(logs, Written(h))
    ensures Mirrors(logs, h) <==> forall i :: 0 <= i < |h| ==> h[i].saved.log
  {
    WrittenAll(h);
  }

  /** And without lost updates on it a row agrees with its log, as long as the writes of row and log entry
      succeed or fail together: next_bump_at is next_at of the newest log row, last_bump_at is the instant of the
      newest successful one. Manual bumps are allowed here, and whatever happens to other rows. */
  lemma RowAgreesWithLog(tr: seq<World>, es: seq<Event>, k: nat, id: nat)
    requires AlwaysCurrent(tr, es, id) && k < |tr| && id in tr[k].s.db.threads && Together(Hist(tr[k], id))
    ensures var row := tr[k].s.db.threads[id];
      var logs := ThreadLogs(tr[k].s.db.logs, id);
      && row.nextBumpAt == (if logs == [] then None else logs[|logs| - 1].nextAt)
      && row.lastBumpAt == LastOkRow(logs)
  {
    InStepThroughout(tr, es, k, id);
    EveryRunKeeps(tr, es, k);
    LogShowsRow(ThreadLogs(tr[k].s.db.logs, id), Hist(tr[k], id));
  }

  lemma LogShowsRow(logs: seq<BumpLog>, h: seq<Attempt>)
    requires Mirrors(logs, Written(h)) && Together(h)
    ensures LastDue(h) == if logs == [] then None else logs[|logs| - 1].nextAt
    ensures LastOk(h) == LastOkRow(logs)
  {
    MirrorCounts(logs, Written(h));
    TogetherAgrees(h);
  }

  // ----- the loop and its copies of one row -----

  /** A copy of a due row is as current as the row: no answer has come between. */
  ghost predicate Pending(w: World, t: Thread) {
    && t.nextBumpAt == LastDue(Hist(w, t.id))
    && (t.nextBumpAt.Some? ==> t.nextBumpAt.value <= w.listedAt)
  }

  predicate Busy(w: World, id: nat) {
    LOOP in w.flights && w.flights[LOOP].copy.id == id
  }

  /** What the loop holds of this thread: nobody else attempts it, and there is one copy of it at most. */
  ghost predicate LoopFor(w: World, id: nat) {
    && w.listedAt <= w.clock
    && (forall p :: p in w.flights && w.flights[p].copy.id == id ==> p == LOOP)
    && (forall k :: 0 <= k < |w.queue| && w.queue[k].id == id ==> Pending(w, w.queue[k]))
    && (forall j, k :: 0 <= j < k < |w.queue| ==> w.queue[j].id != id || w.queue[k].id != id)
    && (Busy(w, id) ==> forall k :: 0 <= k < |w.queue| ==> w.queue[k].id != id)
  }

  lemma LoopAfterTick(w: World, e: Event, id: nat)
    requires LoopFor(w, id) && Scheduled(w, id) && Enabled(w, e) && e.Tick?
    ensures LoopFor(Step(w, e), id)
  {
  }

  lemma LoopAfterAnswer(w: World, e: Event, id: nat)
    requires LoopFor(w, id) && Enabled(w, e) && e.Answered?
    ensures LoopFor(Step(w, e), id)
  {
    var v := Step(w, e);
    assert v == Finish(w, e.pid, e.answer, e.roll, e.saved);
    forall k | 0 <= k < |v.queue| && v.queue[k].id == id ensures Pending(v, v.queue[k]) {
      assert Pending(w, w.queue[k]);
      HistAfter(w, e.pid, e.answer, e.roll, e.saved, id);
    }
  }

  /** What a start adds. */
  lemma StartLaw(w: World, pid: nat, t: Thread)
    ensures var v := Start(w, pid, t);
      && v.queue == w.queue && v.listedAt == w.listedAt && v.clock == w.clock && v.boot == w.boot && v.hist == w.hist
      && (v == w || (pid in v.flights && v.flights[pid].copy == t))
      && (forall p :: p != pid ==> (p in v.flights <==> p in w.flights) && (p in w.flights ==> v.flights[p] == w.flights[p]))
      && (forall id :: id != t.id ==> Tries(v, id) == Tries(w, id))
  {
  }

  lemma LoopAfterLaunch(w: World, e: Event, id: nat)
    requires LoopFor(w, id) && Enabled(w, e) && e.Launch?
    ensures LoopFor(Step(w, e), id)
  {
    var u := w.(queue := w.queue[1..]);
    assert forall k :: 0 <= k < |u.queue| ==> u.queue[k] == w.queue[k + 1];
    assert LoopFor(u, id) by {
      assert forall t :: Pending(w, t) <==> Pending(u, t);
    }
    StartLaw(u, LOOP, w.queue[0]);
    var v := Start(u, LOOP, w.queue[0]);
    assert Step(w, e) == v;
    assert forall t :: Pending(u, t) <==> Pending(v, t);
  }

  /** A manual bump of another thread is no concern of this one. */
  lemma ManualLaw(w: World, e: Event, id: nat)
    requires Identified(w) && Enabled(w, e) && e.Manual? && e.id != id
    ensures var v := Step(w, e);
      && v.queue == w.queue && v.listedAt == w.listedAt && v.clock == w.clock && v.boot == w.boot && v.hist == w.hist
      && Tries(v, id) == Tries(w, id)
      && (forall p :: p in v.flights && v.flights[p].copy.id == id ==> p in w.flights && v.flights[p] == w.flights[p])
      && (LOOP in w.flights <==> LOOP in v.flights) && (LOOP in w.flights ==> v.flights[LOOP] == w.flights[LOOP])
  {
    StartLaw(w, e.pid, w.s.db.threads[e.id]);
  }

  lemma LoopAfterManual(w: World, e: Event, id: nat)
    requires Identified(w) && LoopFor(w, id) && Enabled(w, e) && e.Manual? && e.id != id
    ensures LoopFor(Step(w, e), id)
  {
    ManualLaw(w, e, id);
    assert forall t :: Pending(w, t) <==> Pending(Step(w, e), t);
  }

  lemma OtherStepsOnLoop(w: World, e: Event)
    requires Enabled(w, e) && !e.Tick? && !e.Launch? && !e.Manual? && !e.Answered? && !e.Restart?
    ensures var v := Step(w, e);
      v.queue == w.queue && v.flights == w.flights && v.listedAt == w.listedAt && v.clock >= w.clock
      && v.tries == w.tries && v.boot == w.boot
  {
  }

  lemma LoopAfterOther(w: World, e: Event, id: nat)
    requires LoopFor(w, id) && Enabled(w, e) && !e.Tick? && !e.Launch? && !e.Manual? && !e.Answered?
    ensures LoopFor(Step(w, e), id)
  {
    OnlyAnswersMakeHistory(w, e);
    if !e.Restart? {
      OtherStepsOnLoop(w, e);
      var v := Step(w, e);
      assert forall t :: Pending(w, t) ==> Pending(v, t);
    }
  }

  /** Manual bumps of other threads do not matter. */
  lemma LoopKept(w: World, e: Event, id: nat)
    requires Identified(w) && LoopFor(w, id) && Scheduled(w, id) && Enabled(w, e) && (e.Manual? ==> e.id != id)
    ensures LoopFor(Step(w, e), id)
  {
    if e.Tick? {
      LoopAfterTick(w, e, id);
    } else if e.Launch? {
      LoopAfterLaunch(w, e, id);
    } else if e.Manual? {
      LoopAfterManual(w, e, id);
    } else if e.Answered? {
      LoopAfterAnswer(w, e, id);
    } else {
      LoopAfterOther(w, e, id);
    }
  }

  // ----- the starts of one thread -----

  /** The answers among these starts. */
  function Completed(ts: seq<Try>): seq<Attempt> {
    if ts == [] then []
    else Completed(ts[..|ts| - 1]) + if ts[|ts| - 1].done.Some? then [ts[|ts| - 1].done.value] else []
  }

  /** Its answer reached the row. */
  predicate Reached(t: Try) {
    t.done.Some? && t.done.value.saved.row
  }

  /** No start lies before what an earlier answer set on the row. */
  ghost predicate Punctual(ts: seq<Try>) {
    forall j, k :: 0 <= j < k < |ts| && Reached(ts[j]) ==> ts[k].start >= ts[j].done.value.Due()
  }

  /** Starts are in the order of time, an answer belongs to its start, and a start that never got its answer
      is in an earlier life of the process than the starts after it. */
  ghost predicate Sequenced(ts: seq<Try>) {
    && (forall k :: 0 <= k < |ts| && ts[k].done.Some? ==>
          ts[k].done.value.start == ts[k].start && ts[k].done.value.at >= ts[k].start)
    && (forall j, k :: 0 <= j < k < |ts| ==> ts[j].start <= ts[k].start && (ts[j].done.None? ==> ts[j].boot < ts[k].boot))
  }

  /** As seen at this time in this life: nothing is in the future, and a start of this life without answer is
      the last one, under way. */
  ghost predicate AsOf(ts: seq<Try>, clock: Time, boot: nat, busy: bool) {
    && (forall k :: 0 <= k < |ts| ==> ts[k].start <= clock && ts[k].boot <= boot)
    && (forall k :: 0 <= k < |ts| && ts[k].done.None? && ts[k].boot == boot ==> busy && k == |ts| - 1)
    && (busy ==> ts != [] && ts[|ts| - 1].done.None? && ts[|ts| - 1].boot == boot)
  }

  ghost predicate Tracked(w: World, id: nat) {
    var ts := Tries(w, id);
    && Punctual(ts) && Sequenced(ts) && AsOf(ts, w.clock, w.boot, Busy(w, id)) && Completed(ts) == Hist(w, id)
    && (Busy(w, id) ==> w.flights[LOOP].nth == |ts| - 1 && ts[|ts| - 1].start == w.flights[LOOP].start)
  }

  lemma CompletedAppend(ts: seq<Try>, x: Try)
    ensures Completed(ts + [x]) == Completed(ts) + if x.done.Some? then [x.done.value] else []
  {
    assert (ts + [x])[..|ts|] == ts;
  }

  lemma PunctualAppend(ts: seq<Try>, x: Try)
    requires Punctual(ts) && forall k :: 0 <= k < |ts| ==> ts[k].start <= x.start
    requires LastDue(Completed(ts)).Some? ==> x.start >= LastDue(Completed(ts)).value
    ensures Punctual(ts + [x])
  {
    var us := ts + [x];
    if ts != [] && Reached(ts[|ts| - 1]) {
      assert LastDue(Completed(ts)) == Some(ts[|ts| - 1].done.value.Due());
    }
    forall j, k | 0 <= j < k < |us| && Reached(us[j]) ensures us[k].start >= us[j].done.value.Due() {
      if k == |ts| && j < |ts| - 1 {
        assert ts[|ts| - 1].start >= ts[j].done.value.Due();
      }
    }
  }

  lemma SequencedAppend(ts: seq<Try>, clock: Time, boot: nat)
    requires Sequenced(ts) && AsOf(ts, clock, boot, false)
    ensures Sequenced(ts + [Try(clock, boot, None)]) && AsOf(ts + [Try(clock, boot, None)], clock, boot, true)
  {
  }

  lemma PunctualClose(ts: seq<Try>, x: Attempt)
    requires Punctual(ts) && ts != [] && ts[|ts| - 1].done.None?
    ensures Punctual(Close(ts, |ts| - 1, x)) && Completed(Close(ts, |ts| - 1, x)) == Completed(ts) + [x]
  {
    assert Close(ts, |ts| - 1, x)[..|ts| - 1] == ts[..|ts| - 1];
  }

  lemma SequencedClose(ts: seq<Try>, clock: Time, boot: nat, x: Attempt)
    requires Sequenced(ts) && AsOf(ts, clock, boot, true) && x.start == ts[|ts| - 1].start && x.at >= x.start
    ensures Sequenced(Close(ts, |ts| - 1, x)) && AsOf(Close(ts, |ts| - 1, x), clock, boot, false)
  {
  }

  lemma StartTracked(w: World, pid: nat, t: Thread)
    requires Tracked(w, t.id) && !Busy(w, t.id) && pid == LOOP && Reaches(w.s.db, t)
    requires LastDue(Hist(w, t.id)).Some? ==> LastDue(Hist(w, t.id)).value <= w.clock
    ensures Tracked(Start(w, pid, t), t.id)
  {
    var v, ts := Start(w, pid, t), Tries(w, t.id);
    PunctualAppend(ts, Try(w.clock, w.boot, None));
    CompletedAppend(ts, Try(w.clock, w.boot, None));
    SequencedAppend(ts, w.clock, w.boot);
    assert Tries(v, t.id) == ts + [Try(w.clock, w.boot, None)];
    assert Hist(v, t.id) == Hist(w, t.id);
  }

  lemma StartOfOther(w: World, pid: nat, t: Thread, id: nat)
    requires t.id != id || !Reaches(w.s.db, t)
    ensures Tries(Start(w, pid, t), id) == Tries(w, id) && Hist(Start(w, pid, t), id) == Hist(w, id)
  {
  }

  lemma TrackedAfterLaunch(w: World, e: Event, id: nat)
    requires LoopFor(w, id) && Tracked(w, id) && Enabled(w, e) && e.Launch?
    ensures Tracked(Step(w, e), id)
  {
    var t, u := w.queue[0], w.(queue := w.queue[1..]);
    assert Step(w, e) == Start(u, LOOP, t);
    assert Tries(u, id) == Tries(w, id) && Hist(u, id) == Hist(w, id) && !Busy(u, id);
    if t.id == id && Reaches(w.s.db, t) {
      assert Pending(w, t);
      StartTracked(u, LOOP, t);
    } else {
      StartOfOther(u, LOOP, t, id);
    }
  }

  lemma TrackedAfterAnswer(w: World, e: Event, id: nat)
    requires LoopFor(w, id) && Tracked(w, id) && Enabled(w, e) && e.Answered?
    ensures Tracked(Step(w, e), id)
  {
    var f := w.flights[e.pid];
    assert Step(w, e) == Finish(w, e.pid, e.answer, e.roll, e.saved);
    HistAfter(w, e.pid, e.answer, e.roll, e.saved, id);
    if f.copy.id == id {
      FinishTracked(w, e.answer, e.roll, e.saved, id);
    } else {
      FinishOfOther(w, e.pid, e.answer, e.roll, e.saved, id);
    }
  }

  lemma FinishTracked(w: World, a: Answer, roll: nat, saved: Saved, id: nat)
    requires Tracked(w, id) && Busy(w, id)
    ensures Tracked(Finish(w, LOOP, a, roll, saved), id)
  {
    var v, ts := Finish(w, LOOP, a, roll, saved), Tries(w, id);
    var x := Entry(w, w.flights[LOOP], a, roll, saved);
    HistAfter(w, LOOP, a, roll, saved, id);
    PunctualClose(ts, x);
    SequencedClose(ts, w.clock, w.boot, x);
    assert Tries(v, id) == Close(ts, |ts| - 1, x) && !Busy(v, id);
  }

  lemma FinishOfOther(w: World, pid: nat, a: Answer, roll: nat, saved: Saved, id: nat)
    requires pid in w.flights && w.flights[pid].copy.id != id
    ensures var v := Finish(w, pid, a, roll, saved);
      && Tries(v, id) == Tries(w, id) && Busy(v, id) == Busy(w, id) && v.clock == w.clock && v.boot == w.boot
      && (Busy(w, id) ==> v.flights[LOOP] == w.flights[LOOP])
  {
  }

  lemma TrackedFrame(w: World, v: World, id: nat)
    requires Tracked(w, id) && Tries(v, id) == Tries(w, id) && Hist(v, id) == Hist(w, id)
    requires v.clock >= w.clock && v.boot == w.boot && Busy(v, id) == Busy(w, id)
    requires Busy(w, id) ==> v.flights[LOOP] == w.flights[LOOP]
    ensures Tracked(v, id)
  {
  }

  lemma TrackedAfterRestart(w: World, v: World, id: nat)
    requires Tracked(w, id) && Tries(v, id) == Tries(w, id) && Hist(v, id) == Hist(w, id)
    requires v.clock >= w.clock && v.boot == w.boot + 1 && !Busy(v, id)
    ensures Tracked(v, id)
  {
  }

  lemma TrackedAfterOther(w: World, e: Event, id: nat)
    requires Tracked(w, id) && Enabled(w, e) && !e.Launch? && !e.Answered? && !e.Manual?
    ensures Tracked(Step(w, e), id)
  {
    OnlyAnswersMakeHistory(w, e);
    if e.Restart? {
      TrackedAfterRestart(w, Step(w, e), id);
    } else {
      if !e.Tick? {
        OtherStepsOnLoop(w, e);
      }
      TrackedFrame(w, Step(w, e), id);
    }
  }

  lemma TrackedKept(w: World, e: Event, id: nat)
    requires Identified(w) && LoopFor(w, id) && Tracked(w, id) && Enabled(w, e) && (e.Manual? ==> e.id != id)
    ensures Tracked(Step(w, e), id)
  {
    if e.Launch? {
      TrackedAfterLaunch(w, e, id);
    } else if e.Answered? {
      TrackedAfterAnswer(w, e, id);
    } else if e.Manual? {
      ManualLaw(w, e, id);
    } else {
      TrackedAfterOther(w, e, id);
    }
  }

  // ----- the theorems -----

  /** The runs of the theorems: no manual bump of this thread, and no lost update on its schedule. */
  ghost predicate Undisturbed(tr: seq<World>, es: seq<Event>, id: nat) {
    && Run(tr, es)
    && forall k :: 0 <= k < |es| ==>
         Enabled(tr[k], es[k]) && (es[k].Manual? ==> es[k].id != id) && KeepsSchedule(tr[k], es[k], id)
  }

  ghost predicate OnSchedule(w: World, id: nat) {
    Scheduled(w, id) && LoopFor(w, id) && Tracked(w, id)
  }

  lemma OnScheduleKept(w: World, e: Event, id: nat)
    requires Identified(w) && OnSchedule(w, id) && Enabled(w, e) && (e.Manual? ==> e.id != id) && KeepsSchedule(w, e, id)
    ensures OnSchedule(Step(w, e), id)
  {
    ScheduledIff(w, e, id);
    LoopKept(w, e, id);
    TrackedKept(w, e, id);
  }

  lemma {:induction false} UndisturbedKeeps(tr: seq<World>, es: seq<Event>, k: nat, id: nat)
    requires Undisturbed(tr, es, id) && k < |tr|
    ensures OnSchedule(tr[k], id)
    decreases k
  {
    if k == 0 {
    } else {
      UndisturbedKeeps(tr, es, k - 1, id);
      EveryRunKeeps(tr, es, k - 1);
      OnScheduleKept(tr[k - 1], es[k - 1], id);
    }
  }

  // ----- the loop never loses an update by itself -----

  /** The copies the loop holds of this row show the thread's last success. */
  ghost predicate CopiesInStep(w: World, id: nat) {
    && (forall k :: 0 <= k < |w.queue| && w.queue[k].id == id ==> w.queue[k].lastBumpAt == LastOk(Hist(w, id)))
    && (Busy(w, id) ==> w.flights[LOOP].copy.lastBumpAt == LastOk(Hist(w, id)))
  }

  lemma CopiesAfterLaunch(w: World, e: Event, id: nat)
    requires CopiesInStep(w, id) && Enabled(w, e) && e.Launch?
    ensures CopiesInStep(Step(w, e), id)
  {
    var u := w.(queue := w.queue[1..]);
    StartLaw(u, LOOP, w.queue[0]);
    assert forall k :: 0 <= k < |u.queue| ==> u.queue[k] == w.queue[k + 1];
    assert Hist(Step(w, e), id) == Hist(w, id);
  }

  lemma CopiesAfterAnswer(w: World, e: Event, id: nat)
    requires LoopFor(w, id) && CopiesInStep(w, id) && Enabled(w, e) && e.Answered?
    ensures CopiesInStep(Step(w, e), id)
  {
    assert Step(w, e) == Finish(w, e.pid, e.answer, e.roll, e.saved);
    HistAfter(w, e.pid, e.answer, e.roll, e.saved, id);
  }

  lemma CopiesAfterOther(w: World, e: Event, id: nat)
    requires CopiesInStep(w, id) && InStep(w, id) && Enabled(w, e) && !e.Launch? && !e.Manual? && !e.Answered?
    ensures CopiesInStep(Step(w, e), id)
  {
    OnlyAnswersMakeHistory(w, e);
    if !e.Tick? && !e.Restart? {
      OtherStepsOnLoop(w, e);
    }
  }

  /** Without manual bumps of this thread the loop's own write-backs to its row are current whenever the
      handlers' are. */
  lemma LoopIsCurrent(w: World, e: Event, id: nat)
    requires Identified(w) && InStep(w, id) && LoopFor(w, id) && CopiesInStep(w, id) && Enabled(w, e)
    requires (e.Manual? ==> e.id != id) && (e.Write? ==> Current(w, e, id))
    ensures Current(w, e, id) && CopiesInStep(Step(w, e), id)
  {
    if e.Launch? {
      CopiesAfterLaunch(w, e, id);
    } else if e.Manual? {
      ManualLaw(w, e, id);
    } else if e.Answered? {
      CopiesAfterAnswer(w, e, id);
    } else {
      CopiesAfterOther(w, e, id);
    }
  }

  /** So it is enough to look at handlers: without manual bumps of a thread and with current write-backs to its
      row, every step of the run is current for the row. */
  lemma HandlersDecide(tr: seq<World>, es: seq<Event>, id: nat)
    requires Run(tr, es)
    requires forall k :: 0 <= k < |es| ==>
               Enabled(tr[k], es[k]) && (es[k].Manual? ==> es[k].id != id) && (es[k].Write? ==> Current(tr[k], es[k], id))
    ensures AlwaysCurrent(tr, es, id)
  {
    forall k | 0 <= k < |es| ensures Current(tr[k], es[k], id) {
      CurrentUpTo(tr, es, k, id);
      EveryRunKeeps(tr, es, k);
      LoopIsCurrent(tr[k], es[k], id);
    }
  }

  lemma {:induction false} CurrentUpTo(tr: seq<World>, es: seq<Event>, k: nat, id: nat)
    requires Run(tr, es) && k < |tr|
    requires forall k :: 0 <= k < |es| ==>
               Enabled(tr[k], es[k]) && (es[k].Manual? ==> es[k].id != id) && (es[k].Write? ==> Current(tr[k], es[k], id))
    ensures InStep(tr[k], id) && LoopFor(tr[k], id) && CopiesInStep(tr[k], id)
    decreases k
  {
    if k == 0 {
    } else {
      CurrentUpTo(tr, es, k - 1, id);
      EveryRunKeeps(tr, es, k - 1);
      CurrentStep(tr[k - 1], es[k - 1], id);
    }
  }

  lemma CurrentStep(w: World, e: Event, id: nat)
    requires Identified(w) && InStep(w, id) && LoopFor(w, id) && CopiesInStep(w, id) && Enabled(w, e)
    requires (e.Manual? ==> e.id != id) && (e.Write? ==> Current(w, e, id))
    ensures InStep(Step(w, e), id) && LoopFor(Step(w, e), id) && CopiesInStep(Step(w, e), id)
  {
    LoopIsCurrent(w, e, id);
    RowFollowsHistoryIffCurrent(w, e, id);
    LoopKept(w, e, id);
  }

  // ----- what an answer asks for -----

  /** What the i-th answer asks for, told from the history alone and without wrap-around: half an hour after
      refused credentials, the rung for the n-th error in a row after other errors, the forum's wait and a minute,
      or the interval with its jitter. */
  function Asked(h: seq<Attempt>, i: nat): Time
    requires i < |h|
  {
    match h[i].answer
    case AuthError => 1800 * SECOND
    case OtherError(_) =>
      var n := ErrRun(h[..i + 1], h[i].boot);
      (if n <= 1 then 60 else if n == 2 then 300 else if n == 3 then 900 else 3600) * SECOND
    case Reply(ok, _, retryAfter) =>
      if !ok && retryAfter > 0 then retryAfter + 60 * SECOND else (h[i].intervalSec + h[i].jitter) * SECOND
  }

  lemma AskedIsIdeal(h: seq<Attempt>, i: nat)
    requires Consistent(h) && i < |h|
    ensures Asked(h, i) == h[i].Ideal()
  {
    if h[i].answer.OtherError? {
      LadderStep(h, i);
    }
  }

  /** The exact condition: an answer sets the delay it asks for if and only if that fits in 64 bits. */
  lemma DueAsAskedIff(h: seq<Attempt>, i: nat)
    requires Consistent(h) && i < |h|
    ensures h[i].Due() == h[i].at + Asked(h, i) <==> Fits(Asked(h, i))
  {
    AskedIsIdeal(h, i);
    DelayIsIdealIff(h[i].answer, h[i].intervalSec, h[i].jitter, h[i].stored);
  }

  /** A forum's wait within a minute of the largest duration wraps to the far past: the thread is due again at
      once, for more than two centuries. */
  lemma LongWaitIsDueAtOnce(x: Attempt)
    requires x.answer.Reply? && !x.answer.ok && MAX64 - 60 * SECOND < x.answer.retryAfter <= MAX64
    ensures x.Due() < x.at - 292 * 365 * 86400 * SECOND
  {
    assert Wrap(x.answer.retryAfter + RETRY_BUFFER) == x.answer.retryAfter + RETRY_BUFFER - M64 by {
      WrapLaws(x.answer.retryAfter + RETRY_BUFFER, x.answer.retryAfter + RETRY_BUFFER - M64);
    }
  }

  lemma {:induction false} CompletedPrefix(ts: seq<Try>, n: nat)
    requires n <= |ts|
    ensures Completed(ts[..n]) <= Completed(ts)
    decreases |ts|
  {
    if n == |ts| {
      assert ts[..n] == ts;
    } else {
      CompletedPrefix(ts[..|ts| - 1], n);
      assert ts[..|ts| - 1][..n] == ts[..n];
    }
  }

  /** The place of a start's answer among the answers. */
  lemma CompletedAt(ts: seq<Try>, j: nat)
    requires j < |ts| && ts[j].done.Some?
    ensures |Completed(ts[..j])| < |Completed(ts)| && Completed(ts)[|Completed(ts[..j])|] == ts[j].done.value
  {
    assert ts[..j + 1] == ts[..j] + [ts[j]];
    CompletedAppend(ts[..j], ts[j]);
    CompletedPrefix(ts, j + 1);
  }

  /** Schedule safety, for every start n of a thread, be it answered, under way or cut off by a restart, and every
      answered start j before it whose answer reached the row: start n comes no earlier than what that answer set,
      which is what it asked for whenever that fits in 64 bits. */
  lemma ScheduleSafety(tr: seq<World>, es: seq<Event>, k: nat, id: nat, j: nat, n: nat)
    requires Undisturbed(tr, es, id) && k < |tr| && j < n < |Tries(tr[k], id)| && Reached(Tries(tr[k], id)[j])
    ensures Completed(Tries(tr[k], id)) == Hist(tr[k], id)
    ensures var ts, h := Tries(tr[k], id), Hist(tr[k], id);
      var i := |Completed(ts[..j])|;
      && i < |h| && h[i] == ts[j].done.value && ts[n].start >= h[i].Due()
      && (Fits(Asked(h, i)) ==> ts[n].start >= h[i].at + Asked(h, i))
  {
    UndisturbedKeeps(tr, es, k, id);
    EveryRunKeeps(tr, es, k);
    var ts, h := Tries(tr[k], id), Hist(tr[k], id);
    assert Consistent(h);
    CompletedAt(ts, j);
    DueAsAskedIff(h, |Completed(ts[..j])|);
  }

  // ----- how many in a window -----

  /** An interval of a minute or more, and a delay that fits. */
  ghost predicate Modest(x: Attempt) {
    x.intervalSec >= 60 && Fits(x.Ideal())
  }

  lemma DelayAtLeastAMinute(x: Attempt)
    requires Modest(x)
    ensures x.Due() >= x.at + 60 * SECOND
  {
    DelayIsIdealIff(x.answer, x.intervalSec, x.jitter, x.stored);
  }

  function Starts(ts: seq<Try>): (r: seq<Time>)
    ensures |r| == |ts| && forall k :: 0 <= k < |ts| ==> r[k] == ts[k].start
  {
    seq(|ts|, k requires 0 <= k < |ts| => ts[k].start)
  }

  /** Which starts pushed the row's schedule on. */
  function Pushed(ts: seq<Try>): (r: seq<bool>)
    ensures |r| == |ts| && forall k :: 0 <= k < |ts| ==> r[k] == Reached(ts[k])
  {
    seq(|ts|, k requires 0 <= k < |ts| => Reached(ts[k]))
  }

  lemma StartsSpread(ts: seq<Try>, i: nat, j: nat)
    requires Punctual(ts) && Sequenced(ts) && i <= j < |ts|
    requires forall n :: i <= n < j && Reached(ts[n]) ==> Modest(ts[n].done.value)
    ensures Gapping(Starts(ts), Pushed(ts), 60 * SECOND, i, j)
  {
    forall n | i < n <= j ensures Starts(ts)[n] >= Starts(ts)[n - 1] + if Pushed(ts)[n - 1] then 60 * SECOND else 0 {
      if Reached(ts[n - 1]) {
        DelayAtLeastAMinute(ts[n - 1].done.value);
      }
    }
  }

  /** With intervals of a minute or more, the starts of one thread within any window of `width` nanoseconds are
      at most width / 60 s + 1, and those among them that did not push the schedule on. Each of these was cut off
      by a restart before the last start of the window, or its row could not be written. */
  lemma StartsPerWindow(tr: seq<World>, es: seq<Event>, k: nat, id: nat, i: nat, j: nat, width: Time)
    requires Undisturbed(tr, es, id) && k < |tr| && i <= j < |Tries(tr[k], id)|
    requires forall n :: i <= n < j && Reached(Tries(tr[k], id)[n]) ==> Modest(Tries(tr[k], id)[n].done.value)
    requires Tries(tr[k], id)[j].start - Tries(tr[k], id)[i].start <= width
    ensures var ts := Tries(tr[k], id);
      && j - i + 1 <= width / (60 * SECOND) + 1 + Loose(Pushed(ts), i, j)
      && forall n :: i <= n < j && !Pushed(ts)[n] ==>
           if ts[n].done.None? then ts[n].boot < ts[j].boot else !ts[n].done.value.saved.row
  {
    UndisturbedKeeps(tr, es, k, id);
    var ts := Tries(tr[k], id);
    StartsSpread(ts, i, j);
    LooseWindowBound(Starts(ts), Pushed(ts), 60 * SECOND, i, j, width);
  }

  /** So when no restart comes between the window's first start and its last and no row write is lost, the plain
      bound holds. */
  lemma StartsPerWindowOfOneLife(tr: seq<World>, es: seq<Event>, k: nat, id: nat, i: nat, j: nat, width: Time)
    requires Undisturbed(tr, es, id) && k < |tr| && i <= j < |Tries(tr[k], id)|
    requires forall n :: i <= n < j ==> Tries(tr[k], id)[n].boot == Tries(tr[k], id)[j].boot
    requires forall n :: i <= n < j && Tries(tr[k], id)[n].done.Some? ==>
               Tries(tr[k], id)[n].done.value.saved.row && Modest(Tries(tr[k], id)[n].done.value)
    requires Tries(tr[k], id)[j].start - Tries(tr[k], id)[i].start <= width
    ensures j - i + 1 <= width / (60 * SECOND) + 1
  {
    StartsPerWindow(tr, es, k, id, i, j, width);
    NoneLoose(Pushed(Tries(tr[k], id)), i, j);
  }

  /** Answered attempts: each starts no earlier than what those before it set on the row. */
  ghost predicate Spaced(h: seq<Attempt>) {
    forall j, k :: 0 <= j < k < |h| ==>
      h[j].start <= h[k].start && h[j].start <= h[j].at && (h[j].saved.row ==> h[k].start >= h[j].Due())
  }

  lemma {:induction false} CompletedFrom(ts: seq<Try>, x: Attempt) returns (j: nat)
    requires x in Completed(ts)
    ensures j < |ts| && ts[j].done == Some(x)
  {
    var last := ts[|ts| - 1].done;
    if last == Some(x) {
      j := |ts| - 1;
    } else {
      j := CompletedFrom(ts[..|ts| - 1], x);
    }
  }

  lemma {:induction false} AnsweredAreSpaced(ts: seq<Try>)
    requires Punctual(ts) && Sequenced(ts)
    ensures Spaced(Completed(ts))
  {
    if ts == [] {
    } else {
      var front, last := ts[..|ts| - 1], ts[|ts| - 1];
      AnsweredAreSpaced(front);
      if last.done.Some? {
        forall x | x in Completed(front)
          ensures x.start <= last.start && x.start <= x.at && (x.saved.row ==> last.start >= x.Due())
        {
          var j := CompletedFrom(front, x);
          assert ts[j].done.value == x && ts[j].start == x.start;
        }
        SpacedAppend(Completed(front), last.done.value);
        assert Completed(ts) == Completed(front) + [last.done.value];
      } else {
        assert Completed(ts) == Completed(front);
      }
    }
  }

  lemma SpacedAppend(h: seq<Attempt>, x: Attempt)
    requires Spaced(h)
    requires forall y :: y in h ==> y.start <= x.start && y.start <= y.at && (y.saved.row ==> x.start >= y.Due())
    ensures Spaced(h + [x])
  {
    assert forall j :: 0 <= j < |h| ==> h[j] in h;
  }

  function AnswerStarts(h: seq<Attempt>): (r: seq<Time>)
    ensures |r| == |h| && forall k :: 0 <= k < |h| ==> r[k] == h[k].start
  {
    seq(|h|, k requires 0 <= k < |h| => h[k].start)
  }

  function RowsSaved(h: seq<Attempt>): (r: seq<bool>)
    ensures |r| == |h| && forall k :: 0 <= k < |h| ==> r[k] == h[k].saved.row
  {
    seq(|h|, k requires 0 <= k < |h| => h[k].saved.row)
  }

  lemma AnswersSpread(h: seq<Attempt>, i: nat, j: nat)
    requires Spaced(h) && i <= j < |h| && forall n :: i <= n < j && h[n].saved.row ==> Modest(h[n])
    ensures Gapping(AnswerStarts(h), RowsSaved(h), 60 * SECOND, i, j)
  {
    forall n | i < n <= j
      ensures AnswerStarts(h)[n] >= AnswerStarts(h)[n - 1] + if RowsSaved(h)[n - 1] then 60 * SECOND else 0
    {
      if h[n - 1].saved.row {
        DelayAtLeastAMinute(h[n - 1]);
      }
    }
  }

  /** The answered attempts of one thread that start within any window number at most width / 60 s + 1, and those
      among them whose row could not be written, whatever restarts fall into the window. */
  lemma AttemptsPerWindow(tr: seq<World>, es: seq<Event>, k: nat, id: nat, i: nat, j: nat, width: Time)
    requires Undisturbed(tr, es, id) && k < |tr| && i <= j < |Hist(tr[k], id)|
    requires forall n :: i <= n < j && Hist(tr[k], id)[n].saved.row ==> Modest(Hist(tr[k], id)[n])
    requires Hist(tr[k], id)[j].start - Hist(tr[k], id)[i].start <= width
    ensures j - i + 1 <= width / (60 * SECOND) + 1 + Loose(RowsSaved(Hist(tr[k], id)), i, j)
  {
    UndisturbedKeeps(tr, es, k, id);
    var h := Hist(tr[k], id);
    AnsweredAreSpaced(Tries(tr[k], id));
    AnswersSpread(h, i, j);
    LooseWindowBound(AnswerStarts(h), RowsSaved(h), 60 * SECOND, i, j, width);
  }
}
