/** The steps of a run and the functions the scheduler's methods are proved against say the same: a tick of the
    loop whose attempts are answered one after the other is the pass of `ProcessDue`. */
module Refinement {
  import opened Types
  import opened Bumping
  import opened Runs

  /** The mark of the pacing gate is the gate's own business. */
  predicate SameButMark(a: Sched, b: Sched) {
    a == b.(lastReq := a.lastReq)
  }

  /** Whatever the mark says, an attempt does the same to everything else. */
  lemma BumpIgnoresMark(a: Sched, b: Sched, t: Thread, e: Env)
    requires SameButMark(a, b)
    ensures SameButMark(Bump(a, t, e), Bump(b, t, e))
  {
  }

  /** Starting an attempt and answering it at once is an attempt. */
  lemma StartAndFinish(w: World, t: Thread, e: Env)
    requires LOOP !in w.flights && Reaches(w.s.db, t)
    ensures LOOP in Start(w, LOOP, t).flights
    ensures var v := Finish(Start(w, LOOP, t).(clock := e.at), LOOP, e.answer, e.roll, e.saved);
      && SameButMark(v.s, Bump(w.s, t, e))
      && v.queue == w.queue && v.flights == w.flights - {LOOP} && v.clock == e.at
  {
  }

  /** The steps of the loop's next attempt: it is launched, and if it reaches the forum, time passes until the
      answer comes. */
  function RoundEvents(w: World, e: Env): seq<Event>
    requires w.queue != [] && e.at >= w.clock
  {
    if Reaches(w.s.db, w.queue[0]) then [Launch, Wait(e.at - w.clock), Answered(LOOP, e.answer, e.roll, e.saved)]
    else [Launch]
  }

  /** The states after these steps from `w` on, each enabled in its turn. */
  ghost predicate Path(ws: seq<World>, es: seq<Event>) {
    && |ws| == |es| + 1
    && forall k :: 0 <= k < |es| ==> Enabled(ws[k], es[k]) && ws[k + 1] == Step(ws[k], es[k])
  }

  lemma RoundIsBump(w: World, e: Env) returns (ws: seq<World>)
    requires w.queue != [] && LOOP !in w.flights && e.at >= w.clock
    ensures Path(ws, RoundEvents(w, e)) && ws[0] == w
    ensures var v := ws[|ws| - 1];
      && SameButMark(v.s, Bump(w.s, w.queue[0], e))
      && v.queue == w.queue[1..] && LOOP !in v.flights && w.clock <= v.clock
      && (v.clock == w.clock || v.clock == e.at)
  {
    var u := w.(queue := w.queue[1..]);
    var w1 := Start(u, LOOP, w.queue[0]);
    assert w1 == Step(w, Launch);
    if Reaches(w.s.db, w.queue[0]) {
      StartAndFinish(u, w.queue[0], e);
      var w2 := Step(w1, Wait(e.at - w.clock));
      assert w2 == w1.(clock := e.at);
      ws := [w, w1, w2, Step(w2, Answered(LOOP, e.answer, e.roll, e.saved))];
    } else {
      ws := [w, w1];
    }
  }

  lemma PathsJoin(a: seq<World>, es: seq<Event>, b: seq<World>, fs: seq<Event>)
    requires Path(a, es) && Path(b, fs) && a[|a| - 1] == b[0]
    ensures Path(a + b[1..], es + fs)
  {
    var ws, gs := a + b[1..], es + fs;
    assert forall k :: 0 <= k < |fs| ==> gs[|es| + k] == fs[k];
    assert forall k :: 0 <= k < |b| ==> ws[|es| + k] == b[k];
    assert forall k :: 0 <= k < |a| ==> ws[k] == a[k];
  }

  /** The clock of the answers: none before the one before it, nor before the tick. */
  ghost predicate Timely(env: nat -> Env, from: Time) {
    forall j: nat, k: nat :: j <= k ==> from <= env(j).at <= env(k).at
  }

  /** A tick followed by n of these rounds is a pass over the first n rows of the due list. */
  lemma {:induction false} RoundsArePass(w: World, due: seq<Thread>, env: nat -> Env, n: nat)
      returns (ws: seq<World>, es: seq<Event>)
    requires Enabled(w, Tick(due)) && n <= |due| && Timely(env, w.clock)
    ensures Path(ws, es) && ws[0] == w && es != [] && es[0] == Tick(due)
    ensures var v := ws[|ws| - 1];
      && SameButMark(v.s, Pass(w.s, due, env, n))
      && v.queue == due[n..] && LOOP !in v.flights && w.clock <= v.clock && v.clock <= env(n).at
  {
    if n == 0 {
      es := [Tick(due)];
      ws := [w, Step(w, Tick(due))];
      assert due[0..] == due;
    } else {
      ws, es := RoundsArePass(w, due, env, n - 1);
      var u := ws[|ws| - 1];
      assert env(n - 1).at <= env(n).at && u.queue[0] == due[n - 1] && u.queue[1..] == due[n..];
      var more := RoundIsBump(u, env(n - 1));
      PathsJoin(ws, es, more, RoundEvents(u, env(n - 1)));
      BumpIgnoresMark(u.s, Pass(w.s, due, env, n - 1), due[n - 1], env(n - 1));
      ws, es := ws + more[1..], es + RoundEvents(u, env(n - 1));
    }
  }
}
