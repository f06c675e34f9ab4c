/**
 The pacing gate between callers. The bump loop, the stats loop and any number of panel handlers take a
 mutex, read the live delay, measure how long to wait, sleep, and mark the moment they are let through.
 What is spaced is grants: one grant may cover several requests of a forum client.
 */
module Pacing {
  import opened Types
  import opened Bumping
  import opened Gaps

  /** Where a caller stands inside pace(). `cut` says that its sleep was cancelled. */
  datatype Caller =
    | Blocked
    | Locked
    | Delayed(delay: nat)
    | Sleeping(delay: nat, since: Time, wake: Time)
    | Ready(delay: nat, since: Time, cut: bool)

  datatype Grant = Grant(pid: nat, at: Time, delay: nat, since: Time, cut: bool)

  datatype Gate = Gate(
    clock: Time, settings: Settings, lastReq: Option<Time>, holder: Option<nat>,
    callers: map<nat, Caller>, grants: seq<Grant>)

  datatype Event =
    | Wait(d: nat)
    | Configure(settings: Settings)
    | Arrive(pid: nat)
    | Lock(pid: nat)
    | ReadDelay(pid: nat)
    | Measure(pid: nat)
    | Wake(pid: nat)
    | Cancel(pid: nat)
    | Go(pid: nat)

  predicate Enabled(g: Gate, e: Event) {
    match e
    case Wait(_) => true
    case Configure(_) => true
    case Arrive(p) => p !in g.callers
    case Lock(p) => p in g.callers && g.callers[p].Blocked? && g.holder.None?
    case ReadDelay(p) => p in g.callers && g.callers[p].Locked?
    case Measure(p) => p in g.callers && g.callers[p].Delayed?
    case Wake(p) => p in g.callers && g.callers[p].Sleeping? && g.clock >= g.callers[p].wake
    case Cancel(p) => p in g.callers && g.callers[p].Sleeping?
    case Go(p) => p in g.callers && g.callers[p].Ready?
  }

  function At(g: Gate, p: nat, c: Caller): Gate {
    g.(callers := g.callers[p := c])
  }

  function Step(g: Gate, e: Event): Gate
    requires Enabled(g, e)
  {
    match e
    case Wait(d) => g.(clock := g.clock + d)
    case Configure(settings) => g.(settings := settings)
    case Arrive(p) => At(g, p, Blocked)
    case Lock(p) => At(g.(holder := Some(p)), p, Locked)
    case ReadDelay(p) => At(g, p, Delayed(RequestDelay(g.settings)))
    case Measure(p) =>
      var delay := g.callers[p].delay;
      if g.lastReq.Some? && g.lastReq.value + delay > g.clock
      then At(g, p, Sleeping(delay, g.clock, g.lastReq.value + delay))
      else At(g, p, Ready(delay, g.clock, false))
    case Wake(p) => At(g, p, Ready(g.callers[p].delay, g.callers[p].since, false))
    case Cancel(p) => At(g, p, Ready(g.callers[p].delay, g.callers[p].since, true))
    case Go(p) =>
      var c := g.callers[p];
      g.(callers := g.callers - {p}, holder := None, lastReq := Some(g.clock),
         grants := g.grants + [Grant(p, g.clock, c.delay, c.since, c.cut)])
  }

  ghost predicate Run(tr: seq<Gate>, es: seq<Event>) {
    && |tr| == |es| + 1
    && tr[0].callers == map[] && tr[0].grants == [] && tr[0].holder.None? && tr[0].lastReq.None?
    && forall k :: 0 <= k < |es| ==> Enabled(tr[k], es[k]) && tr[k + 1] == Step(tr[k], es[k])
  }

  /** What a caller that holds the lock knows about the last grant. */
  predicate Informed(g: Gate, c: Caller) {
    match c
    case Sleeping(delay, since, wake) =>
      g.lastReq.Some? && wake == g.lastReq.value + delay && since < wake && since <= g.clock
    case Ready(delay, since, cut) =>
      && since <= g.clock
      && (cut ==> g.lastReq.Some?)
      && (!cut && g.lastReq.Some? ==> g.clock >= g.lastReq.value + delay)
    case _ => true
  }

  /** How far a grant lies behind the one before it: at least the delay it read, unless it was cancelled. */
  ghost predicate Follows(a: Grant, b: Grant) {
    && b.at >= a.at
    && (!b.cut ==> b.at >= a.at + b.delay)
    && exists lag: nat :: b.at == Resume(Some(a.at), b.delay, b.since, lag, b.cut)
  }

  ghost predicate Sound(g: Gate) {
    && (forall p :: p in g.callers && !g.callers[p].Blocked? ==> g.holder == Some(p) && Informed(g, g.callers[p]))
    && (g.holder.Some? ==> g.holder.value in g.callers && !g.callers[g.holder.value].Blocked?)
    && g.lastReq == (if g.grants == [] then None else Some(g.grants[|g.grants| - 1].at))
    && (g.lastReq.Some? ==> g.lastReq.value <= g.clock)
    && (forall k :: 0 < k < |g.grants| ==> Follows(g.grants[k - 1], g.grants[k]))
  }

  lemma GoFollows(g: Gate, p: nat)
    requires Sound(g) && Enabled(g, Go(p)) && g.grants != []
    ensures Follows(g.grants[|g.grants| - 1], Step(g, Go(p)).grants[|g.grants|])
  {
    var a, c := g.grants[|g.grants| - 1], g.callers[p];
    assert Informed(g, c);
    var lag := if a.at + c.delay > c.since && !c.cut then g.clock - (a.at + c.delay) else g.clock - c.since;
    assert lag >= 0;
    assert g.clock == Resume(Some(a.at), c.delay, c.since, lag, c.cut);
  }

  lemma SoundKept(g: Gate, e: Event)
    requires Sound(g) && Enabled(g, e)
    ensures Sound(Step(g, e))
  {
    if e.Go? {
      if g.grants != [] {
        GoFollows(g, e.pid);
      }
      var h := Step(g, e);
      assert forall k :: 0 <= k < |g.grants| ==> h.grants[k] == g.grants[k];
    }
  }

  lemma {:induction false} EveryRunSound(tr: seq<Gate>, es: seq<Event>, k: nat)
    requires Run(tr, es) && k < |tr|
    ensures Sound(tr[k])
    decreases k
  {
    if k == 0 {
    } else {
      EveryRunSound(tr, es, k - 1);
      SoundKept(tr[k - 1], es[k - 1]);
    }
  }

  predicate Inside(g: Gate, p: nat) {
    p in g.callers && !g.callers[p].Blocked?
  }

  /** Under every interleaving: at most one caller is past the lock, and each grant that was not cancelled
      comes at least the delay it read under the lock after the grant before it. */
  lemma GrantsAreSpaced(tr: seq<Gate>, es: seq<Event>, k: nat)
    requires Run(tr, es) && k < |tr|
    ensures forall p, q :: Inside(tr[k], p) && Inside(tr[k], q) ==> p == q
    ensures forall i :: 0 < i < |tr[k].grants| && !tr[k].grants[i].cut ==>
              tr[k].grants[i].at >= tr[k].grants[i - 1].at + tr[k].grants[i].delay
  {
    EveryRunSound(tr, es, k);
    assert forall i :: 0 < i < |tr[k].grants| ==> Follows(tr[k].grants[i - 1], tr[k].grants[i]);
  }

  /** Each grant is the scheduler's Pace, called with what the previous grant left behind. */
  lemma GrantsArePace(tr: seq<Gate>, es: seq<Event>, k: nat, i: nat)
    requires Run(tr, es) && k < |tr| && 0 < i < |tr[k].grants|
    ensures var a, b := tr[k].grants[i - 1], tr[k].grants[i];
      exists lag: nat :: b.at == Resume(Some(a.at), b.delay, b.since, lag, b.cut)
  {
    EveryRunSound(tr, es, k);
    assert Follows(tr[k].grants[i - 1], tr[k].grants[i]);
  }

  // ----- windows -----

  ghost predicate Floor(g: Gate, d: nat) {
    && RequestDelay(g.settings) >= d
    && (forall p :: p in g.callers && (g.callers[p].Delayed? || g.callers[p].Sleeping? || g.callers[p].Ready?) ==>
          g.callers[p].delay >= d)
    && (forall i :: 0 <= i < |g.grants| ==> g.grants[i].delay >= d)
  }

  lemma {:induction false} FloorThroughout(tr: seq<Gate>, es: seq<Event>, k: nat, d: nat)
    requires Run(tr, es) && k < |tr| && RequestDelay(tr[0].settings) >= d
    requires forall i :: 0 <= i < |es| && es[i].Configure? ==> RequestDelay(es[i].settings) >= d
    ensures Floor(tr[k], d)
    decreases k
  {
    if k == 0 {
    } else {
      FloorThroughout(tr, es, k - 1, d);
      assert Enabled(tr[k - 1], es[k - 1]);
    }
  }

  function Instants(grants: seq<Grant>): (ts: seq<Time>)
    ensures |ts| == |grants| && forall k :: 0 <= k < |grants| ==> ts[k] == grants[k].at
  {
    seq(|grants|, k requires 0 <= k < |grants| => grants[k].at)
  }

  /** When the grants i + 1..j were not cancelled and read a delay of d or more, the grants i..j, within `width`
      nanoseconds of each other, are at most width / d + 1. What happened at other times does not matter. */
  lemma GrantsPerWindow(tr: seq<Gate>, es: seq<Event>, k: nat, d: nat, i: nat, j: nat, width: Time)
    requires Run(tr, es) && k < |tr| && d > 0 && i <= j < |tr[k].grants|
    requires forall n :: i < n <= j ==> !tr[k].grants[n].cut && tr[k].grants[n].delay >= d
    requires tr[k].grants[j].at - tr[k].grants[i].at <= width
    ensures j - i + 1 <= width / d + 1
  {
    GrantsAreSpaced(tr, es, k);
    var grants := tr[k].grants;
    var ts := Instants(grants)[i..j + 1];
    forall n | 0 < n < |ts| ensures ts[n] >= ts[n - 1] + d {
      assert grants[i + n].at >= grants[i + n - 1].at + grants[i + n].delay;
    }
    WindowBound(ts, d, 0, j - i, width);
  }

  /** So while the delay is never set below d, any window without a cancelled grant holds at most width / d + 1. */
  lemma GrantsPerWindowUnderFloor(tr: seq<Gate>, es: seq<Event>, k: nat, d: nat, i: nat, j: nat, width: Time)
    requires Run(tr, es) && k < |tr| && d > 0 && RequestDelay(tr[0].settings) >= d
    requires forall n :: 0 <= n < |es| && es[n].Configure? ==> RequestDelay(es[n].settings) >= d
    requires i <= j < |tr[k].grants| && forall n :: i < n <= j ==> !tr[k].grants[n].cut
    requires tr[k].grants[j].at - tr[k].grants[i].at <= width
    ensures j - i + 1 <= width / d + 1
  {
    FloorThroughout(tr, es, k, d);
    GrantsPerWindow(tr, es, k, d, i, j, width);
  }

  /** In the setting's own unit: while request_delay_ms is never set below m, any window of W nanoseconds without
      a cancelled grant holds at most W / (m * 1_000_000) + 1. */
  lemma GrantsPerWindowInMilliseconds(tr: seq<Gate>, es: seq<Event>, k: nat, m: nat, i: nat, j: nat, width: Time)
    requires Run(tr, es) && k < |tr| && m > 0 && tr[0].settings.requestDelayMs >= m
    requires forall n :: 0 <= n < |es| && es[n].Configure? ==> es[n].settings.requestDelayMs >= m
    requires i <= j < |tr[k].grants| && forall n :: i < n <= j ==> !tr[k].grants[n].cut
    requires tr[k].grants[j].at - tr[k].grants[i].at <= width
    ensures j - i + 1 <= width / (m * 1_000_000) + 1
  {
    GrantsPerWindowUnderFloor(tr, es, k, m * 1_000_000, i, j, width);
  }

  /** Nobody is stuck: the lock can be taken when it is free, whoever holds it has a step to take, a sleeper can
      go on as soon as its time has come or it is cancelled, and time can always pass. */
  lemma NobodyIsStuck(g: Gate, p: nat, d: nat, settings: Settings)
    ensures Enabled(g, Wait(d)) && Enabled(g, Configure(settings)) && (p !in g.callers ==> Enabled(g, Arrive(p)))
    ensures p in g.callers ==>
              match g.callers[p]
              case Blocked => g.holder.None? ==> Enabled(g, Lock(p))
              case Locked => Enabled(g, ReadDelay(p))
              case Delayed(_) => Enabled(g, Measure(p))
              case Sleeping(_, _, wake) => Enabled(g, Cancel(p)) && (g.clock >= wake ==> Enabled(g, Wake(p)))
              case Ready(_, _, _) => Enabled(g, Go(p))
  {
  }

  /** What each step does: time passes, settings change, and the holder reads the setting, measures, sleeps until the
      delay is over if there is any left, and marks the moment it goes. */
  lemma WhatStepsDo(g: Gate, p: nat, d: nat, settings: Settings)
    ensures Step(g, Wait(d)) == g.(clock := g.clock + d) && Step(g, Configure(settings)) == g.(settings := settings)
    ensures Enabled(g, ReadDelay(p)) ==>
              Step(g, ReadDelay(p)).callers[p] ==
              Delayed(if g.settings.requestDelayMs > 0 then g.settings.requestDelayMs * 1_000_000 else 0)
    ensures Enabled(g, Measure(p)) ==>
              var delay := g.callers[p].delay;
              Step(g, Measure(p)).callers[p] ==
              if g.lastReq.Some? && g.clock < g.lastReq.value + delay then Sleeping(delay, g.clock, g.lastReq.value + delay)
              else Ready(delay, g.clock, false)
    ensures Enabled(g, Go(p)) ==>
              var n := Step(g, Go(p));
              n.holder.None? && p !in n.callers && n.lastReq == Some(g.clock) && |n.grants| == |g.grants| + 1
              && n.grants[|g.grants|].at == g.clock
    ensures Enabled(g, Wake(p)) ==> Step(g, Wake(p)).callers[p] == Ready(g.callers[p].delay, g.callers[p].since, false)
    ensures Enabled(g, Cancel(p)) ==> Step(g, Cancel(p)).callers[p] == Ready(g.callers[p].delay, g.callers[p].since, true)
    ensures Enabled(g, Go(p)) ==>
              var grant := Step(g, Go(p)).grants[|g.grants|];
              grant.pid == p && grant.delay == g.callers[p].delay && grant.since == g.callers[p].since && grant.cut == g.callers[p].cut
  {
  }
}
