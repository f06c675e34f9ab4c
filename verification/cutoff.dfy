/** Runs in which restarts cut attempts off before their answer is written down, so that the thread stays due. */
module CutOffs {
  import opened Types
  import opened Runs
  import opened LostUpdate

  /** One more start, at time 0, whose answer never came. */
  ghost predicate CutShort(w: World, v: World) {
    && Idle(v, ROW) && Hist(v, 1) == Hist(w, 1) && v.boot == w.boot + 1
    && Tries(v, 1) == Tries(w, 1) + [Try(0, w.boot, None)]
  }

  lemma OneCut(w: World)
    requires Idle(w, ROW)
    ensures Enabled(w, Tick([ROW]))
    ensures Enabled(Step(w, Tick([ROW])), Launch)
    ensures CutShort(w, Step(Step(Step(w, Tick([ROW])), Launch), Restart))
  {
    RoundStarts(w, ROW);
  }

  ghost predicate Untouched(es: seq<Event>) {
    forall k :: 0 <= k < |es| ==> !es[k].Manual? && !es[k].Write? && !es[k].Wait?
  }

  lemma CutRound(tr: seq<World>, es: seq<Event>) returns (tr': seq<World>, es': seq<Event>)
    requires Run(tr, es) && Idle(tr[|es|], ROW)
    ensures Run(tr', es') && es' == es + [Tick([ROW]), Launch, Restart] && CutShort(tr[|es|], tr'[|es'|])
    ensures tr <= tr'
  {
    OneCut(tr[|es|]);
    tr', es' := Next(tr, es, Tick([ROW]));
    tr', es' := Next(tr', es', Launch);
    tr', es' := Next(tr', es', Restart);
  }

  /** For every n there is a run without manual bump, write-back or passing of time in which a thread with an
      interval of four hours is started n times at the same instant and has no answer in its history. */
  lemma {:induction false} RestartsRepeatAttempts(w: World, n: nat) returns (tr: seq<World>, es: seq<Event>)
    requires Initial(w) && w.clock == 0 && w.s.settings == SETTINGS
    ensures Run(tr, es) && Untouched(es) && Idle(tr[|es|], ROW) && Hist(tr[|es|], 1) == []
    ensures |Tries(tr[|es|], 1)| == n && forall k :: 0 <= k < n ==> Tries(tr[|es|], 1)[k].start == 0
  {
    if n == 0 {
      Setup(w);
      es := [];
      tr := [w];
      tr, es := Next(tr, es, NewAccount(ACCOUNT));
      tr, es := Next(tr, es, NewThread(ROW));
    } else {
      tr, es := RestartsRepeatAttempts(w, n - 1);
      tr, es := CutRound(tr, es);
    }
  }
}
