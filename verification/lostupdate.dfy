/** A run in which one stale title write makes the bot attempt a thread twice at the same instant. */
module LostUpdate {
  import opened Types
  import opened Bumping
  import opened Runs
  import opened Safety

  const SETTINGS := Settings(86400, 14400, 0, 0, 365, true)
  const ACCOUNT := Account(LOLZ, "main", true, StatusOk)
  const ROW := Thread(1, 1, LOLZ, "7", "", 14400, true, None, None)
  const BUMPED := Reply(true, "bumped", 0)
  const ALL := Saved(true, true, true)

  /** A database holding just this account and this row, the bot idle. */
  ghost predicate Idle(w: World, row: Thread) {
    && w.s.db.accounts == map[1 := ACCOUNT] && w.s.db.threads == map[1 := row]
    && w.queue == [] && w.flights == map[] && w.clock == 0 && w.s.settings == SETTINGS
  }

  /** `v` is `w` after one bump of the row, at time 0. */
  ghost predicate Rounded(w: World, v: World, row: Thread) {
    && Idle(v, row.(nextBumpAt := Some(14400 * SECOND), lastBumpAt := Some(0)))
    && v.held == w.held
    && Hist(v, 1) == Hist(w, 1) + [Attempt(0, 0, BUMPED, 14400, 0, Count(w.s.backoff, 1), w.boot, w.s.Listening(), [], ALL)]
  }

  /** `w` with one attempt on the row under way. */
  function Aloft(w: World, row: Thread): World {
    w.(listedAt := 0, flights := map[LOOP := Flight(row, ACCOUNT, 0, |Tries(w, 1)|)],
       tries := w.tries[1 := Tries(w, 1) + [Try(0, w.boot, None)]])
  }

  ghost predicate Fresh(row: Thread) {
    && row.id == 1 && row.accountId == 1 && row.forum == LOLZ
    && row.enabled && row.nextBumpAt.None? && row.intervalSec == 14400
  }

  lemma RoundStarts(w: World, row: Thread)
    requires Idle(w, row) && Fresh(row)
    ensures Enabled(w, Tick([row]))
    ensures Enabled(Step(w, Tick([row])), Launch)
    ensures Step(Step(w, Tick([row])), Launch) == Aloft(w, row)
  {
    var due := [row];
    assert IsDueList(w.s.db, 0, due) by {
      assert due[0].id == 1;
    }
    var v := Step(w, Tick(due));
    assert v.queue[0] == row && v.queue[1..] == w.queue;
  }

  lemma RoundEnds(w: World, row: Thread)
    requires Idle(w, row) && Fresh(row)
    ensures Rounded(w, Finish(Aloft(w, row), LOOP, BUMPED, 0, ALL), row)
  {
    var u := Aloft(w, row);
    assert Recorded(u.s, row, ACCOUNT, BUMPED, 0, ALL, 0).accounts == w.s.db.accounts;
    assert NextDue(u.s, row, BUMPED, 0, 0) == 14400 * SECOND;
    assert Alerts(u.s, row, ACCOUNT, BUMPED) == [];
  }

  lemma OneRound(w: World, row: Thread)
    requires Idle(w, row) && Fresh(row)
    ensures Enabled(w, Tick([row]))
    ensures Enabled(Step(w, Tick([row])), Launch)
    ensures Enabled(Step(Step(w, Tick([row])), Launch), Answered(LOOP, BUMPED, 0, ALL))
    ensures Rounded(w, Step(Step(Step(w, Tick([row])), Launch), Answered(LOOP, BUMPED, 0, ALL)), row)
  {
    RoundStarts(w, row);
    RoundEnds(w, row);
  }

  /** Account and thread appear, a handler reads the row, the loop bumps it; then the handler writes. */
  function Prologue(): seq<Event> {
    [NewAccount(ACCOUNT), NewThread(ROW), Read(1, 1), Tick([ROW]), Launch, Answered(LOOP, BUMPED, 0, ALL)]
  }

  lemma RunExtends(tr: seq<World>, es: seq<Event>, e: Event)
    requires Run(tr, es) && Enabled(tr[|es|], e)
    ensures Run(tr + [Step(tr[|es|], e)], es + [e])
  {
  }

  lemma Setup(w: World)
    requires Initial(w) && w.clock == 0 && w.s.settings == SETTINGS
    ensures Run([w], []) && Enabled(w, NewAccount(ACCOUNT))
    ensures var w1 := Step(w, NewAccount(ACCOUNT));
      Enabled(w1, NewThread(ROW)) &&
      var w2 := Step(w1, NewThread(ROW));
      Idle(w2, ROW) && Tries(w2, 1) == [] && Hist(w2, 1) == [] && Enabled(w2, Read(1, 1)) &&
      var w3 := Step(w2, Read(1, 1));
      Idle(w3, ROW) && w3.held == map[1 := ROW] && w3.hist == map[]
  {
  }

  lemma AfterPrologue(w: World) returns (tr: seq<World>)
    requires Initial(w) && w.clock == 0 && w.s.settings == SETTINGS
    ensures Run(tr, Prologue()) && tr[0] == w
    ensures Idle(tr[6], ROW.(nextBumpAt := Some(14400 * SECOND), lastBumpAt := Some(0)))
    ensures tr[6].held == map[1 := ROW]
    ensures |Hist(tr[6], 1)| == 1 && Hist(tr[6], 1)[0].Due() == 14400 * SECOND
  {
    Setup(w);
    var es := [];
    tr := [w];
    tr, es := Next(tr, es, NewAccount(ACCOUNT));
    tr, es := Next(tr, es, NewThread(ROW));
    tr, es := Next(tr, es, Read(1, 1));
    tr, es := Round(tr, es, ROW);
    assert es == Prologue();
  }

  lemma Round(tr: seq<World>, es: seq<Event>, row: Thread) returns (tr': seq<World>, es': seq<Event>)
    requires Run(tr, es) && Idle(tr[|es|], row) && Fresh(row)
    ensures Run(tr', es') && es' == es + [Tick([row]), Launch, Answered(LOOP, BUMPED, 0, ALL)] && tr <= tr'
    ensures Rounded(tr[|es|], tr'[|es'|], row)
  {
    OneRound(tr[|es|], row);
    tr', es' := Next(tr, es, Tick([row]));
    tr', es' := Next(tr', es', Launch);
    tr', es' := Next(tr', es', Answered(LOOP, BUMPED, 0, ALL));
  }

  lemma Next(tr: seq<World>, es: seq<Event>, e: Event) returns (tr': seq<World>, es': seq<Event>)
    requires Run(tr, es) && Enabled(tr[|es|], e)
    ensures Run(tr', es') && es' == es + [e]
    ensures tr' == tr + [Step(tr[|es|], e)]
  {
    RunExtends(tr, es, e);
    tr', es' := tr + [Step(tr[|es|], e)], es + [e];
  }

  lemma StaleTitle(w: World)
    requires Idle(w, ROW.(nextBumpAt := Some(14400 * SECOND), lastBumpAt := Some(0))) && w.held == map[1 := ROW]
    ensures var e := Write(1, Retitle("title"));
      Enabled(w, e) && !KeepsSchedule(w, e, 1) && Idle(Step(w, e), ROW.(title := "title")) && Step(w, e).hist == w.hist
  {
  }

  /** The tenth step of this run answers a second attempt that started at the very instant of the first,
      although the first set a delay of four hours. Its only write-back, step 6, is not current. */
  lemma LostUpdateBreaksSpacing(w: World) returns (tr: seq<World>, es: seq<Event>)
    requires Initial(w) && w.clock == 0 && w.s.settings == SETTINGS
    ensures Run(tr, es) && |es| == 10
    ensures forall k :: 0 <= k < |es| ==> !es[k].Manual? && (es[k].Write? ==> k == 6)
    ensures Enabled(tr[6], es[6]) && !KeepsSchedule(tr[6], es[6], 1)
    ensures |Hist(tr[10], 1)| == 2 && Hist(tr[10], 1)[1].start == 0 && Hist(tr[10], 1)[0].Due() == 14400 * SECOND
  {
    var stale := ROW.(title := "title");
    tr := AfterPrologue(w);
    var write := Write(1, Retitle("title"));
    StaleTitle(tr[6]);
    es := Prologue();
    tr, es := Next(tr, es, write);
    tr, es := Round(tr, es, stale);
  }
}
