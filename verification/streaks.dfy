/** Three answers in a row that are not a success, told over runs from the replies themselves. */
module Streaks {
  import opened Bumping
  import opened Runs
  import opened RunLaws
  import opened Safety
  import opened Schedule

  predicate SaysOk(a: Answer) {
    match a
    case AuthError => false
    case OtherError(_) => false
    case Reply(ok, _, _) => ok
  }

  /** How many of these notices are about a streak. */
  function StreakCount(ns: seq<Notice>): nat {
    if ns == [] then 0 else StreakCount(ns[..|ns| - 1]) + if ns[|ns| - 1].Streak? then 1 else 0
  }

  /** Right after a success, a restart or the beginning. */
  ghost predicate NoFailureBefore(h: seq<Attempt>, boot: nat) {
    h == [] || h[|h| - 1].boot != boot || SaysOk(h[|h| - 1].answer)
  }

  lemma {:induction false} NoStreakNoCount(ns: seq<Notice>)
    requires forall k :: 0 <= k < |ns| ==> !ns[k].Streak?
    ensures StreakCount(ns) == 0
  {
    if ns == [] {
    } else {
      NoStreakNoCount(ns[..|ns| - 1]);
    }
  }

  /** One streak message when it was reported, none otherwise. */
  lemma CountReported(before: seq<Attempt>, x: Attempt)
    requires Treated(before, x)
    ensures StreakCount(x.pushed) == if Reported(x) then 1 else 0
  {
    var ns := x.pushed;
    if !Reported(x) {
      assert forall k :: 0 <= k < |ns| && ns[k].Streak? ==> Streak(ns[k].thread) in ns;
      NoStreakNoCount(ns);
    } else {
      var name :| Streak(name) in ns;
      if |ns| == 1 {
        assert ns[0] == Streak(name) && ns[..0] == [];
      } else {
        CountOfTwo(ns, name, x);
      }
    }
  }

  lemma CountOfTwo(ns: seq<Notice>, name: string, x: Attempt)
    requires |ns| == 2 && ns == x.pushed && Streak(name) in ns && Warned(x)
    ensures StreakCount(ns) == 1
  {
    var account :| AccountLost(account) in ns;
    assert ns[..1][..0] == [] && ns[..1][0] == ns[0];
    assert StreakCount(ns[..1]) == if ns[0].Streak? then 1 else 0;
  }

  lemma TreatedAt(g: seq<Attempt>, before: seq<Attempt>, x: Attempt)
    requires Consistent(g) && before + [x] <= g
    ensures Treated(before, x)
  {
    assert g[|before|] == (before + [x])[|before|] == x;
    assert g[..|before|] == before;
    assert Treated(g[..|before|], g[|before|]);
  }

  lemma OneMoreFailure(before: seq<Attempt>, x: Attempt, failures: nat)
    requires Treated(before, x) && FailRun(before, x.boot) == failures && !SaysOk(x.answer)
    ensures FailRun(before + [x], x.boot) == failures + 1
    ensures StreakCount(x.pushed) == if x.listening && failures + 1 == 3 then 1 else 0
  {
    RunsAppend(before, x, x.boot);
    CountReported(before, x);
  }

  /** Three such answers of one life in a row, the first of their kind, with the owner listening at the third:
      one streak message, with the third. */
  lemma ThirdIsReported(h: seq<Attempt>, x: Attempt, y: Attempt, z: Attempt)
    requires Consistent(h + [x] + [y] + [z]) && NoFailureBefore(h, x.boot) && x.boot == y.boot == z.boot && z.listening
    requires !SaysOk(x.answer) && !SaysOk(y.answer) && !SaysOk(z.answer)
    ensures StreakCount(x.pushed) == 0 && StreakCount(y.pushed) == 0 && StreakCount(z.pushed) == 1
  {
    var g := h + [x] + [y] + [z];
    TreatedAt(g, h, x);
    TreatedAt(g, h + [x], y);
    TreatedAt(g, h + [x] + [y], z);
    OneMoreFailure(h, x, 0);
    OneMoreFailure(h + [x], y, 1);
    OneMoreFailure(h + [x] + [y], z, 2);
  }

  lemma LastOkStays(h: seq<Attempt>, x: Attempt)
    requires !SaysOk(x.answer)
    ensures LastOk(h + [x]) == LastOk(h)
  {
    LastAppend(h, x);
  }

  /** The messages of one answer stand together in what was sent. */
  lemma {:induction false} MessagesContain(hist: map<nat, seq<Attempt>>, told: seq<Place>, k: nat)
      returns (a: seq<Notice>, b: seq<Notice>)
    requires k < |told|
    ensures Messages(hist, told) == a + PushedAt(hist, told[k]) + b
  {
    var front := told[..|told| - 1];
    if k == |told| - 1 {
      a, b := Messages(hist, front), [];
    } else {
      a, b := MessagesContain(hist, front, k);
      b := b + PushedAt(hist, told[|told| - 1]);
    }
  }

  /** In every run that is current for the row: while a thread gets three answers that are not ok, the first after a
      success, a restart or the beginning, and the owner listens at the third, exactly one streak message is sent with
      them, and the row's last bump stays. */
  lemma ThreeFailures(tr: seq<World>, es: seq<Event>, j: nat, k: nat, id: nat, x: Attempt, y: Attempt, z: Attempt)
      returns (a: seq<Notice>, b: seq<Notice>)
    requires AlwaysCurrent(tr, es, id) && j <= k < |tr| && id in tr[j].s.db.threads && id in tr[k].s.db.threads
    requires Hist(tr[k], id) == Hist(tr[j], id) + [x] + [y] + [z] && NoFailureBefore(Hist(tr[j], id), x.boot)
    requires x.boot == y.boot == z.boot == tr[k].boot && z.listening
    requires !SaysOk(x.answer) && !SaysOk(y.answer) && !SaysOk(z.answer)
    ensures tr[k].s.sent == a + z.pushed + b
    ensures StreakCount(x.pushed) == 0 && StreakCount(y.pushed) == 0 && StreakCount(z.pushed) == 1
    ensures tr[k].s.db.threads[id].lastBumpAt == tr[j].s.db.threads[id].lastBumpAt
  {
    var h := Hist(tr[j], id);
    EveryRunKeeps(tr, es, k);
    assert Consistent(Hist(tr[k], id));
    ThirdIsReported(h, x, y, z);
    assert Hist(tr[k], id)[|h| + 2] == z;
    a, b := SentTogether(tr[k], id, |h| + 2);
    InStepThroughout(tr, es, j, id);
    InStepThroughout(tr, es, k, id);
    LastOkOfThree(h, x, y, z);
  }

  lemma LastOkOfThree(h: seq<Attempt>, x: Attempt, y: Attempt, z: Attempt)
    requires !SaysOk(x.answer) && !SaysOk(y.answer) && !SaysOk(z.answer)
    ensures LastOk(h + [x] + [y] + [z]) == LastOk(h)
  {
    LastOkStays(h, x);
    LastOkStays(h + [x], y);
    LastOkStays(h + [x] + [y], z);
  }

  lemma SentTogether(w: World, id: nat, i: nat) returns (a: seq<Notice>, b: seq<Notice>)
    requires Delivered(w) && i < |Hist(w, id)| && Hist(w, id)[i].boot == w.boot
    ensures w.s.sent == a + Hist(w, id)[i].pushed + b
  {
    assert Place(id, i) in w.told;
    var k :| 0 <= k < |w.told| && w.told[k] == Place(id, i);
    a, b := MessagesContain(w.hist, w.told, k);
  }
}
