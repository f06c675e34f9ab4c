/** The view-count history of a thread, and the baselines the panel compares the newest figures with. */
module Stats {
  import opened Types

  predicate Candidate(s: Snapshot, threadId: nat, since: Option<Time>) {
    s.threadId == threadId && (since.Some? ==> s.at >= since.value)
  }

  ghost predicate Any(rows: seq<Snapshot>, threadId: nat, since: Option<Time>) {
    exists k :: 0 <= k < |rows| && Candidate(rows[k], threadId, since)
  }

  /** One of the earliest rows of the thread at or after `since`; which of two taken at once is left open. */
  ghost predicate Earliest(rows: seq<Snapshot>, threadId: nat, since: Option<Time>, r: Snapshot) {
    && r in rows && Candidate(r, threadId, since)
    && forall k :: 0 <= k < |rows| && Candidate(rows[k], threadId, since) ==> r.at <= rows[k].at
  }

  /** What SnapshotAround may answer: the earliest row at or after `t`, or else the oldest. */
  ghost predicate Baseline(rows: seq<Snapshot>, threadId: nat, t: Time, r: Snapshot) {
    Earliest(rows, threadId, if Any(rows, threadId, Some(t)) then Some(t) else None, r)
  }

  method Select(rows: seq<Snapshot>, threadId: nat, since: Option<Time>) returns (r: Option<Snapshot>)
    ensures r.Some? <==> Any(rows, threadId, since)
    ensures r.Some? ==> Earliest(rows, threadId, since, r.value)
  {
    r := None;
    for i := 0 to |rows|
      invariant r.Some? <==> Any(rows[..i], threadId, since)
      invariant r.Some? ==> Earliest(rows[..i], threadId, since, r.value)
    {
      assert rows[..i + 1] == rows[..i] + [rows[i]];
      assert forall k :: 0 <= k < i ==> rows[..i + 1][k] == rows[..i][k];
      if Candidate(rows[i], threadId, since) {
        assert rows[..i + 1][i] == rows[i];
        if r.None? || rows[i].at < r.value.at {
          r := Some(rows[i]);
        }
      }
    }
    assert rows[..|rows|] == rows;
  }

  /** The longer period's baseline is never later than the shorter one's, if and only if there is a row
      at or after the later instant, or none after the earlier one, or no row before the earlier one. */
  lemma BaselinesInOrder(rows: seq<Snapshot>, threadId: nat, t1: Time, t2: Time, r1: Snapshot, r2: Snapshot)
    requires t1 <= t2 && Baseline(rows, threadId, t1, r1) && Baseline(rows, threadId, t2, r2)
    ensures r1.at <= r2.at <==>
              || Any(rows, threadId, Some(t2))
              || !Any(rows, threadId, Some(t1))
              || forall k :: 0 <= k < |rows| && rows[k].threadId == threadId ==> rows[k].at >= t1
  {
    if Any(rows, threadId, Some(t2)) {
      assert Any(rows, threadId, Some(t1));
    }
  }

  /** So right after a refresh the 7-day baseline never postdates the 24-hour one. */
  lemma FreshBaselinesInOrder(rows: seq<Snapshot>, latest: Snapshot, now: Time, r24: Snapshot, r7d: Snapshot)
    requires latest.at >= now - 24 * 3600 * SECOND
    requires Baseline(rows + [latest], latest.threadId, now - 24 * 3600 * SECOND, r24)
    requires Baseline(rows + [latest], latest.threadId, now - 7 * 24 * 3600 * SECOND, r7d)
    ensures r7d.at <= r24.at <= latest.at
  {
    var all := rows + [latest];
    assert all[|rows|] == latest;
    BaselinesInOrder(all, latest.threadId, now - 7 * 24 * 3600 * SECOND, now - 24 * 3600 * SECOND, r7d, r24);
  }

  /** The baseline, column by column: a row of the thread; at or after t and the earliest such when there is one, and
      the oldest of all when there is none. */
  lemma BaselineColumns(rows: seq<Snapshot>, threadId: nat, t: Time, r: Snapshot)
    requires Baseline(rows, threadId, t, r)
    ensures r in rows && r.threadId == threadId
    ensures if exists x :: x in rows && x.threadId == threadId && x.at >= t
            then r.at >= t && forall x :: x in rows && x.threadId == threadId && x.at >= t ==> r.at <= x.at
            else forall x :: x in rows && x.threadId == threadId ==> r.at <= x.at
  {
    forall x | x in rows ensures exists k :: 0 <= k < |rows| && rows[k] == x {
    }
  }
}
