/** The SQLite storage as an object: tables are fields, statements are methods. */
module Sqlite {
  import opened Types
  import opened Tables
  import opened Bumping
  import opened Stats

  // ----- ORDER BY next_bump_at -----

  /** Puts a row behind every row that is not scheduled later. */
  function InsertDue(out: seq<Thread>, t: Thread): seq<Thread> {
    if out == [] || NotAfter(out[|out| - 1].nextBumpAt, t.nextBumpAt) then out + [t]
    else InsertDue(out[..|out| - 1], t) + [out[|out| - 1]]
  }

  lemma {:induction false} InsertDueMembers(out: seq<Thread>, t: Thread, x: Thread)
    ensures x in InsertDue(out, t) <==> x in out || x == t
  {
    if out == [] || NotAfter(out[|out| - 1].nextBumpAt, t.nextBumpAt) {
    } else {
      InsertDueMembers(out[..|out| - 1], t, x);
    }
  }

  lemma {:induction false} InsertDueOrders(out: seq<Thread>, t: Thread)
    requires Ordered(out) && forall x :: x in out ==> x.id != t.id
    ensures Ordered(InsertDue(out, t))
  {
    if out == [] || NotAfter(out[|out| - 1].nextBumpAt, t.nextBumpAt) {
    } else {
      var front := out[..|out| - 1];
      InsertDueOrders(front, t);
      forall x | x in InsertDue(front, t)
        ensures x.id != out[|out| - 1].id && NotAfter(x.nextBumpAt, out[|out| - 1].nextBumpAt)
      {
        InsertDueMembers(front, t, x);
      }
    }
  }

  // ----- ORDER BY at DESC, id DESC -----

  predicate Newer(a: BumpLog, b: BumpLog) {
    a.at > b.at || (a.at == b.at && a.id > b.id)
  }

  function InsertLog(out: seq<BumpLog>, l: BumpLog): seq<BumpLog> {
    if out == [] || Newer(l, out[0]) then [l] + out else [out[0]] + InsertLog(out[1..], l)
  }

  function NewestFirst(logs: seq<BumpLog>): seq<BumpLog> {
    if logs == [] then [] else InsertLog(NewestFirst(logs[..|logs| - 1]), logs[|logs| - 1])
  }

  lemma {:induction false} InsertLogAdds(out: seq<BumpLog>, l: BumpLog)
    ensures multiset(InsertLog(out, l)) == multiset(out) + multiset{l}
  {
    if out == [] || Newer(l, out[0]) {
    } else {
      InsertLogAdds(out[1..], l);
      assert out == [out[0]] + out[1..];
    }
  }

  /** No row stands before a newer one. */
  ghost predicate Descending(out: seq<BumpLog>) {
    forall j, k :: 0 <= j < k < |out| ==> !Newer(out[k], out[j])
  }

  lemma {:induction false} InsertLogKeepsOrder(out: seq<BumpLog>, l: BumpLog)
    requires Descending(out)
    ensures Descending(InsertLog(out, l))
  {
    if out == [] || Newer(l, out[0]) {
    } else {
      var rest := InsertLog(out[1..], l);
      InsertLogKeepsOrder(out[1..], l);
      InsertLogAdds(out[1..], l);
      forall k | 0 <= k < |rest| ensures !Newer(rest[k], out[0]) {
        assert rest[k] in multiset(out[1..]) + multiset{l};
      }
    }
  }

  /** The listing holds every selected row once, no row before a newer one. */
  lemma {:induction false} NewestFirstSorts(logs: seq<BumpLog>)
    ensures multiset(NewestFirst(logs)) == multiset(logs)
    ensures Descending(NewestFirst(logs))
  {
    if logs == [] {
    } else {
      var front := logs[..|logs| - 1];
      NewestFirstSorts(front);
      InsertLogAdds(NewestFirst(front), logs[|logs| - 1]);
      InsertLogKeepsOrder(NewestFirst(front), logs[|logs| - 1]);
      assert logs == front + [logs[|logs| - 1]];
    }
  }

  function Reversed<T>(s: seq<T>): seq<T> {
    if s == [] then [] else [s[|s| - 1]] + Reversed(s[..|s| - 1])
  }

  /** Rows were appended under a clock that never ran backwards. */
  ghost predicate Chronological(logs: seq<BumpLog>) {
    forall j, k :: 0 <= j < k < |logs| ==> logs[j].at <= logs[k].at && logs[j].id < logs[k].id
  }

  /** Under a monotone clock "most recent first" is reverse append order. */
  lemma {:induction false} ListingIsReverseAppend(logs: seq<BumpLog>)
    requires Chronological(logs)
    ensures NewestFirst(logs) == Reversed(logs)
  {
    if logs == [] {
    } else {
      var front := logs[..|logs| - 1];
      ListingIsReverseAppend(front);
      if front != [] {
        assert Reversed(front)[0] == front[|front| - 1];
      }
    }
  }

  function Selected(logs: seq<BumpLog>, threadId: nat): seq<BumpLog> {
    if threadId == 0 then logs else ThreadLogs(logs, threadId)
  }

  function Limit<T>(s: seq<T>, limit: int): seq<T> {
    var n := if limit <= 0 then 20 else limit;
    if |s| <= n then s else s[..n]
  }

  lemma LimitKeepsOrder(out: seq<BumpLog>, limit: int)
    requires Descending(out)
    ensures Descending(Limit(out, limit)) && multiset(Limit(out, limit)) <= multiset(out)
  {
    var n := |Limit(out, limit)|;
    assert out == out[..n] + out[n..];
  }

  /** What a listing is: rows of the selection, none before a newer one, as many as the limit allows. */
  ghost predicate Listing(out: seq<BumpLog>, rows: seq<BumpLog>, limit: int) {
    && Descending(out) && multiset(out) <= multiset(rows) && |out| == |Limit(rows, limit)|
    && (|out| == |rows| ==> multiset(out) == multiset(rows))
    && forall k, l :: 0 <= k < |out| && l in multiset(rows) - multiset(out) ==> !Newer(l, out[k])
  }

  lemma LimitedListing(rows: seq<BumpLog>, limit: int)
    ensures Listing(Limit(NewestFirst(rows), limit), rows, limit)
  {
    var all := NewestFirst(rows);
    var n := |Limit(all, limit)|;
    NewestFirstSorts(rows);
    LimitKeepsOrder(all, limit);
    assert |multiset(all)| == |all| && |multiset(rows)| == |rows|;
    RestIsOlder(all, n);
    assert Limit(all, limit) == all[..n];
    assert n == |all| ==> all[..n] == all;
  }

  /** What a cut leaves out is not newer than what it keeps. */
  lemma RestIsOlder(all: seq<BumpLog>, n: nat)
    requires Descending(all) && n <= |all|
    ensures multiset(all) - multiset(all[..n]) == multiset(all[n..])
    ensures forall k, l :: 0 <= k < n && l in all[n..] ==> !Newer(l, all[k])
  {
    assert all == all[..n] + all[n..];
  }

  function OkCount(logs: seq<BumpLog>): nat {
    if logs == [] then 0 else OkCount(logs[..|logs| - 1]) + if logs[|logs| - 1].ok then 1 else 0
  }

  // ----- in plain columns -----

  /** The listing of the log: as many rows as the limit or 20, the latest first, and of the same instant the one written
      last first. */
  lemma ListingColumns(rows: seq<BumpLog>, limit: int)
    ensures var out, n := Limit(NewestFirst(rows), limit), if limit > 0 then limit else 20;
      && |out| == (if |rows| <= n then |rows| else n)
      && (forall k :: 0 <= k < |out| ==> out[k] in rows)
      && forall j, k :: 0 <= j < k < |out| ==> out[j].at > out[k].at || (out[j].at == out[k].at && out[j].id >= out[k].id)
  {
    LimitedListing(rows, limit);
    forall k | 0 <= k < |Limit(NewestFirst(rows), limit)| ensures Limit(NewestFirst(rows), limit)[k] in rows {
      assert Limit(NewestFirst(rows), limit)[k] in multiset(rows);
    }
  }

  /** What is listed for thread 0 is everything, and for another its own rows, each as often as it occurs. */
  lemma SelectedColumns(logs: seq<BumpLog>, id: nat)
    ensures forall l :: multiset(Selected(logs, id))[l] == if id == 0 || l.threadId == id then multiset(logs)[l] else 0
  {
    ThreadLogsAre(logs, id);
  }

  /** The count of successes is that of the rows marked ok. */
  lemma {:induction false} OkCountIs(logs: seq<BumpLog>)
    ensures OkCount(logs) == |set k | 0 <= k < |logs| && logs[k].ok|
  {
    var marked := set k | 0 <= k < |logs| && logs[k].ok;
    if logs == [] {
      assert marked == {};
    } else {
      var front := logs[..|logs| - 1];
      OkCountIs(front);
      assert marked == (set k | 0 <= k < |front| && front[k].ok) + if logs[|logs| - 1].ok then {|front|} else {};
    }
  }

  class SQLite {
    var accounts: map<nat, Account>
    var threads: map<nat, Thread>
    var logs: seq<BumpLog>
    var snaps: seq<Snapshot>
    var accSeq: nat
    var thrSeq: nat
    var logSeq: nat
    var snapSeq: nat

    ghost function Contents(): Db
      reads this
    {
      Db(accounts, threads, logs, snaps, accSeq, thrSeq, logSeq, snapSeq)
    }

    constructor ()
      ensures Contents() == EMPTY
    {
      accounts, threads, logs, snaps := map[], map[], [], [];
      accSeq, thrSeq, logSeq, snapSeq := 0, 0, 0, 0;
    }

    method CreateAccount(a: Account) returns (id: nat)
      modifies this
      ensures Contents() == InsertAccount(old(Contents()), a)
      ensures old(Sound(Contents())) ==> id !in old(accounts) && id in accounts && accounts[id] == a
    {
      accSeq := accSeq + 1;
      id := accSeq;
      accounts := accounts[id := a];
    }

    method GetAccount(id: nat) returns (a: Option<Account>)
      ensures a == if id in accounts then Some(accounts[id]) else None
    {
      a := if id in accounts then Some(accounts[id]) else None;
    }

    method SetAccountStatus(id: nat, status: Status)
      modifies this`accounts
      ensures Contents() == SetStatus(old(Contents()), id, status)
    {
      if id in accounts {
        accounts := accounts[id := accounts[id].(status := status)];
      }
    }

    method RemoveThreads(ids: set<nat>)
      modifies this`threads, this`logs, this`snaps
      ensures Contents() == DropThreads(old(Contents()), ids)
    {
      threads := threads - ids;
      RemoveLogs(ids);
      RemoveSnaps(ids);
    }

    method RemoveLogs(ids: set<nat>)
      modifies this`logs
      ensures logs == KeepLogs(old(logs), ids)
    {
      var kept := [];
      for k := 0 to |logs|
        invariant logs == old(logs)
        invariant kept == KeepLogs(logs[..k], ids)
      {
        assert logs[..k + 1][..k] == logs[..k];
        if logs[k].threadId !in ids {
          kept := kept + [logs[k]];
        }
      }
      assert logs[..|logs|] == logs;
      logs := kept;
    }

    method RemoveSnaps(ids: set<nat>)
      modifies this`snaps
      ensures snaps == KeepSnaps(old(snaps), ids)
    {
      var kept := [];
      for k := 0 to |snaps|
        invariant snaps == old(snaps)
        invariant kept == KeepSnaps(snaps[..k], ids)
      {
        assert snaps[..k + 1][..k] == snaps[..k];
        if snaps[k].threadId !in ids {
          kept := kept + [snaps[k]];
        }
      }
      assert snaps[..|snaps|] == snaps;
      snaps := kept;
    }

    method DeleteAccount(id: nat)
      modifies this
      ensures Contents() == Tables.DeleteAccount(old(Contents()), id)
    {
      RemoveThreads(set t | t in threads && threads[t].accountId == id);
      accounts := accounts - {id};
    }

    method CreateThread(t: Thread) returns (id: Option<nat>)
      modifies this`threads, this`thrSeq
      ensures Contents() == InsertThread(old(Contents()), t)
      ensures id == if t.accountId in accounts then Some(thrSeq) else None
    {
      if t.accountId !in accounts {
        return None;
      }
      thrSeq := thrSeq + 1;
      threads := threads[thrSeq := t.(id := thrSeq)];
      id := Some(thrSeq);
    }

    method GetThread(id: nat) returns (t: Option<Thread>)
      ensures t == if id in threads then Some(threads[id]) else None
    {
      t := if id in threads then Some(threads[id]) else None;
    }

    method ListThreadsByAccount(accountId: nat) returns (out: seq<Thread>)
      requires Sound(Contents())
      ensures forall t :: t in out <==> t.id in threads && threads[t.id] == t && t.accountId == accountId
      ensures forall j, k :: 0 <= j < k < |out| ==> out[j].id < out[k].id
    {
      out := [];
      for id := 1 to thrSeq + 1
        invariant forall t :: t in out <==>
                    t.id < id && t.id in threads && threads[t.id] == t && t.accountId == accountId
        invariant forall j, k :: 0 <= j < k < |out| ==> out[j].id < out[k].id
      {
        if id in threads && threads[id].accountId == accountId {
          assert forall j :: 0 <= j < |out| ==> out[j] in out;
          out := out + [threads[id]];
        }
      }
    }

    method ListDueThreads(now: Time) returns (out: seq<Thread>)
      requires Sound(Contents())
      ensures IsDueList(Contents(), now, out)
    {
      out := [];
      for id := 1 to thrSeq + 1
        invariant forall t :: t in out <==> t.id < id && t.id in threads && threads[t.id] == t && Due(t, now)
        invariant Ordered(out)
      {
        if id in threads && Due(threads[id], now) {
          var t := threads[id];
          InsertDueOrders(out, t);
          forall x ensures x in InsertDue(out, t) <==> x in out || x == t {
            InsertDueMembers(out, t, x);
          }
          out := InsertDue(out, t);
        }
      }
      forall id | id in threads && Due(threads[id], now) ensures exists k :: 0 <= k < |out| && out[k].id == id {
        assert threads[id] in out;
      }
    }

    method UpdateThread(t: Thread) returns (ok: bool)
      modifies this`threads
      ensures Contents() == PutThread(old(Contents()), t)
      ensures ok <==> t.id !in threads || t.accountId in accounts
    {
      if t.id !in threads {
        return true;
      }
      ok := t.accountId in accounts;
      if ok {
        threads := threads[t.id := t];
      }
    }

    method DeleteThread(id: nat)
      modifies this`threads, this`logs, this`snaps
      ensures Contents() == Tables.DeleteThread(old(Contents()), id)
    {
      RemoveThreads({id});
    }

    method AddBumpLog(threadId: nat, at: Time, ok: bool, message: string, nextAt: Option<Time>) returns (added: bool)
      modifies this`logs, this`logSeq
      ensures Contents() == AddLog(old(Contents()), threadId, at, ok, message, nextAt)
      ensures added <==> threadId in threads
    {
      added := threadId in threads;
      if added {
        logSeq := logSeq + 1;
        logs := logs + [BumpLog(logSeq, threadId, at, ok, message, nextAt)];
      }
    }

    /** Thread 0 stands for all threads; a limit that is not positive means 20. */
    method ListBumpLogs(threadId: nat, limit: int) returns (out: seq<BumpLog>)
      ensures out == Limit(NewestFirst(Selected(logs, threadId)), limit)
      ensures Listing(out, Selected(logs, threadId), limit)
      ensures Chronological(Selected(logs, threadId)) ==> out == Limit(Reversed(Selected(logs, threadId)), limit)
    {
      out := [];
      for k := 0 to |logs|
        invariant out == NewestFirst(Selected(logs[..k], threadId))
      {
        assert logs[..k + 1][..k] == logs[..k];
        if threadId == 0 || logs[k].threadId == threadId {
          assert (Selected(logs[..k], threadId) + [logs[k]])[..|Selected(logs[..k], threadId)|] ==
                 Selected(logs[..k], threadId);
          assert Selected(logs[..k + 1], threadId) == Selected(logs[..k], threadId) + [logs[k]];
          out := InsertLog(out, logs[k]);
        }
      }
      assert logs[..|logs|] == logs;
      if Chronological(Selected(logs, threadId)) {
        ListingIsReverseAppend(Selected(logs, threadId));
      }
      LimitedListing(Selected(logs, threadId), limit);
      out := Limit(out, limit);
    }

    method CountSuccessfulBumps(threadId: nat) returns (n: nat)
      ensures n == OkCount(ThreadLogs(logs, threadId))
    {
      n := 0;
      for k := 0 to |logs|
        invariant n == OkCount(ThreadLogs(logs[..k], threadId))
      {
        assert logs[..k + 1][..k] == logs[..k];
        ghost var before := ThreadLogs(logs[..k], threadId);
        assert (before + [logs[k]])[..|before|] == before;
        if logs[k].threadId == threadId && logs[k].ok {
          n := n + 1;
        }
      }
      assert logs[..|logs|] == logs;
    }

    method AddStatsSnapshot(threadId: nat, at: Time, views: Option<int>, replies: Option<int>) returns (added: bool)
      modifies this`snaps, this`snapSeq
      ensures Contents() == AddSnapshot(old(Contents()), threadId, at, views, replies)
      ensures added <==> threadId in threads
    {
      added := threadId in threads;
      if added {
        snapSeq := snapSeq + 1;
        snaps := snaps + [Snapshot(snapSeq, threadId, at, views, replies)];
      }
    }

    /** None when the thread has no snapshot. */
    method SnapshotAround(threadId: nat, t: Time) returns (r: Option<Snapshot>)
      ensures r.Some? <==> Any(snaps, threadId, None)
      ensures r.Some? ==> Baseline(snaps, threadId, t, r.value)
    {
      r := Select(snaps, threadId, Some(t));
      if r.None? {
        r := Select(snaps, threadId, None);
      } else {
        assert exists k :: 0 <= k < |snaps| && Candidate(snaps[k], threadId, None);
      }
    }
  }
}
