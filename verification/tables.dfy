/**
 The relational store as a value: the accounts, threads, bump_log and stats_snapshots tables with their
 AUTOINCREMENT counters, and what each statement does to them. The class in sqlite.dfy is proved
 against these functions.
 */
module Tables {
  import opened Types

  datatype Db = Db(
    accounts: map<nat, Account>, threads: map<nat, Thread>, logs: seq<BumpLog>, snaps: seq<Snapshot>,
    accSeq: nat, thrSeq: nat, logSeq: nat, snapSeq: nat)

  const EMPTY := Db(map[], map[], [], [], 0, 0, 0, 0)

  /** Referential integrity, and every identifier in use was handed out by its counter. */
  ghost predicate Sound(db: Db) {
    && (forall id :: id in db.accounts ==> 1 <= id <= db.accSeq)
    && (forall id :: id in db.threads ==>
          1 <= id <= db.thrSeq && db.threads[id].id == id && db.threads[id].accountId in db.accounts)
    && (forall k :: 0 <= k < |db.logs| ==> db.logs[k].threadId in db.threads && db.logs[k].id <= db.logSeq)
    && (forall j, k :: 0 <= j < k < |db.logs| ==> db.logs[j].id < db.logs[k].id)
    && SnapsSound(db)
  }

  /** Every snapshot has its thread and an identifier handed out before. */
  ghost predicate SnapsSound(db: Db) {
    forall s :: s in db.snaps ==> s.threadId in db.threads && s.id <= db.snapSeq
  }

  function InsertAccount(db: Db, a: Account): Db {
    db.(accounts := db.accounts[db.accSeq + 1 := a], accSeq := db.accSeq + 1)
  }

  function SetStatus(db: Db, id: nat, status: Status): Db {
    if id in db.accounts then db.(accounts := db.accounts[id := db.accounts[id].(status := status)]) else db
  }

  /** A new row gets the next identifier; without its account the foreign key refuses it. */
  function InsertThread(db: Db, t: Thread): Db {
    if t.accountId in db.accounts then
      db.(threads := db.threads[db.thrSeq + 1 := t.(id := db.thrSeq + 1)], thrSeq := db.thrSeq + 1)
    else db
  }

  /** UPDATE of the whole row: no effect on a missing row, refused when the account is missing. */
  function PutThread(db: Db, t: Thread): Db {
    if t.id in db.threads && t.accountId in db.accounts then db.(threads := db.threads[t.id := t]) else db
  }

  function AddLog(db: Db, threadId: nat, at: Time, ok: bool, message: string, nextAt: Option<Time>): Db {
    if threadId in db.threads then
      db.(logs := db.logs + [BumpLog(db.logSeq + 1, threadId, at, ok, message, nextAt)], logSeq := db.logSeq + 1)
    else db
  }

  function AddSnapshot(db: Db, threadId: nat, at: Time, views: Option<int>, replies: Option<int>): Db {
    if threadId in db.threads then
      db.(snaps := db.snaps + [Snapshot(db.snapSeq + 1, threadId, at, views, replies)], snapSeq := db.snapSeq + 1)
    else db
  }

  /** Rows of the log whose thread is not among `ids`. */
  function KeepLogs(logs: seq<BumpLog>, ids: set<nat>): seq<BumpLog> {
    if logs == [] then []
    else
      var rest := KeepLogs(logs[..|logs| - 1], ids);
      if logs[|logs| - 1].threadId in ids then rest else rest + [logs[|logs| - 1]]
  }

  /** Snapshots whose thread is not among `ids`. */
  function KeepSnaps(snaps: seq<Snapshot>, ids: set<nat>): seq<Snapshot> {
    if snaps == [] then []
    else
      var rest := KeepSnaps(snaps[..|snaps| - 1], ids);
      if snaps[|snaps| - 1].threadId in ids then rest else rest + [snaps[|snaps| - 1]]
  }

  /** Deletes threads, and with them (ON DELETE CASCADE) their log rows and snapshots. */
  function DropThreads(db: Db, ids: set<nat>): Db {
    db.(threads := db.threads - ids, logs := KeepLogs(db.logs, ids), snaps := KeepSnaps(db.snaps, ids))
  }

  function DeleteThread(db: Db, id: nat): Db {
    DropThreads(db, {id})
  }

  function ThreadsOf(db: Db, accountId: nat): set<nat> {
    set id | id in db.threads && db.threads[id].accountId == accountId
  }

  function DeleteAccount(db: Db, id: nat): Db {
    DropThreads(db, ThreadsOf(db, id)).(accounts := db.accounts - {id})
  }

  /** The log rows of one thread, in append order. */
  function ThreadLogs(logs: seq<BumpLog>, id: nat): seq<BumpLog> {
    if logs == [] then []
    else
      var rest := ThreadLogs(logs[..|logs| - 1], id);
      if logs[|logs| - 1].threadId == id then rest + [logs[|logs| - 1]] else rest
  }

  lemma {:induction false} KeepLogsIsFilter(logs: seq<BumpLog>, ids: set<nat>)
    ensures forall k :: 0 <= k < |KeepLogs(logs, ids)| ==>
              KeepLogs(logs, ids)[k] in logs && KeepLogs(logs, ids)[k].threadId !in ids
    ensures (forall j, k :: 0 <= j < k < |logs| ==> logs[j].id < logs[k].id) ==>
              forall j, k :: 0 <= j < k < |KeepLogs(logs, ids)| ==> KeepLogs(logs, ids)[j].id < KeepLogs(logs, ids)[k].id
  {
    if logs == [] {
    } else {
      KeepLogsIsFilter(logs[..|logs| - 1], ids);
    }
  }

  /** A cascade removes exactly the log rows of the deleted threads. */
  lemma {:induction false} CascadeOnLogs(logs: seq<BumpLog>, ids: set<nat>, id: nat)
    ensures ThreadLogs(KeepLogs(logs, ids), id) == if id in ids then [] else ThreadLogs(logs, id)
  {
    if logs == [] {
    } else {
      var last := logs[|logs| - 1];
      var rest := KeepLogs(logs[..|logs| - 1], ids);
      CascadeOnLogs(logs[..|logs| - 1], ids, id);
      assert (rest + [last])[..|rest|] == rest;
    }
  }

  /** And exactly their snapshots. */
  lemma {:induction false} CascadeOnSnaps(snaps: seq<Snapshot>, ids: set<nat>)
    ensures forall s :: s in KeepSnaps(snaps, ids) <==> s in snaps && s.threadId !in ids
  {
    if snaps == [] {
    } else {
      CascadeOnSnaps(snaps[..|snaps| - 1], ids);
      assert snaps == snaps[..|snaps| - 1] + [snaps[|snaps| - 1]];
    }
  }

  lemma ThreadLogsAppend(logs: seq<BumpLog>, l: BumpLog, id: nat)
    ensures ThreadLogs(logs + [l], id) == ThreadLogs(logs, id) + if l.threadId == id then [l] else []
  {
    assert (logs + [l])[..|logs|] == logs;
  }

  // ----- what each statement does to the columns -----

  /** A new account is a new row under the next identifier; nothing else changes. */
  lemma InsertedAccount(db: Db, a: Account)
    requires Sound(db)
    ensures var d, id := InsertAccount(db, a), db.accSeq + 1;
      && id !in db.accounts && d.accounts.Keys == db.accounts.Keys + {id} && d.accounts[id] == a
      && (forall k :: k in db.accounts ==> d.accounts[k] == db.accounts[k])
      && d.accSeq == id && d.(accounts := db.accounts, accSeq := db.accSeq) == db
  {
  }

  /** A status update changes the status of one account and no other column of any row. */
  lemma ChangedStatus(db: Db, id: nat, status: Status)
    ensures var d := SetStatus(db, id, status);
      && d.accounts.Keys == db.accounts.Keys && d.(accounts := db.accounts) == db
      && forall k :: k in db.accounts ==>
           var before, after := db.accounts[k], d.accounts[k];
           && after.forum == before.forum && after.name == before.name && after.readable == before.readable
           && after.status == if k == id then status else before.status
  {
  }

  /** A new thread is a new row with the columns given, under the next identifier; without its account it is none. */
  lemma InsertedThread(db: Db, t: Thread)
    requires Sound(db)
    ensures var d, id := InsertThread(db, t), db.thrSeq + 1;
      if t.accountId !in db.accounts then d == db
      else
        && id !in db.threads && d.threads.Keys == db.threads.Keys + {id}
        && d.threads[id] == Thread(id, t.accountId, t.forum, t.threadRef, t.title, t.intervalSec, t.enabled, t.nextBumpAt, t.lastBumpAt)
        && (forall k :: k in db.threads ==> d.threads[k] == db.threads[k])
        && d.thrSeq == id && d.(threads := db.threads, thrSeq := db.thrSeq) == db
  {
  }

  /** An update overwrites every column of its row and touches no other row; it creates none. */
  lemma OverwrittenThread(db: Db, t: Thread)
    ensures var d := PutThread(db, t);
      && d.threads.Keys == db.threads.Keys && d.(threads := db.threads) == db
      && (forall k :: k in db.threads ==> d.threads[k] == if k == t.id && t.accountId in db.accounts then t else db.threads[k])
  {
  }

  /** A log entry and a snapshot hold what was given, behind what there was. */
  lemma AppendedRows(db: Db, id: nat, at: Time, ok: bool, message: string, nextAt: Option<Time>, views: Option<int>, replies: Option<int>)
    requires id in db.threads
    ensures var d := AddLog(db, id, at, ok, message, nextAt);
      && |d.logs| == |db.logs| + 1 && d.logs[..|db.logs|] == db.logs && d.(logs := db.logs, logSeq := db.logSeq) == db
      && var l := d.logs[|db.logs|];
         && l.id == db.logSeq + 1 == d.logSeq && l.threadId == id && l.at == at && l.ok == ok && l.message == message && l.nextAt == nextAt
    ensures var d := AddSnapshot(db, id, at, views, replies);
      && |d.snaps| == |db.snaps| + 1 && d.snaps[..|db.snaps|] == db.snaps && d.(snaps := db.snaps, snapSeq := db.snapSeq) == db
      && var x := d.snaps[|db.snaps|];
         x.id == db.snapSeq + 1 == d.snapSeq && x.threadId == id && x.at == at && x.views == views && x.replies == replies
  {
  }

  lemma RefusedRows(db: Db, id: nat, at: Time, ok: bool, message: string, nextAt: Option<Time>, views: Option<int>, replies: Option<int>)
    requires id !in db.threads
    ensures AddLog(db, id, at, ok, message, nextAt) == db && AddSnapshot(db, id, at, views, replies) == db
  {
  }

  /** After a delete the thread is gone, its log rows and snapshots are, and all the rest is as it was. */
  lemma DeletedThread(db: Db, id: nat)
    ensures var d := DeleteThread(db, id);
      && id !in d.threads && (forall k :: k in db.threads && k != id ==> k in d.threads && d.threads[k] == db.threads[k])
      && (forall k :: k in d.threads ==> k in db.threads)
      && (forall l :: l in d.logs <==> l in db.logs && l.threadId != id)
      && (forall x :: x in d.snaps <==> x in db.snaps && x.threadId != id)
      && d.(threads := db.threads, logs := db.logs, snaps := db.snaps) == db
  {
    KeepLogsMembers(db.logs, {id});
    CascadeOnSnaps(db.snaps, {id});
  }

  lemma {:induction false} KeepLogsMembers(logs: seq<BumpLog>, ids: set<nat>)
    ensures forall l :: l in KeepLogs(logs, ids) <==> l in logs && l.threadId !in ids
  {
    if logs == [] {
    } else {
      KeepLogsMembers(logs[..|logs| - 1], ids);
      assert logs == logs[..|logs| - 1] + [logs[|logs| - 1]];
    }
  }

  /** The log of a thread is made of its rows and no others, each as often as it occurs. */
  lemma {:induction false} ThreadLogsAre(logs: seq<BumpLog>, id: nat)
    ensures forall l :: multiset(ThreadLogs(logs, id))[l] == if l.threadId == id then multiset(logs)[l] else 0
  {
    if logs == [] {
    } else {
      ThreadLogsAre(logs[..|logs| - 1], id);
      assert logs == logs[..|logs| - 1] + [logs[|logs| - 1]];
    }
  }

  /** What no statement does: forget a counter, so that an identifier could come back. */
  ghost predicate Grows(a: Db, b: Db) {
    a.accSeq <= b.accSeq && a.thrSeq <= b.thrSeq && a.logSeq <= b.logSeq && a.snapSeq <= b.snapSeq
  }

  lemma InsertsKeepSound(db: Db, a: Account, t: Thread)
    requires Sound(db)
    ensures Sound(InsertAccount(db, a)) && Grows(db, InsertAccount(db, a))
    ensures Sound(InsertThread(db, t)) && Grows(db, InsertThread(db, t))
    ensures db.thrSeq + 1 !in db.threads
  {
  }

  lemma UpdatesKeepSound(db: Db, id: nat, status: Status, t: Thread)
    requires Sound(db)
    ensures Sound(SetStatus(db, id, status)) && Grows(db, SetStatus(db, id, status))
    ensures Sound(PutThread(db, t)) && Grows(db, PutThread(db, t))
  {
  }

  lemma AddLogKeepsSound(db: Db, id: nat, at: Time, ok: bool, message: string, nextAt: Option<Time>)
    requires Sound(db)
    ensures Sound(AddLog(db, id, at, ok, message, nextAt)) && Grows(db, AddLog(db, id, at, ok, message, nextAt))
  {
  }

  lemma AddSnapshotKeepsSound(db: Db, id: nat, at: Time, views: Option<int>, replies: Option<int>)
    requires Sound(db)
    ensures Sound(AddSnapshot(db, id, at, views, replies)) && Grows(db, AddSnapshot(db, id, at, views, replies))
  {
  }

  lemma DropKeepsSound(db: Db, ids: set<nat>)
    requires Sound(db)
    ensures Sound(DropThreads(db, ids)) && Grows(db, DropThreads(db, ids))
  {
    KeepLogsIsFilter(db.logs, ids);
    CascadeOnSnaps(db.snaps, ids);
  }

  /** Deleting an account removes it and no other, and leaves neither a thread without account nor a log row or snapshot without thread,
      and takes nothing from the threads that stay. */
  lemma DeleteAccountKeepsSound(db: Db, id: nat)
    requires Sound(db)
    ensures Sound(DeleteAccount(db, id)) && Grows(db, DeleteAccount(db, id))
    ensures DeleteAccount(db, id).accounts == map k | k in db.accounts && k != id :: db.accounts[k]
    ensures forall t :: t in DeleteAccount(db, id).threads <==> t in db.threads && db.threads[t].accountId != id
    ensures forall t :: t in DeleteAccount(db, id).threads ==> DeleteAccount(db, id).threads[t] == db.threads[t]
    ensures forall t :: t in DeleteAccount(db, id).threads ==>
              ThreadLogs(DeleteAccount(db, id).logs, t) == ThreadLogs(db.logs, t)
    ensures forall s :: s in DeleteAccount(db, id).snaps <==> s in db.snaps && db.threads[s.threadId].accountId != id
  {
    var ids := ThreadsOf(db, id);
    DropKeepsSound(db, ids);
    CascadeOnSnaps(db.snaps, ids);
    forall t | t in DeleteAccount(db, id).threads
      ensures ThreadLogs(DeleteAccount(db, id).logs, t) == ThreadLogs(db.logs, t)
    {
      CascadeOnLogs(db.logs, ids, t);
    }
  }
}
