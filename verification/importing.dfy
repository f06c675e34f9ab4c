/** Merging discovered threads into an account: by canonical key, disabled, each once. */
module Importing {
  import opened Types
  import opened Tables
  import opened Bumping
  import opened Text
  import opened MippedRef
  import opened Lolz

  /** Whose threads are imported, with which interval, and how references are reduced to keys. */
  datatype Job = Job(accountId: nat, forum: string, interval: int, key: string -> string)

  /** The job of an import: keys are canonical references. */
  function JobFor(accountId: nat, forum: string, interval: int): Job {
    Job(accountId, forum, interval, ref => CanonicalRef(forum, ref))
  }

  predicate Owns(db: Db, accountId: nat, id: nat) {
    id in db.threads && db.threads[id].accountId == accountId
  }

  /** The keys an account's rows already have. */
  function Keys(db: Db, job: Job): set<string> {
    set id | id in db.threads && Owns(db, job.accountId, id) :: job.key(db.threads[id].threadRef)
  }

  function KeysOf(found: seq<Discovered>, job: Job): set<string> {
    set d | d in found :: job.key(d.ref)
  }

  /** An imported row is disabled and has no schedule. */
  function NewRow(job: Job, d: Discovered): Thread {
    Thread(0, job.accountId, job.forum, d.ref, d.title, job.interval, false, None, None)
  }

  datatype Merged = Merged(db: Db, have: set<string>, added: nat)

  /** One discovered thread. `io` says whether its insert reaches the disk; its key counts as present even
      when the insert failed. */
  function MergeOne(m: Merged, job: Job, d: Discovered, io: bool): Merged {
    var k := job.key(d.ref);
    if k in m.have then m
    else if io && job.accountId in m.db.accounts then
      Merged(InsertThread(m.db, NewRow(job, d)), m.have + {k}, m.added + 1)
    else m.(have := m.have + {k})
  }

  /** The state after the first `n` discovered threads. */
  function Merge(db: Db, job: Job, found: seq<Discovered>, io: nat -> bool, n: nat): Merged
    requires n <= |found|
  {
    if n == 0 then Merged(db, Keys(db, job), 0)
    else MergeOne(Merge(db, job, found, io, n - 1), job, found[n - 1], io(n - 1))
  }

  /** Rows of `a` are in `b` as they were; what `b` has beyond them is disabled and never scheduled. */
  ghost predicate AddsOnlyDisabled(a: Db, b: Db) {
    && Sound(b) && b.accounts == a.accounts && b.logs == a.logs && b.snaps == a.snaps
    && (forall id :: id in a.threads ==> id in b.threads && b.threads[id] == a.threads[id])
    && (forall id :: id in b.threads && id !in a.threads ==> !b.threads[id].enabled && b.threads[id].nextBumpAt.None?)
  }

  lemma InsertAddsDisabled(a: Db, b: Db, t: Thread)
    requires Sound(a) && AddsOnlyDisabled(a, b) && !t.enabled && t.nextBumpAt.None?
    ensures AddsOnlyDisabled(a, InsertThread(b, t))
  {
    InsertsKeepSound(b, Account("", "", false, StatusOk), t);
  }

  lemma DisabledIsNotDue(a: Db, b: Db)
    requires AddsOnlyDisabled(a, b)
    ensures forall id, now :: id in b.threads && id !in a.threads ==> !Due(b.threads[id], now)
  {
  }

  /** Existing rows stay as they are, and no added row can be due before a step enables it. */
  lemma {:induction false} MergeAddsOnlyDisabled(db: Db, job: Job, found: seq<Discovered>, io: nat -> bool, n: nat)
    requires Sound(db) && n <= |found|
    ensures AddsOnlyDisabled(db, Merge(db, job, found, io, n).db)
    ensures forall id, now :: id in Merge(db, job, found, io, n).db.threads && id !in db.threads ==>
              !Due(Merge(db, job, found, io, n).db.threads[id], now)
  {
    if n == 0 {
    } else {
      MergeAddsOnlyDisabled(db, job, found, io, n - 1);
      InsertAddsDisabled(db, Merge(db, job, found, io, n - 1).db, NewRow(job, found[n - 1]));
    }
    DisabledIsNotDue(db, Merge(db, job, found, io, n).db);
  }

  /** What an added row holds, and that it stems from a discovered thread. */
  ghost predicate Stems(db: Db, id: nat, job: Job, found: seq<Discovered>) {
    exists i :: 0 <= i < |found| && id in db.threads && db.threads[id] ==
      Thread(id, job.accountId, job.forum, found[i].ref, found[i].title, job.interval, false, None, None)
  }

  lemma {:induction false} AddedRowsStemFromFound(db: Db, job: Job, found: seq<Discovered>, io: nat -> bool, n: nat, id: nat)
    requires Sound(db) && n <= |found| && id in Merge(db, job, found, io, n).db.threads && id !in db.threads
    ensures Stems(Merge(db, job, found, io, n).db, id, job, found)
  {
    if n == 0 {
    } else {
      var m := Merge(db, job, found, io, n - 1);
      MergeAddsOnlyDisabled(db, job, found, io, n - 1);
      if id in m.db.threads {
        AddedRowsStemFromFound(db, job, found, io, n - 1, id);
      } else {
        assert Merge(db, job, found, io, n) == MergeOne(m, job, found[n - 1], io(n - 1));
      }
    }
  }

  /** An insert that fails, on the disk or because the account is gone, adds no row and is not counted; its key
      counts as present. A known key is passed over. Everything else adds one row. */
  lemma WhatOneDoes(m: Merged, job: Job, d: Discovered, io: bool)
    ensures var n, known := MergeOne(m, job, d, io), job.key(d.ref) in m.have;
      && n.have == m.have + {job.key(d.ref)}
      && (known || !io || job.accountId !in m.db.accounts ==> n.db == m.db && n.added == m.added)
      && (!known && io && job.accountId in m.db.accounts ==> n.added == m.added + 1 && n.db.thrSeq == m.db.thrSeq + 1)
  {
  }

  /** Added rows have keys that the account did not have before, each once. */
  ghost predicate NewKeys(db: Db, m: Merged, job: Job) {
    && Keys(db, job) <= m.have
    && (forall i :: Added(db, m, i) ==> job.key(m.db.threads[i].threadRef) in m.have - Keys(db, job))
    && forall i, j :: Added(db, m, i) && Added(db, m, j) && i != j ==>
         job.key(m.db.threads[i].threadRef) != job.key(m.db.threads[j].threadRef)
  }

  predicate Added(db: Db, m: Merged, id: nat) {
    id in m.db.threads && id !in db.threads
  }

  lemma OneAddsNewKey(db: Db, m: Merged, job: Job, d: Discovered, io: bool)
    requires NewKeys(db, m, job) && Sound(m.db)
    ensures NewKeys(db, MergeOne(m, job, d, io), job)
  {
    var n := MergeOne(m, job, d, io);
    forall i | Added(db, n, i) && i in m.db.threads ensures Added(db, m, i) && n.db.threads[i] == m.db.threads[i] {
    }
  }

  lemma {:induction false} MergeAddsNewKeys(db: Db, job: Job, found: seq<Discovered>, io: nat -> bool, n: nat)
    requires Sound(db) && n <= |found|
    ensures NewKeys(db, Merge(db, job, found, io, n), job)
  {
    if n == 0 {
    } else {
      MergeAddsNewKeys(db, job, found, io, n - 1);
      MergeAddsOnlyDisabled(db, job, found, io, n - 1);
      OneAddsNewKey(db, Merge(db, job, found, io, n - 1), job, found[n - 1], io(n - 1));
    }
  }

  ghost predicate DistinctKeys(db: Db, job: Job) {
    forall i, j :: Owns(db, job.accountId, i) && Owns(db, job.accountId, j) && i != j ==>
      job.key(db.threads[i].threadRef) != job.key(db.threads[j].threadRef)
  }

  lemma KeysAfterInsert(db: Db, t: Thread, job: Job)
    requires Sound(db) && t.accountId == job.accountId && t.accountId in db.accounts
    ensures Sound(InsertThread(db, t))
    ensures Keys(InsertThread(db, t), job) == Keys(db, job) + {job.key(t.threadRef)}
    ensures DistinctKeys(db, job) && job.key(t.threadRef) !in Keys(db, job) ==> DistinctKeys(InsertThread(db, t), job)
  {
    var d := InsertThread(db, t);
    var id := db.thrSeq + 1;
    assert id !in db.threads && d.threads == db.threads[id := t.(id := id)];
    assert Owns(d, job.accountId, id);
    forall i | Owns(db, job.accountId, i) ensures Owns(d, job.accountId, i) && d.threads[i] == db.threads[i] {
    }
    forall k | k in Keys(db, job) ensures k in Keys(d, job) {
      var i :| i in db.threads && Owns(db, job.accountId, i) && job.key(db.threads[i].threadRef) == k;
      assert Owns(d, job.accountId, i);
    }
  }

  lemma OneKeepsKeysDistinct(m: Merged, job: Job, d: Discovered, io: bool)
    requires Sound(m.db) && DistinctKeys(m.db, job) && Keys(m.db, job) <= m.have
    ensures DistinctKeys(MergeOne(m, job, d, io).db, job) && Keys(MergeOne(m, job, d, io).db, job) <= MergeOne(m, job, d, io).have
  {
    if job.accountId in m.db.accounts {
      KeysAfterInsert(m.db, NewRow(job, d), job);
    }
  }

  /** Keys stay distinct, whatever inserts fail. */
  lemma {:induction false} MergeKeepsKeysDistinct(db: Db, job: Job, found: seq<Discovered>, io: nat -> bool, n: nat)
    requires Sound(db) && n <= |found| && DistinctKeys(db, job)
    ensures DistinctKeys(Merge(db, job, found, io, n).db, job)
    ensures Keys(Merge(db, job, found, io, n).db, job) <= Merge(db, job, found, io, n).have
  {
    if n == 0 {
    } else {
      MergeKeepsKeysDistinct(db, job, found, io, n - 1);
      MergeAddsOnlyDisabled(db, job, found, io, n - 1);
      OneKeepsKeysDistinct(Merge(db, job, found, io, n - 1), job, found[n - 1], io(n - 1));
    }
  }

  /** With `existing` keys before the import, the discovered `keys` have been dealt with. */
  ghost predicate Counted(m: Merged, job: Job, existing: set<string>, keys: set<string>) {
    && Sound(m.db) && job.accountId in m.db.accounts
    && m.have == keys + existing && Keys(m.db, job) == m.have && m.added == |keys - existing|
  }

  lemma CountGrows(keys: set<string>, existing: set<string>, k: string)
    ensures |(keys + {k}) - existing| == |keys - existing| + if k in keys + existing then 0 else 1
  {
    if k in keys + existing {
      assert (keys + {k}) - existing == keys - existing;
    } else {
      assert (keys + {k}) - existing == (keys - existing) + {k};
    }
  }

  lemma OneCounts(m: Merged, job: Job, d: Discovered, existing: set<string>, keys: set<string>)
    requires Counted(m, job, existing, keys)
    ensures Counted(MergeOne(m, job, d, true), job, existing, keys + {job.key(d.ref)})
  {
    var k := job.key(d.ref);
    CountGrows(keys, existing, k);
    UnionGrows(keys, existing, k);
    if k !in m.have {
      KeysAfterInsert(m.db, NewRow(job, d), job);
    }
  }

  lemma UnionGrows(keys: set<string>, existing: set<string>, k: string)
    ensures keys + {k} + existing == keys + existing + {k}
    ensures k in keys + existing ==> keys + existing + {k} == keys + existing
  {
  }

  lemma KeysOfPrefix(found: seq<Discovered>, job: Job, n: nat)
    requires 0 < n <= |found|
    ensures KeysOf(found[..n], job) == KeysOf(found[..n - 1], job) + {job.key(found[n - 1].ref)}
  {
    assert found[..n] == found[..n - 1] + [found[n - 1]];
    assert forall d :: d in found[..n] <==> d in found[..n - 1] || d == found[n - 1];
  }

  lemma NoKeys(db: Db, job: Job, found: seq<Discovered>)
    requires Sound(db) && job.accountId in db.accounts
    ensures Counted(Merged(db, Keys(db, job), 0), job, Keys(db, job), KeysOf(found[..0], job))
  {
    assert KeysOf(found[..0], job) == {};
    assert {} - Keys(db, job) == {};
  }

  lemma {:induction false} MergeCounts(db: Db, job: Job, found: seq<Discovered>, io: nat -> bool, n: nat)
    requires Sound(db) && n <= |found| && job.accountId in db.accounts && forall i :: io(i)
    ensures Counted(Merge(db, job, found, io, n), job, Keys(db, job), KeysOf(found[..n], job))
  {
    if n == 0 {
      NoKeys(db, job, found);
    } else {
      MergeCounts(db, job, found, io, n - 1);
      KeysOfPrefix(found, job, n);
      OneCounts(Merge(db, job, found, io, n - 1), job, found[n - 1], Keys(db, job), KeysOf(found[..n - 1], job));
    }
  }

  /** When every insert succeeds, every discovered key is there afterwards, and `added` is the number of keys
      that are new. */
  lemma ImportIsComplete(db: Db, job: Job, found: seq<Discovered>, io: nat -> bool)
    requires Sound(db) && job.accountId in db.accounts && forall i :: io(i)
    ensures var m := Merge(db, job, found, io, |found|);
      && Keys(m.db, job) == KeysOf(found, job) + Keys(db, job)
      && m.added == |KeysOf(found, job) - Keys(db, job)|
  {
    MergeCounts(db, job, found, io, |found|);
    assert found[..|found|] == found;
  }

  /** How many of the first n discovered threads have a key that is not known. */
  function Unknown(found: seq<Discovered>, job: Job, known: set<string>, n: nat): nat
    requires n <= |found|
  {
    if n == 0 then 0
    else Unknown(found, job, known, n - 1) + if job.key(found[n - 1].ref) in known then 0 else 1
  }

  lemma KeyIsNew(front: seq<Discovered>, key: string, job: Job)
    requires forall j :: 0 <= j < |front| ==> job.key(front[j].ref) != key
    ensures key !in KeysOf(front, job)
  {
  }

  /** The n-th discovered key differs from those before it. */
  ghost predicate NewAt(found: seq<Discovered>, job: Job, n: nat)
    requires n < |found|
  {
    job.key(found[n].ref) !in KeysOf(found[..n], job)
  }

  lemma {:induction false} UnknownKeysCount(found: seq<Discovered>, job: Job, known: set<string>, n: nat)
    requires n <= |found| && forall i :: 0 <= i < |found| ==> NewAt(found, job, i)
    ensures |KeysOf(found[..n], job) - known| == Unknown(found, job, known, n)
  {
    if n == 0 {
      NoKeysYet(found, job, known);
    } else {
      UnknownKeysCount(found, job, known, n - 1);
      UnknownStep(found, job, known, n);
    }
  }

  lemma UnknownStep(found: seq<Discovered>, job: Job, known: set<string>, n: nat)
    requires 0 < n <= |found| && NewAt(found, job, n - 1)
    requires |KeysOf(found[..n - 1], job) - known| == Unknown(found, job, known, n - 1)
    ensures |KeysOf(found[..n], job) - known| == Unknown(found, job, known, n)
  {
    OneMoreKey(found, job, known, n);
  }

  lemma NoKeysYet(found: seq<Discovered>, job: Job, known: set<string>)
    ensures |KeysOf(found[..0], job) - known| == 0
  {
    assert KeysOf(found[..0], job) - known == {};
  }

  lemma OneMoreKey(found: seq<Discovered>, job: Job, known: set<string>, n: nat)
    requires 0 < n <= |found| && job.key(found[n - 1].ref) !in KeysOf(found[..n - 1], job)
    ensures |KeysOf(found[..n], job) - known| ==
            |KeysOf(found[..n - 1], job) - known| + if job.key(found[n - 1].ref) in known then 0 else 1
  {
    KeysOfPrefix(found, job, n);
    CountGrows(KeysOf(found[..n - 1], job), known, job.key(found[n - 1].ref));
  }

  /** When the discovered keys are distinct, one row is added per thread that the account does not have yet. */
  lemma DistinctThreadsAreAllAdded(db: Db, job: Job, found: seq<Discovered>, io: nat -> bool)
    requires Sound(db) && job.accountId in db.accounts && forall i :: io(i)
    requires forall j, k :: 0 <= j < k < |found| ==> job.key(found[j].ref) != job.key(found[k].ref)
    ensures Merge(db, job, found, io, |found|).added == Unknown(found, job, Keys(db, job), |found|)
  {
    ImportIsComplete(db, job, found, io);
    forall i | 0 <= i < |found| ensures NewAt(found, job, i) {
      KeyIsNew(found[..i], job.key(found[i].ref), job);
    }
    UnknownKeysCount(found, job, Keys(db, job), |found|);
    assert found[..|found|] == found;
  }

  /** And then a second import of the same discovery adds nothing and changes nothing. */
  lemma SecondImportAddsNothing(db: Db, job: Job, found: seq<Discovered>, io: nat -> bool, again: nat -> bool)
    requires Sound(db) && job.accountId in db.accounts && forall i :: io(i)
    ensures var m := Merge(db, job, found, io, |found|);
      Merge(m.db, job, found, again, |found|) == Merged(m.db, Keys(m.db, job), 0)
  {
    ImportIsComplete(db, job, found, io);
    NothingNew(Merge(db, job, found, io, |found|).db, job, found, again, |found|);
  }

  lemma {:induction false} NothingNew(db: Db, job: Job, found: seq<Discovered>, io: nat -> bool, n: nat)
    requires n <= |found| && KeysOf(found, job) <= Keys(db, job)
    ensures Merge(db, job, found, io, n) == Merged(db, Keys(db, job), 0)
  {
    if n == 0 {
    } else {
      NothingNew(db, job, found, io, n - 1);
      assert found[n - 1] in found;
    }
  }

  /** A Mipped thread that was added by hand, in whatever form, is not added again by an import, whatever
      slug the scraped link shows. */
  lemma KnownThreadIsNotAddedAgain(m: Merged, job: Job, id: nat, d: Discovered, pre: string, r: Ref, u: string, scraped: Ref, io: bool)
    requires job == JobFor(job.accountId, MIPPED, job.interval) && Owns(m.db, job.accountId, id) && Keys(m.db, job) <= m.have
    requires Path(pre) && ValidRef(r) && Ending(u) && Trim(m.db.threads[id].threadRef) == Written(pre, r, u)
    requires ValidRef(scraped) && scraped.id == r.id && d.ref == Emit(scraped)
    ensures MergeOne(m, job, d, io) == m
  {
    WrittenParses(m.db.threads[id].threadRef, pre, r, u);
    EmittedParses(scraped);
    assert job.key(m.db.threads[id].threadRef) in Keys(m.db, job);
  }
}
