/** An import of Lolzteam threads from end to end, told from the columns of the listing and of the rows. */
module LolzImport {
  import opened Types
  import opened Tables
  import opened Text
  import opened Importing
  import opened Lolz
  import opened Scheduling
  import MippedList

  /** A row of the account holds this reference, up to white space around it. */
  ghost predicate Holds(db: Db, accountId: nat, ref: string) {
    exists id :: HoldsAt(db, accountId, id, ref)
  }

  ghost predicate HoldsAt(db: Db, accountId: nat, id: nat, ref: string) {
    id in db.threads && db.threads[id].accountId == accountId && Trim(db.threads[id].threadRef) == ref
  }

  ghost predicate LolzJob(job: Job) {
    job == JobFor(job.accountId, "lolz", job.interval)
  }

  lemma KeyIsTrimmed(job: Job, ref: string)
    requires LolzJob(job)
    ensures job.key(ref) == Trim(ref)
  {
  }

  lemma KeysAreHeld(db: Db, job: Job, ref: string)
    requires LolzJob(job)
    ensures ref in Keys(db, job) <==> Holds(db, job.accountId, ref)
  {
    if ref in Keys(db, job) {
      var id :| id in db.threads && Owns(db, job.accountId, id) && job.key(db.threads[id].threadRef) == ref;
      KeyIsTrimmed(job, db.threads[id].threadRef);
      assert HoldsAt(db, job.accountId, id, ref);
    }
    if id :| HoldsAt(db, job.accountId, id, ref) {
      KeyIsTrimmed(job, db.threads[id].threadRef);
      assert Owns(db, job.accountId, id);
    }
  }

  /** Refs of a listing as the forum writes them: distinct, without white space around them. */
  ghost predicate Plain(found: seq<Discovered>) {
    && (forall k :: 0 <= k < |found| ==> Tight(found[k].ref))
    && (forall j, k :: 0 <= j < k < |found| ==> found[j].ref != found[k].ref)
  }

  /** Afterwards every listed ref is in a row of the account. */
  lemma ListedRefsAreHeld(db: Db, job: Job, found: seq<Discovered>, io: nat -> bool, k: nat)
    requires Sound(db) && LolzJob(job) && job.accountId in db.accounts && (forall i :: io(i)) && Plain(found) && k < |found|
    ensures Holds(Merge(db, job, found, io, |found|).db, job.accountId, found[k].ref)
  {
    ImportIsComplete(db, job, found, io);
    TrimTight(found[k].ref);
    KeyIsTrimmed(job, found[k].ref);
    assert found[k] in found && job.key(found[k].ref) in KeysOf(found, job);
    KeysAreHeld(Merge(db, job, found, io, |found|).db, job, found[k].ref);
  }

  /** An added row holds a listed ref that no row of the account held before, and no other added row holds it. */
  lemma AddedRefsAreNew(db: Db, job: Job, found: seq<Discovered>, io: nat -> bool, id: nat)
    requires Sound(db) && LolzJob(job) && Plain(found)
    requires id in Merge(db, job, found, io, |found|).db.threads && id !in db.threads
    ensures var d := Merge(db, job, found, io, |found|).db;
      && (exists k :: 0 <= k < |found| && d.threads[id] ==
            Thread(id, job.accountId, "lolz", found[k].ref, found[k].title, job.interval, false, None, None))
      && !Holds(db, job.accountId, d.threads[id].threadRef)
      && forall j :: j in d.threads && j !in db.threads && j != id ==> d.threads[j].threadRef != d.threads[id].threadRef
  {
    var m := Merge(db, job, found, io, |found|);
    AddedRowsStemFromFound(db, job, found, io, |found|, id);
    MergeAddsNewKeys(db, job, found, io, |found|);
    var k :| 0 <= k < |found| && m.db.threads[id] ==
      Thread(id, job.accountId, job.forum, found[k].ref, found[k].title, job.interval, false, None, None);
    TrimTight(found[k].ref);
    KeyIsTrimmed(job, found[k].ref);
    KeysAreHeld(db, job, found[k].ref);
    assert Added(db, m, id);
    forall j | j in m.db.threads && j !in db.threads && j != id ensures m.db.threads[j].threadRef != m.db.threads[id].threadRef {
      assert Added(db, m, j);
    }
  }

  /** The listed refs that no row of the account holds. */
  ghost function Unheld(db: Db, accountId: nat, found: seq<Discovered>): set<string> {
    set k | 0 <= k < |found| && !Holds(db, accountId, found[k].ref) :: found[k].ref
  }

  lemma PlainKey(db: Db, job: Job, ref: string)
    requires LolzJob(job) && Tight(ref)
    ensures job.key(ref) == ref && (ref in Keys(db, job) <==> Holds(db, job.accountId, ref))
  {
    TrimTight(ref);
    KeyIsTrimmed(job, ref);
    KeysAreHeld(db, job, ref);
  }

  lemma KeysArePlain(found: seq<Discovered>, job: Job, ref: string)
    requires LolzJob(job) && Plain(found)
    ensures ref in KeysOf(found, job) <==> exists k :: 0 <= k < |found| && found[k].ref == ref
  {
    if ref in KeysOf(found, job) {
      var d :| d in found && job.key(d.ref) == ref;
      TrimTight(d.ref);
      KeyIsTrimmed(job, d.ref);
    }
    if k :| 0 <= k < |found| && found[k].ref == ref {
      TrimTight(ref);
      KeyIsTrimmed(job, ref);
      assert found[k] in found;
    }
  }

  lemma NewKeyIsUnheld(db: Db, job: Job, found: seq<Discovered>, ref: string)
    requires LolzJob(job) && Plain(found)
    ensures ref in KeysOf(found, job) - Keys(db, job) <==> ref in Unheld(db, job.accountId, found)
  {
    KeysArePlain(found, job, ref);
    if k :| 0 <= k < |found| && found[k].ref == ref {
      PlainKey(db, job, ref);
    }
  }

  /** How many rows are added: one for each listed ref that was not held. */
  lemma AddedIsUnheld(db: Db, job: Job, found: seq<Discovered>, io: nat -> bool)
    requires Sound(db) && LolzJob(job) && job.accountId in db.accounts && (forall i :: io(i)) && Plain(found)
    ensures Merge(db, job, found, io, |found|).added == |Unheld(db, job.accountId, found)|
  {
    ImportIsComplete(db, job, found, io);
    NewKeysAreUnheld(db, job, found);
  }

  lemma NewKeysAreUnheld(db: Db, job: Job, found: seq<Discovered>)
    requires LolzJob(job) && Plain(found)
    ensures KeysOf(found, job) - Keys(db, job) == Unheld(db, job.accountId, found)
  {
    forall ref ensures ref in KeysOf(found, job) - Keys(db, job) <==> ref in Unheld(db, job.accountId, found) {
      NewKeyIsUnheld(db, job, found, ref);
    }
  }

  /** The same for whatever a Lolzteam server lists: its refs are distinct in any case. */
  lemma AnyListingIsPlain(server: Server, cutoff: Option<Time>)
    requires var r := Crawl(server, cutoff, 1, true, []);
      r.Listed? && forall k :: 0 <= k < |r.out| ==> Tight(r.out[k].ref)
    ensures Plain(Crawl(server, cutoff, 1, true, []).out)
  {
    CrawlSane(server, cutoff, 1, true, []);
  }

  /** The age limit in days: a row is dropped exactly when its date, in seconds, lies more than so many days before
      the import; a setting of 0 or less drops none. */
  lemma AgeLimitInDays(rows: seq<Row>, days: int, now: Time, r: Row)
    requires r in rows
    ensures r in Recent(rows, Cutoff(days, now)) <==>
              r.created.None? || r.created.value <= 0 || days <= 0 ||
              r.created.value * 1_000_000_000 >= now - days * 86_400_000_000_000
  {
    RecentFrom(rows, Cutoff(days, now));
  }

  /** A row that the import added as it should. */
  ghost predicate Imported(db: Db, m: Db, accountId: nat, settings: Settings, now: Time, rows: seq<Row>, id: nat) {
    && id in m.threads
    && !Holds(db, accountId, m.threads[id].threadRef)
    && m.threads[id].accountId == accountId && m.threads[id].forum == "lolz" && !m.threads[id].enabled
    && m.threads[id].intervalSec == settings.lolzIntervalSec
    && exists x :: x in rows && Young(x, settings.importMaxAgeDays, now) && m.threads[id].threadRef == x.threadId
  }

  /** Created, by its date in seconds, no more than so many days ago; 0 or less days is no limit. */
  ghost predicate Young(x: Row, days: int, now: Time) {
    x.created.None? || x.created.value <= 0 || days <= 0 || x.created.value * 1_000_000_000 >= now - days * 86_400_000_000_000
  }

  /** The listing of an import: what was found is read from the recent rows. */
  ghost predicate FoundOn(found: seq<Discovered>, rows: seq<Row>, days: int, now: Time) {
    && ReadAs(found, Recent(rows, Cutoff(days, now))) && Plain(found)
    && forall k :: 0 <= k < |found| ==> found[k].ref == Recent(rows, Cutoff(days, now))[k].threadId
  }

  lemma YoungIsHeld(db: Db, job: Job, found: seq<Discovered>, io: nat -> bool, rows: seq<Row>, days: int, now: Time, x: Row)
    requires Sound(db) && LolzJob(job) && job.accountId in db.accounts && (forall i :: io(i))
    requires FoundOn(found, rows, days, now) && x in rows && Young(x, days, now)
    ensures Holds(Merge(db, job, found, io, |found|).db, job.accountId, x.threadId)
  {
    AgeLimitInDays(rows, days, now, x);
    var k :| 0 <= k < |found| && Recent(rows, Cutoff(days, now))[k] == x;
    ListedRefsAreHeld(db, job, found, io, k);
  }

  lemma AddedIsImported(db: Db, job: Job, found: seq<Discovered>, io: nat -> bool, rows: seq<Row>, settings: Settings, now: Time, id: nat)
    requires Sound(db) && LolzJob(job) && job.interval == settings.lolzIntervalSec
    requires FoundOn(found, rows, settings.importMaxAgeDays, now)
    requires id in Merge(db, job, found, io, |found|).db.threads && id !in db.threads
    ensures Imported(db, Merge(db, job, found, io, |found|).db, job.accountId, settings, now, rows, id)
  {
    var recent := Recent(rows, Cutoff(settings.importMaxAgeDays, now));
    AddedRefsAreNew(db, job, found, io, id);
    var k :| 0 <= k < |found| && Merge(db, job, found, io, |found|).db.threads[id] ==
      Thread(id, job.accountId, "lolz", found[k].ref, found[k].title, job.interval, false, None, None);
    assert recent[k] in recent;
    RecentFrom(rows, Cutoff(settings.importMaxAgeDays, now));
    AgeLimitInDays(rows, settings.importMaxAgeDays, now, recent[k]);
  }

  lemma FoundOnListing(settings: Settings, now: Time, r: Remote, pages: seq<seq<Row>>) returns (found: seq<Discovered>)
    requires r.known && Serves(r.lolz, pages, 1, true) && 1 <= |pages| <= 50
    requires OwnThreadIds(Flat(pages)) && NewestFirst(Flat(pages)) && forall x :: x in Flat(pages) ==> Tight(x.threadId)
    ensures Discovery("lolz", Cutoff(settings.importMaxAgeDays, now), r) == Listed(found)
    ensures FoundOn(found, Flat(pages), settings.importMaxAgeDays, now)
  {
    var cutoff := Cutoff(settings.importMaxAgeDays, now);
    found := ThreadIdsAreListed(r.lolz, cutoff, pages);
    AnyListingTight(Flat(pages), cutoff, found);
    AnyListingIsPlain(r.lolz, cutoff);
  }

  /** From the server's listing to the rows of the account, by the settings: a thread that the listing shows, not
      older than the limit, is in a row of the account afterwards; every added row is such a thread, that the account
      did not hold, disabled, with the forum's interval. */
  lemma ImportOfLolz(db: Db, accountId: nat, settings: Settings, now: Time, r: Remote, pages: seq<seq<Row>>, io: nat -> bool)
      returns (found: seq<Discovered>)
    requires Sound(db) && accountId in db.accounts && (forall i :: io(i)) && r.known
    requires Serves(r.lolz, pages, 1, true) && 1 <= |pages| <= 50
    requires OwnThreadIds(Flat(pages)) && NewestFirst(Flat(pages)) && forall x :: x in Flat(pages) ==> Tight(x.threadId)
    ensures Discovery("lolz", Cutoff(settings.importMaxAgeDays, now), r) == Listed(found)
    ensures var m := Merge(db, JobFor(accountId, "lolz", IntervalOf(settings, "lolz")), found, io, |found|).db;
      && (forall x :: x in Flat(pages) && Young(x, settings.importMaxAgeDays, now) ==> Holds(m, accountId, x.threadId))
      && (forall id :: id in db.threads ==> id in m.threads && m.threads[id] == db.threads[id])
      && forall id :: id in m.threads && id !in db.threads ==> Imported(db, m, accountId, settings, now, Flat(pages), id)
  {
    var rows, job := Flat(pages), JobFor(accountId, "lolz", IntervalOf(settings, "lolz"));
    found := FoundOnListing(settings, now, r, pages);
    var m := Merge(db, job, found, io, |found|).db;
    MergeAddsOnlyDisabled(db, job, found, io, |found|);
    forall x | x in rows && Young(x, settings.importMaxAgeDays, now) ensures Holds(m, accountId, x.threadId) {
      YoungIsHeld(db, job, found, io, rows, settings.importMaxAgeDays, now, x);
    }
    forall id | id in m.threads && id !in db.threads ensures Imported(db, m, accountId, settings, now, rows, id) {
      AddedIsImported(db, job, found, io, rows, settings, now, id);
    }
  }

  lemma AnyListingTight(rows: seq<Row>, cutoff: Option<Time>, found: seq<Discovered>)
    requires ReadAs(found, Recent(rows, cutoff)) && OwnThreadIds(rows) && forall x :: x in rows ==> Tight(x.threadId)
    ensures forall k :: 0 <= k < |found| ==> Tight(found[k].ref) && found[k].ref == Recent(rows, cutoff)[k].threadId
  {
    RecentFrom(rows, cutoff);
  }

  /** Without the account's own identifier nothing is listed; a Mipped account lists what its pages lead to. */
  lemma DiscoveryOfMipped(cutoff: Option<Time>, r: Remote)
    ensures !r.known ==> Discovery("lolz", cutoff, r) == Refused && Discovery("mipped", cutoff, r) == Refused
    ensures r.known ==>
              Discovery("mipped", cutoff, r) ==
              if MippedList.Crawl(r.mipped, 1, []).1 then Listed(MippedList.Listing(MippedList.Crawl(r.mipped, 1, []).0))
              else Broken(MippedList.Listing(MippedList.Crawl(r.mipped, 1, []).0))
  {
  }

  /** A thread added by import of either forum gets that forum's interval. */
  lemma IntervalsOfForums(settings: Settings)
    ensures IntervalOf(settings, "lolz") == settings.lolzIntervalSec && IntervalOf(settings, "mipped") == settings.defaultIntervalSec
  {
  }
}
