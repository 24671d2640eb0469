/** The life of crash reports in a database, as callers see it: what each call answers and does,
    and what every run of calls keeps. Upload handles stay outstanding between calls. */
module Lifecycle {
  import opened Bytes
  import opened Runs

  type Uuid = nat

  datatype Status =
    | NoError | ReportNotFound | FileSystemError | DatabaseError | BusyError | CannotRequestUpload

  datatype Phase = Pending | Uploading | Completed

  datatype Report = Report(phase: Phase, size: nat, creation: int, attempts: int, lastAttempt: int,
                           uploaded: bool, requested: bool, id: Text)

  /** The dumps still being written, the reports, and the settings' last upload attempt time. */
  datatype Db = Db(drafts: map<Uuid, nat>, reports: map<Uuid, Report>, lastAttempt: int) {
    predicate Is(u: Uuid, phase: Phase) {
      u in reports && reports[u].phase == phase
    }

    function Put(u: Uuid, r: Report): Db {
      this.(reports := reports[u := r])
    }
  }

  const Empty: Db := Db(map[], map[], 0)

  datatype Call =
    | Prepare(u: Uuid, size: nat)             // a new report, and its dump written
    | Finish(u: Uuid, now: int)
    | BeginUpload(u: Uuid)
    | Complete(u: Uuid, id: Text, now: int) // the outstanding handle ends with success
    | Drop(u: Uuid, now: int)                 // the outstanding handle is destroyed
    | Skip(u: Uuid)
    | RequestUpload(u: Uuid)
    | LookUp(u: Uuid)
    | Delete(u: Uuid)

  /** Calls a client can make: identifiers of new reports are new, a handle is ended by its holder. */
  predicate Enabled(db: Db, c: Call) {
    match c
    case Prepare(u, _) => u !in db.drafts && u !in db.reports
    case Finish(u, _) => u in db.drafts
    case Complete(u, _, _) => db.Is(u, Uploading)
    case Drop(u, _) => db.Is(u, Uploading)
    case _ => true
  }

  function NewReport(size: nat, now: int): Report {
    Report(Pending, size, now, 0, 0, false, false, [])
  }

  /** What ending a handle makes of a report. */
  function Ended(r: Report, success: bool, id: Text, now: int): Report {
    r.(phase := if success then Completed else Pending, attempts := r.attempts + 1, lastAttempt := now,
       uploaded := success, id := id, requested := !success && r.requested)
  }

  function Step(db: Db, c: Call): (Db, Status)
    requires Enabled(db, c)
  {
    match c
    case Prepare(u, size) => (db.(drafts := db.drafts[u := size]), NoError)
    case Finish(u, now) =>
      (db.(drafts := db.drafts - {u}, reports := db.reports[u := NewReport(db.drafts[u], now)]), NoError)
    case BeginUpload(u) =>
      if db.Is(u, Uploading) then (db, BusyError)
      else if !db.Is(u, Pending) then (db, ReportNotFound)
      else (db.Put(u, db.reports[u].(phase := Uploading)), NoError)
    case Complete(u, id, now) => (db.Put(u, Ended(db.reports[u], true, id, now)).(lastAttempt := now), NoError)
    case Drop(u, now) => (db.Put(u, Ended(db.reports[u], false, [], now)).(lastAttempt := now), NoError)
    case Skip(u) =>
      if db.Is(u, Uploading) then (db, BusyError)
      else if !db.Is(u, Pending) then (db, ReportNotFound)
      else (db.Put(u, db.reports[u].(phase := Completed, requested := false)), NoError)
    case RequestUpload(u) =>
      if db.Is(u, Uploading) then (db, BusyError)
      else if u !in db.reports then (db, ReportNotFound)
      else if db.reports[u].uploaded then (db, CannotRequestUpload)
      else (db.Put(u, db.reports[u].(phase := Pending, requested := true)), NoError)
    case LookUp(u) =>
      (db, if db.Is(u, Uploading) then BusyError else if u in db.reports then NoError else ReportNotFound)
    case Delete(u) =>
      if db.Is(u, Uploading) then (db, BusyError)
      else if u !in db.reports then (db, ReportNotFound)
      else (db.(reports := db.reports - {u}), NoError)
  }

  // Listings

  /** Where dumps are kept: by phase, or all in one directory. */
  datatype Layout = ByPhase | AllInOne

  datatype Folder = PendingFolder | CompletedFolder | ReportsFolder

  function FolderOf(r: Report, layout: Layout): Folder {
    if layout == AllInOne then ReportsFolder else if r.phase == Completed then CompletedFolder else PendingFolder
  }

  /** A report as lookups and listings return it. The folder and the identifier make up its path. */
  datatype Listed = Listed(uuid: Uuid, folder: Folder, size: nat, creation: int, attempts: int, lastAttempt: int,
                           uploaded: bool, requested: bool, id: Text)

  /** reports lists exactly the reports in a phase, each once, in any order. */
  ghost predicate IsListing(reports: seq<Listed>, db: Db, phase: Phase, layout: Layout := ByPhase) {
    && (forall i, j :: 0 <= i < j < |reports| ==> reports[i].uuid != reports[j].uuid)
    && (forall i :: 0 <= i < |reports| ==>
          db.Is(reports[i].uuid, phase) && reports[i] == Listing(db, reports[i].uuid, layout))
    && (forall u :: u in db.reports && db.reports[u].phase == phase ==> Listing(db, u, layout) in reports)
  }

  function Listing(db: Db, u: Uuid, layout: Layout := ByPhase): Listed
    requires u in db.reports
  {
    var r := db.reports[u];
    Listed(u, FolderOf(r, layout), r.size, r.creation, r.attempts, r.lastAttempt, r.uploaded, r.requested, r.id)
  }

  // Runs

  /** A run from the empty database that a client can make. */
  predicate Legal(calls: seq<Call>)
    decreases |calls|, 0
  {
    calls == [] || (Legal(Before(calls)) && Enabled(Run(Before(calls)), Last(calls)))
  }

  function Run(calls: seq<Call>): Db
    requires Legal(calls)
    decreases |calls|, 1
  {
    if calls == [] then Empty else Step(Run(Before(calls)), Last(calls)).0
  }

  /** What the calls of a run answer. */
  function Answers(calls: seq<Call>): seq<Status>
    requires Legal(calls)
  {
    if calls == [] then [] else Answers(Before(calls)) + [Step(Run(Before(calls)), Last(calls)).1]
  }

  // What every run keeps

  /** A request for upload lasts while the report is pending; an uploaded report is completed. */
  predicate Sound(r: Report) {
    (r.requested ==> r.phase != Completed) && (r.uploaded ==> r.phase == Completed)
  }

  ghost predicate AllSound(db: Db) {
    forall u :: u in db.reports ==> Sound(db.reports[u]) && u !in db.drafts
  }

  /** Identifiers are not used again, not even after a deletion. */
  predicate NoReuse(calls: seq<Call>) {
    forall i, j :: 0 <= i < j < |calls| && calls[i].Prepare? && calls[j].Prepare? ==> calls[i].u != calls[j].u
  }

  predicate Prepared(calls: seq<Call>, u: Uuid) {
    exists i :: 0 <= i < |calls| && calls[i].Prepare? && calls[i].u == u
  }

  /** The handles of a report that ended in a run, and those that ended with success. */
  function EndedHandles(calls: seq<Call>, u: Uuid): nat {
    if calls == [] then 0
    else EndedHandles(Before(calls), u) + if (Last(calls).Complete? || Last(calls).Drop?) && Last(calls).u == u then 1 else 0
  }

  function Successes(calls: seq<Call>, u: Uuid): nat {
    if calls == [] then 0
    else Successes(Before(calls), u) + if Last(calls).Complete? && Last(calls).u == u then 1 else 0
  }

  lemma StepKeepsSound(db: Db, c: Call)
    requires AllSound(db) && Enabled(db, c)
    ensures AllSound(Step(db, c).0)
  {
  }

  lemma {:induction false} RunsAreSound(calls: seq<Call>)
    requires Legal(calls)
    ensures AllSound(Run(calls))
  {
    if calls != [] {
      RunsAreSound(Before(calls));
      StepKeepsSound(Run(Before(calls)), Last(calls));
    }
  }

  /** The history of a report agrees with its counters: the attempts are the ended handles, and no
      report is uploaded with success twice. */
  ghost predicate Counted(db: Db, u: Uuid, ended: nat, successes: nat, prepared: bool) {
    && successes <= 1
    && (u in db.reports ==> ended == db.reports[u].attempts && (successes == 1 <==> db.reports[u].uploaded))
    && (u in db.drafts ==> ended == 0 && successes == 0)
    && (!prepared ==> u !in db.reports && u !in db.drafts && ended == 0 && successes == 0)
  }

  lemma StepCounts(db: Db, c: Call, u: Uuid, ended: nat, successes: nat, prepared: bool)
    requires AllSound(db) && Enabled(db, c) && Counted(db, u, ended, successes, prepared)
    requires c.Prepare? && c.u == u ==> !prepared
    ensures Counted(Step(db, c).0, u,
                    ended + (if (c.Complete? || c.Drop?) && c.u == u then 1 else 0),
                    successes + (if c.Complete? && c.u == u then 1 else 0),
                    prepared || (c.Prepare? && c.u == u))
  {
  }

  lemma {:induction false} HandlesAreCounted(calls: seq<Call>, u: Uuid)
    requires Legal(calls) && NoReuse(calls)
    ensures Counted(Run(calls), u, EndedHandles(calls, u), Successes(calls, u), Prepared(calls, u))
  {
    if calls != [] {
      var b := Before(calls);
      HandlesAreCounted(b, u);
      RunsAreSound(b);
      assert Prepared(calls, u) <==> Prepared(b, u) || (Last(calls).Prepare? && Last(calls).u == u) by {
        if Prepared(b, u) {
          var i :| 0 <= i < |b| && b[i].Prepare? && b[i].u == u;
          assert calls[i] == b[i];
        }
      }
      StepCounts(Run(b), Last(calls), u, EndedHandles(b, u), Successes(b, u), Prepared(b, u));
    }
  }
}
