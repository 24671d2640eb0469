/** Lifecycle as the Windows database has it: what each call answers and does, on every run. */
module WinLifecycle {
  import opened Bytes
  import opened Lifecycle
  import opened Runs
  import MetadataFile

  /** The reports, and what deleting some of them during an upload has left: their dumps, with their
      sizes, and the upload handles that are still outstanding, with their copy of the request flag. */
  datatype WinDb = WinDb(db: Db, orphans: map<Uuid, nat>, stale: map<Uuid, bool>) {
    ghost predicate Sound() {
      && AllSound(db)
      && (forall u :: u in db.reports ==> MetadataFile.NulFree(db.reports[u].id))
      && (forall u :: u in orphans ==> u !in db.reports && u !in db.drafts)
      && forall u :: u in stale ==> u in orphans
    }
  }

  const WinEmpty: WinDb := WinDb(Empty, map[], map[])

  predicate WinEnabled(w: WinDb, c: Call) {
    ((c.Complete? || c.Drop?) && c.u in w.stale) || Enabled(w.db, c)
  }

  /** A call that does what Lifecycle says. */
  function Common(w: WinDb, c: Call): (WinDb, Status)
    requires Enabled(w.db, c)
  {
    var (db, status) := Step(w.db, c);
    (w.(db := db), status)
  }

  /** The dump of a report in upload is open, so that deleting the report removes its record only. */
  function Removed(w: WinDb, u: Uuid): (WinDb, Status) {
    if u !in w.db.reports then (w, ReportNotFound)
    else
      var r, db := w.db.reports[u], w.db.(reports := w.db.reports - {u});
      if r.phase == Uploading then
        (WinDb(db, w.orphans[u := r.size], w.stale[u := r.requested]), FileSystemError)
      else (w.(db := db), NoError)
  }

  /** The end of an upload whose report is gone is not recorded. */
  function WinStep(w: WinDb, c: Call): (WinDb, Status)
    requires WinEnabled(w, c)
  {
    match c
    case Prepare(u, _) => if u in w.orphans then (w, FileSystemError) else Common(w, c)
    case Complete(u, id, now) =>
      if u in w.stale then (w.(stale := w.stale - {u}), ReportNotFound)
      else Common(w, Complete(u, MetadataFile.CString(id), now))
    case Drop(u, _) => if u in w.stale then (w.(stale := w.stale - {u}), NoError) else Common(w, c)
    case LookUp(u) => (w, if u in w.db.reports then NoError else ReportNotFound)
    case Delete(u) => Removed(w, u)
    case _ => Common(w, c)
  }

  lemma WinStepKeepsSound(w: WinDb, c: Call)
    requires w.Sound() && WinEnabled(w, c)
    ensures WinStep(w, c).0.Sound()
  {
    if Enabled(w.db, c) {
      StepKeepsSound(w.db, c);
    }
    if c.Complete? && c.u !in w.stale {
      StepKeepsSound(w.db, Complete(c.u, MetadataFile.CString(c.id), c.now));
    }
  }

  // Runs

  predicate WinLegal(calls: seq<Call>)
    decreases |calls|, 0
  {
    calls == [] || (WinLegal(Before(calls)) && WinEnabled(WinRun(Before(calls)), Last(calls)))
  }

  function WinRun(calls: seq<Call>): WinDb
    requires WinLegal(calls)
    decreases |calls|, 1
  {
    if calls == [] then WinEmpty else WinStep(WinRun(Before(calls)), Last(calls)).0
  }

  function WinAnswers(calls: seq<Call>): seq<Status>
    requires WinLegal(calls)
  {
    if calls == [] then [] else WinAnswers(Before(calls)) + [WinStep(WinRun(Before(calls)), Last(calls)).1]
  }

  /** A report was deleted in a run while it was being uploaded. */
  predicate DeletedInUpload(calls: seq<Call>, u: Uuid)
    requires WinLegal(calls)
  {
    calls != [] && (DeletedInUpload(Before(calls), u)
                    || (Last(calls) == Delete(u) && WinRun(Before(calls)).db.Is(u, Uploading)))
  }

  /** In every run, reports are sound, and a dump is left without a record exactly if its report was
      deleted while it was being uploaded; such a report never comes back. */
  lemma {:induction false} WinRunsAreSound(calls: seq<Call>, u: Uuid)
    requires WinLegal(calls)
    ensures WinRun(calls).Sound()
    ensures u in WinRun(calls).orphans <==> DeletedInUpload(calls, u)
    ensures DeletedInUpload(calls, u) ==> u !in WinRun(calls).db.reports && u !in WinRun(calls).db.drafts
  {
    if calls != [] {
      WinRunsAreSound(Before(calls), u);
      WinStepKeepsSound(WinRun(Before(calls)), Last(calls));
    }
  }

  /** A report was deleted in a run while it was being uploaded, and the handle has not ended since. */
  predicate HandleLost(calls: seq<Call>, u: Uuid)
    requires WinLegal(calls)
  {
    calls != [] &&
    (if Last(calls) == Delete(u) && WinRun(Before(calls)).db.Is(u, Uploading) then true
     else if (Last(calls).Complete? || Last(calls).Drop?) && Last(calls).u == u then false
     else HandleLost(Before(calls), u))
  }

  /** In every run these are the handles whose end is not recorded: it is answered that there is no such
      report, and no report changes. */
  lemma {:induction false} LostHandlesExactly(calls: seq<Call>, u: Uuid)
    requires WinLegal(calls)
    ensures u in WinRun(calls).stale <==> HandleLost(calls, u)
    ensures HandleLost(calls, u) ==> forall id: Text, now: int ::
              var (w, status) := WinStep(WinRun(calls), Complete(u, id, now));
              status == ReportNotFound && w.db == WinRun(calls).db && u !in w.stale
    ensures HandleLost(calls, u) ==> forall now: int ::
              var w := WinStep(WinRun(calls), Drop(u, now)).0; w.db == WinRun(calls).db && u !in w.stale
  {
    WinRunsAreSound(calls, u);
    if calls != [] {
      LostHandlesExactly(Before(calls), u);
      WinRunsAreSound(Before(calls), u);
    }
  }

  /** What such deletions leave behind keeps its identifier: it cannot be prepared again. */
  lemma OrphansAreInTheWay(calls: seq<Call>, u: Uuid, size: nat)
    requires WinLegal(calls) && DeletedInUpload(calls, u)
    ensures WinEnabled(WinRun(calls), Prepare(u, size))
    ensures WinStep(WinRun(calls), Prepare(u, size)) == (WinRun(calls), FileSystemError)
  {
    WinRunsAreSound(calls, u);
  }
}
