/** The two databases give the same answers and come to hold the same reports, call by call. */
module Bisimulation {
  import opened Lifecycle
  import opened Runs
  import opened WinLifecycle
  import Generic = GenericDatabase
  import History
  import MetadataFile
  import Win = WinDatabase

  /** The calls on which the databases differ: looking up or deleting a report that is being uploaded,
      and completing an upload with an identifier that has a NUL; and, on Windows, using the identifier
      of a dump again that such a deletion left behind. */
  predicate Differs(w: WinDb, c: Call) {
    || ((c.LookUp? || c.Delete?) && w.db.Is(c.u, Uploading))
    || (c.Complete? && !MetadataFile.NulFree(c.id))
    || (c.Prepare? && c.u in w.orphans)
  }

  /** They differ on exactly those: one says busy, the other finds the report or deletes its record;
      one keeps the identifier, the other its part before the NUL. */
  lemma DifferExactly(w: WinDb, c: Call)
    requires w.Sound() && Enabled(w.db, c)
    ensures WinStep(w, c) != Common(w, c) <==> Differs(w, c)
  {
    if c.Complete? {
      var one, other := Common(w, c).0.db, WinStep(w, c).0.db;
      assert one.reports[c.u].id == c.id && other.reports[c.u].id == MetadataFile.CString(c.id);
    }
  }

  /** Where they part: after three calls on which they agree, on either of two. */
  lemma PartInUpload(u: Uuid, size: nat, now: int)
    ensures var calls := [Prepare(u, size), Finish(u, now), BeginUpload(u)];
            && Legal(calls) && WinLegal(calls) && WinRun(calls) == WinDb(Run(calls), map[], map[])
            && Step(Run(calls), LookUp(u)).1 == BusyError && WinStep(WinRun(calls), LookUp(u)).1 == NoError
            && Step(Run(calls), Delete(u)).1 == BusyError && WinStep(WinRun(calls), Delete(u)).1 == FileSystemError
  {
    var none: seq<Call> := [];
    var one := none + [Prepare(u, size)];
    var two := one + [Finish(u, now)];
    AlikeAfter(none, Prepare(u, size));
    AlikeAfter(one, Finish(u, now));
    AlikeAfter(two, BeginUpload(u));
    InUpload(Run(two), u);
    assert two + [BeginUpload(u)] == [Prepare(u, size), Finish(u, now), BeginUpload(u)];
  }

  lemma InUpload(db: Db, u: Uuid)
    requires db.Is(u, Pending)
    ensures var db' := Step(db, BeginUpload(u)).0;
            && Step(db', LookUp(u)).1 == BusyError && WinStep(WinDb(db', map[], map[]), LookUp(u)).1 == NoError
            && Step(db', Delete(u)).1 == BusyError && WinStep(WinDb(db', map[], map[]), Delete(u)).1 == FileSystemError
  {
  }

  lemma AlikeAfter(calls: seq<Call>, c: Call)
    requires Legal(calls) && WinLegal(calls) && WinRun(calls) == WinDb(Run(calls), map[], map[])
    requires Enabled(Run(calls), c) && AllSound(Run(calls)) && !Differs(WinRun(calls), c) && WinRun(calls).Sound()
    ensures Legal(calls + [c]) && WinLegal(calls + [c])
    ensures Run(calls + [c]) == Step(Run(calls), c).0 && WinRun(calls + [c]) == WinDb(Run(calls + [c]), map[], map[])
    ensures WinRun(calls + [c]).Sound()
  {
    assert Before(calls + [c]) == calls && Last(calls + [c]) == c;
    DifferExactly(WinRun(calls), c);
    WinStepKeepsSound(WinRun(calls), c);
  }

  /** No call of a legal run is one on which the databases differ. */
  predicate Agreeing(calls: seq<Call>)
    requires Legal(calls)
  {
    calls == [] || (Agreeing(Before(calls)) && !Differs(WinDb(Run(Before(calls)), map[], map[]), Last(calls)))
  }

  method CallGeneric(db: Generic.Database, c: Call) returns (status: Status)
    requires db.Valid() && Enabled(db.model, c)
    modifies db
    ensures db.Valid() && (db.model, status) == Step(old(db.model), c)
  {
    assert Generic.Ok(Generic.Files(db.dumps, db.metas, db.locks, db.handles), db.model, c.u);
    status := NoError;
    match c {
      case Prepare(u, size) => status := db.PrepareNewCrashReport(u, size);
      case Finish(u, now) => status := db.FinishedWritingCrashReport(u, now);
      case BeginUpload(u) => status := db.GetReportForUploading(u);
      case Complete(u, id, now) => status := db.RecordUploadComplete(u, id, now);
      case Drop(u, now) => db.DropUpload(u, now);
      case Skip(u) => status := db.SkipReportUpload(u);
      case RequestUpload(u) => status := db.RequestUpload(u);
      case LookUp(u) =>
        var report;
        status, report := db.LookUpCrashReport(u);
      case Delete(u) => status := db.DeleteReport(u);
    }
  }

  method CallWin(db: Win.Database, c: Call) returns (status: Status)
    requires db.Valid() && WinEnabled(db.model, c)
    modifies db
    ensures db.Valid() && (db.model, status) == WinStep(old(db.model), c)
  {
    assert Win.Ok(Win.Store(db.reports, db.dumps, db.handles), db.model, c.u);
    status := NoError;
    match c {
      case Prepare(u, size) => status := db.PrepareNewCrashReport(u, size);
      case Finish(u, now) => status := db.FinishedWritingCrashReport(u, now);
      case BeginUpload(u) => status := db.GetReportForUploading(u);
      case Complete(u, id, now) => status := db.RecordUploadComplete(u, id, now);
      case Drop(u, now) => db.DropUpload(u, now);
      case Skip(u) => status := db.SkipReportUpload(u);
      case RequestUpload(u) => status := db.RequestUpload(u);
      case LookUp(u) =>
        var report;
        status, report := db.LookUpCrashReport(u);
      case Delete(u) => status := db.DeleteReport(u);
    }
  }

  /** Any legal run, made on both databases. */
  method RunBoth(calls: seq<Call>)
      returns (g: Generic.Database, w: Win.Database, generic: seq<Status>, win: seq<Status>)
    requires Legal(calls) && Agreeing(calls)
    ensures g.Valid() && w.Valid()
    ensures generic == win == Answers(calls)
    ensures g.model == Run(calls) && w.model == WinDb(Run(calls), map[], map[])
  {
    g := new Generic.Database();
    w := new Win.Database();
    generic, win := [], [];
    for i := 0 to |calls|
      invariant g.Valid() && w.Valid()
      invariant Legal(calls[..i]) && Agreeing(calls[..i])
      invariant generic == win == Answers(calls[..i])
      invariant g.model == Run(calls[..i]) && w.model == WinDb(Run(calls[..i]), map[], map[])
    {
      PrefixIsLegal(calls, i + 1);
      PrefixAgrees(calls, i + 1);
      assert Before(calls[..i + 1]) == calls[..i];
      DifferExactly(w.model, calls[i]);
      var a := CallGeneric(g, calls[i]);
      var b := CallWin(w, calls[i]);
      generic, win := generic + [a], win + [b];
    }
    assert calls[..|calls|] == calls;
  }

  /** Any run of the Windows database, the calls on which the databases differ included. */
  method RunWin(calls: seq<Call>) returns (db: Win.Database, answers: seq<Status>)
    requires WinLegal(calls)
    ensures db.Valid() && answers == WinAnswers(calls) && db.model == WinRun(calls)
    ensures forall u: Uuid :: u in db.dumps <==>
              u in db.model.db.reports || u in db.model.db.drafts || DeletedInUpload(calls, u)
  {
    db := new Win.Database();
    answers := [];
    for i := 0 to |calls|
      invariant db.Valid() && WinLegal(calls[..i])
      invariant answers == WinAnswers(calls[..i]) && db.model == WinRun(calls[..i])
    {
      WinPrefixIsLegal(calls, i + 1);
      assert Before(calls[..i + 1]) == calls[..i];
      var a := CallWin(db, calls[i]);
      answers := answers + [a];
    }
    assert calls[..|calls|] == calls;
    forall u: Uuid
      ensures u in db.dumps <==> u in db.model.db.reports || u in db.model.db.drafts || DeletedInUpload(calls, u)
    {
      assert Win.Ok(Win.Store(db.reports, db.dumps, db.handles), db.model, u);
      WinRunsAreSound(calls, u);
    }
  }

  lemma {:induction false} WinPrefixIsLegal(calls: seq<Call>, n: nat)
    requires WinLegal(calls) && n <= |calls|
    ensures WinLegal(calls[..n])
    decreases |calls|
  {
    if n == |calls| {
      assert calls[..n] == calls;
    } else {
      WinPrefixIsLegal(Before(calls), n);
      assert Before(calls)[..n] == calls[..n];
    }
  }

  /** The dump of a report lies in one directory, with its metadata there and nowhere else; a dump
      being written lies in the directory of new reports without metadata. */
  ghost predicate InOnePlace(db: Generic.Database, u: Uuid)
    reads db
  {
    && (u in db.model.reports ==>
          var d := if db.model.reports[u].phase == Completed then Generic.CompletedDir else Generic.PendingDir;
          forall e :: (Generic.Slot(e, u) in db.dumps <==> e == d) && (Generic.Slot(e, u) in db.metas <==> e == d))
    && (u !in db.model.reports ==> forall e ::
          && Generic.Slot(e, u) !in db.metas
          && (Generic.Slot(e, u) in db.dumps <==> e == Generic.NewDir && u in db.model.drafts))
  }

  lemma ExpectedInOnePlace(db: Generic.Database, u: Uuid)
    requires Generic.Ok(Generic.Files(db.dumps, db.metas, db.locks, db.handles), db.model, u)
    ensures InOnePlace(db, u)
  {
    var f := Generic.Files(db.dumps, db.metas, db.locks, db.handles);
    forall e: Generic.Dir
      ensures Generic.PlaceOf(f, Generic.Slot(e, u))
              == match e
                 case NewDir => Generic.Expected(db.model, u).draft
                 case PendingDir => Generic.Expected(db.model, u).pending
                 case CompletedDir => Generic.Expected(db.model, u).completed
    {
    }
  }

  /** Any legal run of the database on files, with handles outstanding between the calls. */
  method RunGeneric(calls: seq<Call>) returns (db: Generic.Database, answers: seq<Status>)
    requires Legal(calls)
    ensures answers == Answers(calls) && db.model == Run(calls) && AllSound(db.model)
    ensures forall u: Uuid :: InOnePlace(db, u)
    ensures |answers| == |calls| && forall u: Uuid :: History.Tells(History.MarksOf(calls, answers, u), db.model, u)
    ensures NoReuse(calls) ==> forall u: Uuid ::
              Counted(db.model, u, EndedHandles(calls, u), Successes(calls, u), Prepared(calls, u))
  {
    db := new Generic.Database();
    answers := [];
    for i := 0 to |calls|
      invariant db.Valid() && Legal(calls[..i])
      invariant answers == Answers(calls[..i]) && db.model == Run(calls[..i])
    {
      PrefixIsLegal(calls, i + 1);
      assert Before(calls[..i + 1]) == calls[..i];
      var a := CallGeneric(db, calls[i]);
      answers := answers + [a];
    }
    assert calls[..|calls|] == calls;
    forall u: Uuid
      ensures InOnePlace(db, u)
    {
      assert Generic.Ok(Generic.Files(db.dumps, db.metas, db.locks, db.handles), db.model, u);
      ExpectedInOnePlace(db, u);
    }
    History.AnswersLength(calls);
    forall u: Uuid
      ensures History.Tells(History.MarksOf(calls, answers, u), db.model, u)
    {
      History.HistoryTells(calls, u);
    }
    forall u: Uuid | NoReuse(calls)
      ensures Counted(db.model, u, EndedHandles(calls, u), Successes(calls, u), Prepared(calls, u))
    {
      HandlesAreCounted(calls, u);
    }
  }

  lemma {:induction false} PrefixIsLegal(calls: seq<Call>, n: nat)
    requires Legal(calls) && n <= |calls|
    ensures Legal(calls[..n])
    decreases |calls|
  {
    if n == |calls| {
      assert calls[..n] == calls;
    } else {
      PrefixIsLegal(Before(calls), n);
      assert Before(calls)[..n] == calls[..n];
    }
  }

  lemma {:induction false} PrefixAgrees(calls: seq<Call>, n: nat)
    requires Legal(calls) && Agreeing(calls) && n <= |calls| && Legal(calls[..n])
    ensures Agreeing(calls[..n])
    decreases |calls|
  {
    if n == |calls| {
      assert calls[..n] == calls;
    } else {
      assert Before(calls)[..n] == calls[..n];
      PrefixAgrees(Before(calls), n);
    }
  }
}
