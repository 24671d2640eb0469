/** The database on a file system: a dump, a metadata file and a lock file per report, in one of
    three directories. Each call is one step; file operations do not fail. */
module GenericDatabase {
  import opened Bytes
  import opened Lifecycle

  datatype Dir = NewDir | PendingDir | CompletedDir

  /** The path of a report without its extension. */
  datatype Slot = Slot(dir: Dir, uuid: Uuid)

  datatype Metadata = Metadata(attempts: int, lastAttempt: int, creation: int, uploaded: bool, requested: bool, id: Text)

  /** An outstanding upload: the caller's copy of the report. It holds the lock of its slot. */
  datatype Handle = Handle(slot: Slot, meta: Metadata)

  datatype Files = Files(dumps: map<Slot, nat>, metas: map<Slot, Metadata>, locks: set<Slot>, handles: map<Uuid, Handle>)

  function MetaOf(r: Report): Metadata {
    Metadata(r.attempts, r.lastAttempt, r.creation, r.uploaded, r.requested, r.id)
  }

  function ToListed(slot: Slot, size: nat, m: Metadata): Listed {
    Listed(slot.uuid, if slot.dir == CompletedDir then CompletedFolder else PendingFolder, size, m.creation, m.attempts,
           m.lastAttempt, m.uploaded, m.requested, m.id)
  }

  function DirOf(r: Report): Dir {
    if r.phase == Completed then CompletedDir else PendingDir
  }

  /** What there is of a report in one directory. */
  datatype Place = Place(dump: Option<nat>, meta: Option<Metadata>, locked: bool)

  /** What there is of a report. */
  datatype View = View(draft: Place, pending: Place, completed: Place, handle: Option<Handle>)

  const NOTHING: Place := Place(None, None, false)

  function PlaceOf(f: Files, slot: Slot): Place {
    Place(if slot in f.dumps then Some(f.dumps[slot]) else None,
          if slot in f.metas then Some(f.metas[slot]) else None,
          slot in f.locks)
  }

  function Seen(f: Files, u: Uuid): View {
    View(PlaceOf(f, Slot(NewDir, u)), PlaceOf(f, Slot(PendingDir, u)), PlaceOf(f, Slot(CompletedDir, u)),
         if u in f.handles then Some(f.handles[u]) else None)
  }

  /** The dump of a report is in exactly one directory, its metadata in the same one only; a dump
      being written has none; only outstanding handles hold locks. */
  function Expected(db: Db, u: Uuid): View {
    if u in db.reports then
      var r := db.reports[u];
      var place := Place(Some(r.size), Some(MetaOf(r)), r.phase == Uploading);
      View(NOTHING,
           if r.phase == Completed then NOTHING else place,
           if r.phase == Completed then place else NOTHING,
           if r.phase == Uploading then Some(Handle(Slot(PendingDir, u), MetaOf(r))) else None)
    else
      View(if u in db.drafts then Place(Some(db.drafts[u]), None, false) else NOTHING, NOTHING, NOTHING, None)
  }

  ghost predicate Ok(f: Files, db: Db, u: Uuid) {
    Seen(f, u) == Expected(db, u)
  }

  ghost predicate SameElsewhere(f: Files, f': Files, u: Uuid) {
    forall v: Uuid :: v != u ==> Seen(f', v) == Seen(f, v)
  }

  /** A call concerns one report. */
  lemma OthersExpectTheSame(db: Db, c: Call)
    requires Enabled(db, c)
    ensures forall v: Uuid :: v != c.u ==> Expected(Step(db, c).0, v) == Expected(db, v)
  {
  }

  /** A call that leaves the other reports as they were, and its own as it should. */
  lemma CallKeepsOk(f: Files, db: Db, f': Files, c: Call)
    requires Enabled(db, c) && forall v: Uuid :: Ok(f, db, v)
    requires SameElsewhere(f, f', c.u) && Ok(f', Step(db, c).0, c.u)
    ensures forall v: Uuid :: Ok(f', Step(db, c).0, v)
  {
    OthersExpectTheSame(db, c);
    hide Seen, Expected;
    forall v: Uuid | v != c.u
      ensures Ok(f', Step(db, c).0, v)
    {
      assert Ok(f, db, v);
    }
  }

  /** The outcome of searching directories: the dump is found and not locked; or it is in none of them,
      and none of them is locked; or one of them is locked. */
  ghost predicate Located(f: Files, u: Uuid, dirs: seq<Dir>, status: Status, slot: Slot) {
    && (status == NoError ==> slot.uuid == u && slot.dir in dirs && slot in f.dumps && slot !in f.locks)
    && (status == ReportNotFound ==> forall d :: d in dirs ==> Slot(d, u) !in f.dumps && Slot(d, u) !in f.locks)
    && (status == BusyError ==> exists d :: d in dirs && Slot(d, u) in f.locks)
    && (status == NoError || status == ReportNotFound || status == BusyError)
  }

  /** Searching finds a report where its phase says, and says busy if it is being uploaded. */
  lemma LocatedReport(f: Files, db: Db, u: Uuid, dirs: seq<Dir>, status: Status, slot: Slot)
    requires dirs == [PendingDir] || dirs == [PendingDir, CompletedDir]
    requires Ok(f, db, u) && Located(f, u, dirs, status, slot)
    ensures status == if db.Is(u, Uploading) then BusyError
                      else if u in db.reports && DirOf(db.reports[u]) in dirs then NoError
                      else ReportNotFound
    ensures status == NoError ==> slot == Slot(DirOf(db.reports[u]), u) && slot in f.metas
                                  && f.metas[slot] == MetaOf(db.reports[u]) && f.dumps[slot] == db.reports[u].size
  {
    assert dirs[0] == PendingDir && PendingDir in dirs;
  }

  lemma RemoveLock(locks: set<Slot>, slot: Slot)
    requires slot !in locks
    ensures locks + {slot} - {slot} == locks
  {
  }

  /** An entry moved, in either order. */
  lemma MoveEntry<T>(m: map<Slot, T>, from: Slot, to: Slot, x: T)
    ensures (m - {from})[to := x] == if from == to then m[to := x] else m[to := x] - {from}
  {
  }

  /** Moving a report with new metadata, no handle being outstanding before or after. */
  lemma MoveKeepsOk(f: Files, db: Db, c: Call, r: Report) returns (f': Files)
    requires Enabled(db, c) && (forall v: Uuid :: Ok(f, db, v)) && c.u in db.reports
    requires Step(db, c).0 == db.Put(c.u, r) && r.size == db.reports[c.u].size
    requires db.reports[c.u].phase != Uploading && r.phase != Uploading
    ensures var from, to := Slot(DirOf(db.reports[c.u]), c.u), Slot(DirOf(r), c.u);
            && from in f.dumps
            && f' == f.(dumps := (f.dumps - {from})[to := f.dumps[from]], metas := (f.metas - {from})[to := MetaOf(r)])
    ensures forall v: Uuid :: Ok(f', Step(db, c).0, v)
  {
    var from, to := Slot(DirOf(db.reports[c.u]), c.u), Slot(DirOf(r), c.u);
    assert Ok(f, db, c.u);
    f' := f.(dumps := (f.dumps - {from})[to := f.dumps[from]], metas := (f.metas - {from})[to := MetaOf(r)]);
    CallKeepsOk(f, db, f', c);
  }

  lemma DeleteKeepsOk(f: Files, db: Db, u: Uuid, slot: Slot)
    requires (forall v: Uuid :: Ok(f, db, v)) && AllSound(db) && u in db.reports && db.reports[u].phase != Uploading
    requires slot == Slot(DirOf(db.reports[u]), u)
    ensures forall v: Uuid :: Ok(f.(dumps := f.dumps - {slot}, metas := f.metas - {slot}), Step(db, Delete(u)).0, v)
  {
    assert Ok(f, db, u);
    CallKeepsOk(f, db, f.(dumps := f.dumps - {slot}, metas := f.metas - {slot}), Delete(u));
  }

  /** A dump that is being written is where it can be moved from, and nothing is in its way. */
  lemma FinishKeepsOk(f: Files, db: Db, u: Uuid, now: int) returns (f': Files)
    requires (forall v: Uuid :: Ok(f, db, v)) && AllSound(db) && u in db.drafts
    ensures var from, to := Slot(NewDir, u), Slot(PendingDir, u);
            && from in f.dumps && to !in f.metas && to !in f.locks
            && f' == f.(dumps := (f.dumps - {from})[to := f.dumps[from]],
                        metas := f.metas[to := Metadata(0, 0, now, false, false, [])])
    ensures forall v: Uuid :: Ok(f', Step(db, Finish(u, now)).0, v)
  {
    var from, to := Slot(NewDir, u), Slot(PendingDir, u);
    assert Ok(f, db, u);
    f' := f.(dumps := (f.dumps - {from})[to := f.dumps[from]],
             metas := f.metas[to := Metadata(0, 0, now, false, false, [])]);
    CallKeepsOk(f, db, f', Finish(u, now));
  }

  lemma BeginKeepsOk(f: Files, db: Db, u: Uuid) returns (f': Files)
    requires (forall v: Uuid :: Ok(f, db, v)) && db.Is(u, Pending)
    ensures var slot := Slot(PendingDir, u);
            f' == f.(locks := f.locks + {slot}, handles := f.handles[u := Handle(slot, MetaOf(db.reports[u]))])
    ensures forall v: Uuid :: Ok(f', Step(db, BeginUpload(u)).0, v)
  {
    var slot := Slot(PendingDir, u);
    f' := f.(locks := f.locks + {slot}, handles := f.handles[u := Handle(slot, MetaOf(db.reports[u]))]);
    assert Ok(f, db, u);
    CallKeepsOk(f, db, f', BeginUpload(u));
  }

  /** What a directory entry of a report says about it. */
  lemma EntryOfReport(f: Files, db: Db, slot: Slot)
    requires Ok(f, db, slot.uuid) && slot in f.dumps && slot.dir != NewDir
    ensures slot.uuid in db.reports && slot.dir == DirOf(db.reports[slot.uuid])
    ensures slot in f.locks <==> db.Is(slot.uuid, Uploading)
    ensures slot in f.metas && ToListed(slot, f.dumps[slot], f.metas[slot]) == Listing(db, slot.uuid)
  {
  }

  /** The listing is complete but for the slots still to be looked at. */
  ghost predicate PartialListing(reports: seq<Listed>, db: Db, phase: Phase, todo: set<Slot>) {
    && (forall i, j :: 0 <= i < j < |reports| ==> reports[i].uuid != reports[j].uuid)
    && (forall i :: 0 <= i < |reports| ==>
          && db.Is(reports[i].uuid, phase) && reports[i] == Listing(db, reports[i].uuid)
          && Slot(DirOf(db.reports[reports[i].uuid]), reports[i].uuid) !in todo)
    && (forall u :: u in db.reports && db.reports[u].phase == phase && Slot(DirOf(db.reports[u]), u) !in todo ==>
          Listing(db, u) in reports)
  }

  lemma NothingListed(db: Db, phase: Phase, todo: set<Slot>)
    requires forall u :: db.Is(u, phase) ==> Slot(DirOf(db.reports[u]), u) in todo
    ensures PartialListing([], db, phase, todo)
  {
  }

  lemma AllListed(reports: seq<Listed>, db: Db, phase: Phase)
    requires PartialListing(reports, db, phase, {})
    ensures IsListing(reports, db, phase)
  {
  }

  lemma ListOneMore(reports: seq<Listed>, db: Db, phase: Phase, todo: set<Slot>, slot: Slot)
    requires PartialListing(reports, db, phase, todo) && slot in todo
    requires slot.uuid in db.reports && slot.dir == DirOf(db.reports[slot.uuid])
    ensures PartialListing(if db.Is(slot.uuid, phase) then reports + [Listing(db, slot.uuid)] else reports,
                           db, phase, todo - {slot})
  {
    assert slot == Slot(slot.dir, slot.uuid) && Listing(db, slot.uuid).uuid == slot.uuid;
    hide Listing, DirOf;
  }

  class Database {
    var dumps: map<Slot, nat>
    var metas: map<Slot, Metadata>
    var locks: set<Slot>
    var handles: map<Uuid, Handle>
    var lastAttempt: int  // kept in the settings file
    ghost var model: Db

    ghost predicate Valid()
      reads this
    {
      && lastAttempt == model.lastAttempt
      && AllSound(model)
      && forall u: Uuid :: Ok(Files(dumps, metas, locks, handles), model, u)
    }

    constructor ()
      ensures Valid() && model == Empty
    {
      dumps, metas, locks, handles := map[], map[], {}, map[];
      lastAttempt := 0;
      model := Empty;
    }

    // Lock files

    method Acquire(slot: Slot) returns (ok: bool)
      modifies this`locks
      ensures ok <==> slot !in old(locks)
      ensures locks == old(locks) + {slot}
    {
      ok := slot !in locks;
      locks := locks + {slot};
    }

    method Release(slot: Slot)
      modifies this`locks
      ensures locks == old(locks) - {slot}
    {
      locks := locks - {slot};
    }

    /** Searches the directories in turn and keeps the lock of the slot where the dump is. */
    method LocateAndLock(u: Uuid, dirs: seq<Dir>) returns (status: Status, slot: Slot)
      modifies this`locks
      ensures Located(Files(dumps, metas, old(locks), handles), u, dirs, status, slot)
      ensures locks == if status == NoError then old(locks) + {slot} else old(locks)
    {
      slot := Slot(NewDir, u);
      for i := 0 to |dirs|
        invariant locks == old(locks)
        invariant forall j :: 0 <= j < i ==> Slot(dirs[j], u) !in dumps && Slot(dirs[j], u) !in locks
      {
        slot := Slot(dirs[i], u);
        var ok := Acquire(slot);
        if !ok {
          return BusyError, slot;
        }
        if slot !in dumps {
          Release(slot);
          continue;
        }
        return NoError, slot;
      }
      status := ReportNotFound;
    }

    /** Also reads the metadata; a dump without any is removed. */
    method CheckoutReport(u: Uuid, dirs: seq<Dir>) returns (status: Status, slot: Slot, meta: Metadata)
      requires dirs == [PendingDir] || dirs == [PendingDir, CompletedDir]
      modifies this`locks, this`dumps, this`metas
      ensures metas == old(metas)
      ensures status != DatabaseError ==> dumps == old(dumps)
      ensures status == DatabaseError ==>
                slot.uuid == u && slot.dir in dirs && slot in old(dumps) && slot !in metas && dumps == old(dumps) - {slot}
      ensures status == NoError ==>
                && slot.uuid == u && slot.dir in dirs && slot in dumps && slot in metas && meta == metas[slot]
                && slot !in old(locks) && locks == old(locks) + {slot}
      ensures status != NoError ==> locks == old(locks)
      ensures old(Valid()) ==>
                && status == (if model.Is(u, Uploading) then BusyError
                              else if u in model.reports && DirOf(model.reports[u]) in dirs then NoError
                              else ReportNotFound)
                && (status == NoError ==> slot == Slot(DirOf(model.reports[u]), u) && meta == MetaOf(model.reports[u])
                                          && dumps[slot] == model.reports[u].size)
    {
      meta := Metadata(0, 0, 0, false, false, []);
      status, slot := LocateAndLock(u, dirs);
      if old(Valid()) {
        LocatedReport(Files(dumps, metas, old(locks), handles), model, u, dirs, status, slot);
      }
      hide Seen, Expected;
      if status != NoError {
        return;
      }
      if slot !in metas {
        dumps := dumps - {slot};
        metas := metas - {slot};
        Release(slot);
        return DatabaseError, slot, meta;
      }
      meta := metas[slot];
    }

    /** Renames a dump; fails if there is none. */
    method MoveDump(from: Slot, to: Slot) returns (ok: bool)
      modifies this`dumps
      ensures ok <==> from in old(dumps)
      ensures dumps == if ok then (old(dumps) - {from})[to := old(dumps)[from]] else old(dumps)
    {
      ok := from in dumps;
      if ok {
        dumps := (dumps - {from})[to := dumps[from]];
      }
    }

    /** Removes a metadata file; fails if there is none. */
    method RemoveMeta(slot: Slot) returns (ok: bool)
      modifies this`metas
      ensures ok <==> slot in old(metas)
      ensures metas == old(metas) - {slot}
    {
      ok := slot in metas;
      metas := metas - {slot};
    }

    // Calls

    method PrepareNewCrashReport(u: Uuid, size: nat) returns (status: Status)
      modifies this`dumps, this`model
      ensures old(Valid()) && Enabled(old(model), Prepare(u, size)) ==>
                Valid() && (model, status) == Step(old(model), Prepare(u, size))
    {
      ghost var was := Files(dumps, metas, locks, handles);
      assert Valid() ==> Ok(was, model, u);
      if Slot(NewDir, u) in dumps {
        return FileSystemError;
      }
      dumps := dumps[Slot(NewDir, u) := size];
      status := NoError;
      if old(Valid()) && Enabled(model, Prepare(u, size)) {
        StepKeepsSound(model, Prepare(u, size));
        model := Step(model, Prepare(u, size)).0;
        CallKeepsOk(was, old(model), Files(dumps, metas, locks, handles), Prepare(u, size));
      }
    }

    /** The new report is given up on failure, which removes its dump. */
    method FinishedWritingCrashReport(u: Uuid, now: int) returns (status: Status)
      modifies this`dumps, this`metas, this`locks, this`model
      ensures old(Valid()) && Enabled(old(model), Finish(u, now)) ==>
                Valid() && (model, status) == Step(old(model), Finish(u, now))
    {
      ghost var was, legal := Files(dumps, metas, locks, handles), Valid() && Enabled(model, Finish(u, now));
      if legal {
        StepKeepsSound(model, Finish(u, now));
        var next := FinishKeepsOk(was, model, u, now);
      }
      hide Seen, Expected;
      var path := Slot(PendingDir, u);
      var ok := Acquire(path);
      if !ok {
        dumps := dumps - {Slot(NewDir, u)};
        return BusyError;
      }
      if path in metas {
        dumps := dumps - {Slot(NewDir, u)};
        Release(path);
        return DatabaseError;
      }
      metas := metas[path := Metadata(0, 0, now, false, false, [])];
      ok := MoveDump(Slot(NewDir, u), path);
      Release(path);
      if !ok {
        return FileSystemError;
      }
      status := NoError;
      RemoveLock(was.locks, path);
      if legal {
        model := Step(model, Finish(u, now)).0;
      }
    }

    method LookUpCrashReport(u: Uuid) returns (status: Status, report: Option<Listed>)
      modifies this`dumps, this`metas, this`locks
      ensures old(Valid()) ==>
                && Valid() && status == Step(model, LookUp(u)).1
                && report == if status == NoError then Some(Listing(model, u)) else None
    {
      var slot, meta;
      status, slot, meta := CheckoutReport(u, [PendingDir, CompletedDir]);
      hide Seen, Expected;
      report := None;
      if status == NoError {
        report := Some(ToListed(slot, dumps[slot], meta));
        Release(slot);
        RemoveLock(old(locks), slot);
      }
    }

    /** Lists a directory, in whatever order its entries come, without the reports that are locked. */
    method ReportsInState(dir: Dir) returns (reports: seq<Listed>)
      requires dir != NewDir
      modifies this`dumps, this`metas, this`locks
      ensures old(Valid()) ==> Valid() && IsListing(reports, model, if dir == PendingDir then Pending else Completed)
    {
      reports := [];
      var todo := set slot | slot in dumps && slot.dir == dir;
      ghost var phase := if dir == PendingDir then Pending else Completed;
      forall u | Valid() && model.Is(u, phase)
        ensures Slot(dir, u) in todo
      {
        assert Ok(Files(dumps, metas, locks, handles), model, u);
      }
      hide PartialListing, Seen, Expected;
      if Valid() {
        NothingListed(model, phase, todo);
      }
      while todo != {}
        invariant locks == old(locks)
        invariant forall slot :: slot in todo ==> slot in dumps && slot.dir == dir
        invariant old(Valid()) ==> dumps == old(dumps) && metas == old(metas)
        invariant old(Valid()) ==> PartialListing(reports, model, phase, todo)
        decreases todo
      {
        var slot :| slot in todo;
        if old(Valid()) {
          assert Ok(Files(dumps, metas, locks, handles), model, slot.uuid);
          EntryOfReport(Files(dumps, metas, locks, handles), model, slot);
          ListOneMore(reports, model, phase, todo, slot);
        }
        todo := todo - {slot};
        if slot in locks {
          continue;
        }
        if slot !in metas {
          dumps := dumps - {slot};
          continue;
        }
        reports := reports + [ToListed(slot, dumps[slot], metas[slot])];
      }
      if old(Valid()) {
        AllListed(reports, model, phase);
      }
    }

    method GetReportForUploading(u: Uuid) returns (status: Status)
      modifies this`dumps, this`metas, this`locks, this`handles, this`model
      ensures status == NoError ==> u in handles
      ensures old(Valid()) ==> Valid() && (model, status) == Step(old(model), BeginUpload(u))
    {
      ghost var was := Files(dumps, metas, locks, handles);
      var slot, meta;
      status, slot, meta := CheckoutReport(u, [PendingDir]);
      if status != NoError {
        return;
      }
      hide Seen, Expected;
      handles := handles[u := Handle(slot, meta)];
      if old(Valid()) {
        var now := BeginKeepsOk(was, model, u);
        StepKeepsSound(model, BeginUpload(u));
        model := Step(model, BeginUpload(u)).0;
      }
    }

    /** Writes the outcome of an upload from the copy that the handle holds. */
    method RecordUploadAttempt(u: Uuid, handle: Handle, successful: bool, id: Text, now: int) returns (status: Status)
      modifies this`dumps, this`metas, this`locks, this`lastAttempt
      ensures old(Slot(CompletedDir, u) !in locks && handle.slot in dumps) ==>
                var meta := handle.meta.(id := id, uploaded := successful, lastAttempt := now,
                                         attempts := handle.meta.attempts + 1,
                                         requested := !successful && handle.meta.requested);
                var to := if successful then Slot(CompletedDir, u) else handle.slot;
                && status == NoError && lastAttempt == now && locks == old(locks)
                && dumps == (if successful then (old(dumps) - {handle.slot})[to := old(dumps)[handle.slot]] else old(dumps))
                && metas == (if successful then old(metas) - {handle.slot} else old(metas))[to := meta]
    {
      var meta := handle.meta.(id := id, uploaded := successful, lastAttempt := now, attempts := handle.meta.attempts + 1);
      var path := handle.slot;
      if successful {
        meta := meta.(requested := false);
        path := Slot(CompletedDir, u);
        var ok := Acquire(path);
        if !ok {
          return BusyError;
        }
        ok := MoveDump(handle.slot, path);
        if !ok {
          Release(path);
          return FileSystemError;
        }
        var _ := RemoveMeta(handle.slot);
      }
      metas := metas[path := meta];
      if successful {
        Release(path);
      }
      lastAttempt := now;
      status := NoError;
    }

    /** Ends the caller's handle: the attempt is recorded, and then its lock is given up. */
    method RecordUploadComplete(u: Uuid, id: Text, now: int) returns (status: Status)
      requires u in handles
      modifies this
      ensures old(Valid()) && Enabled(old(model), Complete(u, id, now)) ==>
                Valid() && (model, status) == Step(old(model), Complete(u, id, now))
    {
      ghost var was := Files(dumps, metas, locks, handles);
      assert Valid() ==> Ok(was, model, u);
      var handle := handles[u];
      status := RecordUploadAttempt(u, handle, true, id, now);
      handles := handles - {u};
      Release(handle.slot);
      if old(Valid()) {
        StepKeepsSound(model, Complete(u, id, now));
        model := Step(model, Complete(u, id, now)).0;
        CallKeepsOk(was, old(model), Files(dumps, metas, locks, handles), Complete(u, id, now));
      }
    }

    /** Destroys the caller's handle: its lock is given up, and then a failed attempt is recorded. */
    method DropUpload(u: Uuid, now: int)
      requires u in handles
      modifies this
      ensures old(Valid()) && Enabled(old(model), Drop(u, now)) ==>
                Valid() && model == Step(old(model), Drop(u, now)).0
    {
      ghost var was := Files(dumps, metas, locks, handles);
      assert Valid() ==> Ok(was, model, u);
      var handle := handles[u];
      handles := handles - {u};
      Release(handle.slot);
      var _ := RecordUploadAttempt(u, handle, false, [], now);
      if old(Valid()) {
        StepKeepsSound(model, Drop(u, now));
        model := Step(model, Drop(u, now)).0;
        CallKeepsOk(was, old(model), Files(dumps, metas, locks, handles), Drop(u, now));
      }
    }

    /** Writes the metadata of a completed report, moves the dump there and removes the old metadata. */
    method MoveToCompleted(slot: Slot, meta: Metadata) returns (status: Status)
      requires slot.dir == PendingDir
      modifies this`dumps, this`metas, this`locks
      ensures locks == old(locks)
      ensures var completed := Slot(CompletedDir, slot.uuid);
              completed !in locks && slot in old(dumps) && slot in old(metas) ==>
                && status == NoError
                && dumps == (old(dumps) - {slot})[completed := old(dumps)[slot]]
                && metas == (old(metas) - {slot})[completed := meta]
    {
      var completed := Slot(CompletedDir, slot.uuid);
      var ok := Acquire(completed);
      if !ok {
        return BusyError;
      }
      metas := metas[completed := meta];
      ok := MoveDump(slot, completed);
      status := if ok then NoError else FileSystemError;
      if ok {
        ok := RemoveMeta(slot);
        status := if ok then NoError else DatabaseError;
      }
      Release(completed);
    }

    method SkipReportUpload(u: Uuid) returns (status: Status)
      modifies this`dumps, this`metas, this`locks, this`model
      ensures old(Valid()) ==> Valid() && (model, status) == Step(old(model), Skip(u))
    {
      ghost var was := Files(dumps, metas, locks, handles);
      assert Valid() ==> Ok(was, model, u);
      var slot, meta;
      status, slot, meta := CheckoutReport(u, [PendingDir]);
      if status != NoError {
        return;
      }
      hide Seen, Expected;
      status := MoveToCompleted(slot, meta.(requested := false));
      Release(slot);
      if old(Valid()) && status == NoError {
        StepKeepsSound(model, Skip(u));
        model := Step(model, Skip(u)).0;
        var now := MoveKeepsOk(was, old(model), Skip(u), model.reports[u]);
        RemoveLock(was.locks, slot);
      }
    }

    /** Moves the dump, writes the metadata of a pending report and removes the old metadata. */
    method MoveToPending(slot: Slot, meta: Metadata) returns (status: Status)
      modifies this`dumps, this`metas
      ensures var pending := Slot(PendingDir, slot.uuid);
              slot in old(dumps) && slot in old(metas) ==>
                && status == NoError
                && dumps == (old(dumps) - {slot})[pending := old(dumps)[slot]]
                && metas == (old(metas) - {slot})[pending := meta]
    {
      var pending := Slot(PendingDir, slot.uuid);
      var ok := MoveDump(slot, pending);
      if !ok {
        return FileSystemError;
      }
      metas := metas[pending := meta];
      if pending != slot {
        ok := RemoveMeta(slot);
      }
      MoveEntry(old(metas), slot, pending, meta);
      status := if ok then NoError else DatabaseError;
    }

    method RequestUpload(u: Uuid) returns (status: Status)
      modifies this`dumps, this`metas, this`locks, this`model
      ensures old(Valid()) ==> Valid() && (model, status) == Step(old(model), Lifecycle.RequestUpload(u))
    {
      ghost var was := Files(dumps, metas, locks, handles);
      var slot, meta;
      status, slot, meta := CheckoutReport(u, [PendingDir, CompletedDir]);
      if status != NoError {
        return;
      }
      hide Seen, Expected;
      RemoveLock(was.locks, slot);
      if meta.uploaded {
        Release(slot);
        return CannotRequestUpload;
      }
      status := MoveToPending(slot, meta.(requested := true));
      Release(slot);
      if old(Valid()) && status == NoError {
        StepKeepsSound(model, Lifecycle.RequestUpload(u));
        model := Step(model, Lifecycle.RequestUpload(u)).0;
        var now := MoveKeepsOk(was, old(model), Lifecycle.RequestUpload(u), model.reports[u]);
      }
    }

    method DeleteReport(u: Uuid) returns (status: Status)
      modifies this`dumps, this`metas, this`locks, this`model
      ensures old(Valid()) ==> Valid() && (model, status) == Step(old(model), Delete(u))
    {
      ghost var was := Files(dumps, metas, locks, handles);
      var slot;
      status, slot := LocateAndLock(u, [PendingDir, CompletedDir]);
      if old(Valid()) {
        LocatedReport(was, model, u, [PendingDir, CompletedDir], status, slot);
      }
      hide Seen, Expected;
      if status != NoError {
        return;
      }
      dumps := dumps - {slot};
      var ok := RemoveMeta(slot);
      Release(slot);
      RemoveLock(was.locks, slot);
      if !ok {
        return DatabaseError;
      }
      if old(Valid()) {
        DeleteKeepsOk(was, model, u, slot);
        StepKeepsSound(model, Delete(u));
        model := Step(model, Delete(u)).0;
      }
    }
  }
}
