/** The Windows database: all dumps in one directory, and one record per report in a metadata file
    that each call locks, reads, changes and writes. The records here are what the file holds between
    calls; FileKeepsRecords ties them to its bytes. A file that is open cannot be deleted. */
module WinDatabase {
  import opened Bytes
  import opened Lifecycle
  import opened Runs
  import opened WinLifecycle
  import MetadataFile

  datatype Record = Record(uuid: Uuid, creation: int, lastAttempt: int, attempts: int, state: Phase,
                           uploaded: bool, requested: bool, id: Text)

  function RecordOf(u: Uuid, r: Report): Record {
    Record(u, r.creation, r.lastAttempt, r.attempts, r.phase, r.uploaded, r.requested, r.id)
  }

  function ToListed(r: Record, size: nat): Listed {
    Listed(r.uuid, ReportsFolder, size, r.creation, r.attempts, r.lastAttempt, r.uploaded, r.requested, r.id)
  }

  /** The position of the first record of a report. */
  function IndexOf(reports: seq<Record>, u: Uuid): (i: nat)
    ensures i <= |reports|
    ensures i < |reports| ==> reports[i].uuid == u
    ensures forall j :: 0 <= j < i ==> reports[j].uuid != u
  {
    if reports == [] || reports[0].uuid == u then 0 else 1 + IndexOf(reports[1..], u)
  }

  function Find(reports: seq<Record>, u: Uuid): Option<Record> {
    var i := IndexOf(reports, u);
    if i < |reports| then Some(reports[i]) else None
  }

  predicate Distinct(reports: seq<Record>) {
    forall i, j :: 0 <= i < j < |reports| ==> reports[i].uuid != reports[j].uuid
  }

  lemma {:induction false} FindIsUnique(reports: seq<Record>, i: nat)
    requires Distinct(reports) && i < |reports|
    ensures Find(reports, reports[i].uuid) == Some(reports[i])
  {
    assert IndexOf(reports, reports[i].uuid) == i;
  }

  lemma {:induction false} FindAppended(reports: seq<Record>, r: Record)
    requires Distinct(reports) && Find(reports, r.uuid).None?
    ensures Distinct(reports + [r])
    ensures forall u: Uuid :: Find(reports + [r], u) == if u == r.uuid then Some(r) else Find(reports, u)
  {
    var now := reports + [r];
    forall u: Uuid
      ensures Find(now, u) == if u == r.uuid then Some(r) else Find(reports, u)
    {
      var k := if u == r.uuid then |reports| else IndexOf(reports, u);
      if k < |now| && (u == r.uuid || k < |reports|) {
        FindIsUnique(now, k);
      }
    }
  }

  lemma {:induction false} FindUpdated(reports: seq<Record>, i: nat, r: Record)
    requires Distinct(reports) && i < |reports| && r.uuid == reports[i].uuid
    ensures Distinct(reports[i := r])
    ensures forall u: Uuid :: Find(reports[i := r], u) == if u == r.uuid then Some(r) else Find(reports, u)
  {
    var now := reports[i := r];
    forall u: Uuid
      ensures Find(now, u) == if u == r.uuid then Some(r) else Find(reports, u)
    {
      var k := IndexOf(reports, u);
      if k < |reports| {
        FindIsUnique(now, k);
      }
    }
  }

  lemma {:induction false} FindRemoved(reports: seq<Record>, i: nat)
    requires Distinct(reports) && i < |reports|
    ensures Distinct(reports[..i] + reports[i + 1..])
    ensures forall u: Uuid :: Find(reports[..i] + reports[i + 1..], u)
              == if u == reports[i].uuid then None else Find(reports, u)
  {
    var now := reports[..i] + reports[i + 1..];
    forall u: Uuid
      ensures Find(now, u) == if u == reports[i].uuid then None else Find(reports, u)
    {
      var k := IndexOf(reports, u);
      if k < |reports| && k != i {
        FindIsUnique(now, if k < i then k else k - 1);
      }
    }
  }

  /** The records, the dumps, and the outstanding uploads with their copy of the request flag. */
  datatype Store = Store(reports: seq<Record>, dumps: map<Uuid, nat>, handles: map<Uuid, bool>)

  function Get<T>(m: map<Uuid, T>, u: Uuid): Option<T> {
    if u in m then Some(m[u]) else None
  }

  /** What there is of one report. */
  datatype View = View(record: Option<Record>, dump: Option<nat>, handle: Option<bool>)

  function Seen(s: Store, u: Uuid): View {
    View(Find(s.reports, u), Get(s.dumps, u), Get(s.handles, u))
  }

  /** One record and one dump per report, one dump per draft and per orphan, one handle per upload. */
  function Expected(w: WinDb, u: Uuid): View {
    if u in w.db.reports then
      var r := w.db.reports[u];
      View(Some(RecordOf(u, r)), Some(r.size), if r.phase == Uploading then Some(r.requested) else None)
    else if u in w.db.drafts then View(None, Some(w.db.drafts[u]), None)
    else View(None, Get(w.orphans, u), Get(w.stale, u))
  }

  ghost predicate Ok(s: Store, w: WinDb, u: Uuid) {
    Seen(s, u) == Expected(w, u)
  }

  /** A call concerns one report. */
  lemma OthersExpectTheSame(w: WinDb, c: Call)
    requires WinEnabled(w, c)
    ensures forall v: Uuid :: v != c.u ==> Expected(WinStep(w, c).0, v) == Expected(w, v)
  {
  }

  ghost predicate SameElsewhere(s: Store, s': Store, u: Uuid) {
    forall v: Uuid :: v != u ==> Seen(s', v) == Seen(s, v)
  }

  /** A call that leaves the other reports as they were, and its own as it should. */
  lemma CallKeepsOk(s: Store, w: WinDb, s': Store, c: Call)
    requires WinEnabled(w, c) && forall v: Uuid :: Ok(s, w, v)
    requires SameElsewhere(s, s', c.u) && Ok(s', WinStep(w, c).0, c.u)
    ensures forall v: Uuid :: Ok(s', WinStep(w, c).0, v)
  {
    OthersExpectTheSame(w, c);
    hide Seen, Expected, WinStep;
    forall v: Uuid | v != c.u
      ensures Ok(s', WinStep(w, c).0, v)
    {
      assert Ok(s, w, v);
    }
  }

  lemma AppendElsewhere(s: Store, r: Record)
    requires Distinct(s.reports) && Find(s.reports, r.uuid).None?
    ensures Distinct(s.reports + [r]) && SameElsewhere(s, s.(reports := s.reports + [r]), r.uuid)
    ensures Find(s.reports + [r], r.uuid) == Some(r)
  {
    FindAppended(s.reports, r);
    hide Find, Distinct;
  }

  lemma UpdateElsewhere(s: Store, i: nat, r: Record, handles: map<Uuid, bool>)
    requires Distinct(s.reports) && i < |s.reports| && s.reports[i].uuid == r.uuid
    requires handles - {r.uuid} == s.handles - {r.uuid}
    ensures Distinct(s.reports[i := r])
    ensures SameElsewhere(s, Store(s.reports[i := r], s.dumps, handles), r.uuid)
    ensures Find(s.reports[i := r], r.uuid) == Some(r)
  {
    FindUpdated(s.reports, i, r);
    FindIsUnique(s.reports[i := r], i);
    SameWithout(s.handles, handles, r.uuid);
    hide Find, Distinct, Get;
  }

  lemma RemoveElsewhere(s: Store, i: nat, dumps: map<Uuid, nat>)
    requires Distinct(s.reports) && i < |s.reports|
    requires dumps - {s.reports[i].uuid} == s.dumps - {s.reports[i].uuid}
    ensures var reports, u := s.reports[..i] + s.reports[i + 1..], s.reports[i].uuid;
            Distinct(reports) && SameElsewhere(s, Store(reports, dumps, s.handles), u) && Find(reports, u) == None
  {
    FindRemoved(s.reports, i);
    hide Find, Distinct;
    SameWithout(s.dumps, dumps, s.reports[i].uuid);
  }

  lemma SameWithout<T>(a: map<Uuid, T>, b: map<Uuid, T>, u: Uuid)
    requires a - {u} == b - {u}
    ensures forall v: Uuid :: v != u ==> Get(a, v) == Get(b, v)
  {
    forall v: Uuid | v != u
      ensures Get(a, v) == Get(b, v)
    {
      assert Get(a, v) == Get(a - {u}, v) && Get(b, v) == Get(b - {u}, v);
    }
  }

  /** The reports in a state whose dump exists, in the order of their records. */
  function Filtered(reports: seq<Record>, dumps: map<Uuid, nat>, state: Phase): seq<Listed> {
    if reports == [] then []
    else
      var before, r := Filtered(Before(reports), dumps, state), Last(reports);
      if r.state == state && r.uuid in dumps then before + [ToListed(r, dumps[r.uuid])] else before
  }

  lemma {:induction false} FilteredHas(reports: seq<Record>, dumps: map<Uuid, nat>, state: Phase, x: Listed)
    ensures x in Filtered(reports, dumps, state) <==>
            exists i :: 0 <= i < |reports| && reports[i].state == state && reports[i].uuid in dumps
                        && x == ToListed(reports[i], dumps[reports[i].uuid])
  {
    if reports != [] {
      var before, r := Before(reports), Last(reports);
      FilteredHas(before, dumps, state, x);
      assert forall i :: 0 <= i < |before| ==> reports[i] == before[i];
      assert reports[|before|] == r;
    }
  }

  lemma {:induction false} FilteredIsDistinct(reports: seq<Record>, dumps: map<Uuid, nat>, state: Phase)
    requires Distinct(reports)
    ensures var found := Filtered(reports, dumps, state);
            forall i, j :: 0 <= i < j < |found| ==> found[i].uuid != found[j].uuid
  {
    if reports != [] {
      FilteredIsDistinct(Before(reports), dumps, state);
      var before, r := Filtered(Before(reports), dumps, state), Last(reports);
      forall i | 0 <= i < |before|
        ensures before[i].uuid != r.uuid
      {
        FilteredHas(Before(reports), dumps, state, before[i]);
      }
    }
  }

  lemma FilteredIsListing(s: Store, w: WinDb, state: Phase)
    requires Distinct(s.reports) && forall u: Uuid :: Ok(s, w, u)
    ensures IsListing(Filtered(s.reports, s.dumps, state), w.db, state, AllInOne)
  {
    var found := Filtered(s.reports, s.dumps, state);
    FilteredIsDistinct(s.reports, s.dumps, state);
    forall k | 0 <= k < |found|
      ensures w.db.Is(found[k].uuid, state) && found[k] == Listing(w.db, found[k].uuid, AllInOne)
    {
      OnlyInState(s, w, state, found[k]);
    }
    forall u | u in w.db.reports && w.db.reports[u].phase == state
      ensures Listing(w.db, u, AllInOne) in found
    {
      AllInState(s, w, state, u);
    }
  }

  lemma OnlyInState(s: Store, w: WinDb, state: Phase, x: Listed)
    requires Distinct(s.reports) && Ok(s, w, x.uuid) && x in Filtered(s.reports, s.dumps, state)
    ensures w.db.Is(x.uuid, state) && x == Listing(w.db, x.uuid, AllInOne)
  {
    FilteredHas(s.reports, s.dumps, state, x);
    var i :| 0 <= i < |s.reports| && s.reports[i].state == state && s.reports[i].uuid in s.dumps
             && x == ToListed(s.reports[i], s.dumps[s.reports[i].uuid]);
    FindIsUnique(s.reports, i);
  }

  lemma AllInState(s: Store, w: WinDb, state: Phase, u: Uuid)
    requires Ok(s, w, u) && w.db.Is(u, state)
    ensures Listing(w.db, u, AllInOne) in Filtered(s.reports, s.dumps, state)
  {
    FilteredHas(s.reports, s.dumps, state, Listing(w.db, u, AllInOne));
    assert s.reports[IndexOf(s.reports, u)] == RecordOf(u, w.db.reports[u]);
  }

  class Database {
    var reports: seq<Record>
    var dumps: map<Uuid, nat>
    var handles: map<Uuid, bool>
    var lastAttempt: int  // kept in the settings file
    ghost var model: WinDb

    ghost predicate Valid()
      reads this
    {
      && lastAttempt == model.db.lastAttempt
      && model.Sound()
      && Distinct(reports)
      && forall u: Uuid :: Ok(Store(reports, dumps, handles), model, u)
    }

    constructor ()
      ensures Valid() && model == WinEmpty
    {
      reports, dumps, handles := [], map[], map[];
      lastAttempt := 0;
      model := WinEmpty;
    }

    method FindUuid(u: Uuid) returns (i: nat)
      ensures i == IndexOf(reports, u)
    {
      i := 0;
      while i < |reports| && reports[i].uuid != u
        invariant i <= |reports| && IndexOf(reports, u) == i + IndexOf(reports[i..], u)
      {
        assert reports[i..][1..] == reports[i + 1..];
        i := i + 1;
      }
    }

    /** Finds a report whose dump exists and that is in the desired state; says busy if it is
        uploading instead. */
    method FindSingleReport(u: Uuid, desired: Phase) returns (status: Status, i: nat)
      ensures i == IndexOf(reports, u)
      ensures status == if i == |reports| then ReportNotFound
                        else if reports[i].state == desired then (if u in dumps then NoError else ReportNotFound)
                        else if reports[i].state == Uploading then BusyError
                        else ReportNotFound
    {
      i := FindUuid(u);
      if i == |reports| {
        return ReportNotFound, i;
      }
      if reports[i].state == desired {
        status := if u in dumps then NoError else ReportNotFound;
      } else {
        status := if reports[i].state == Uploading then BusyError else ReportNotFound;
      }
    }

    method PrepareNewCrashReport(u: Uuid, size: nat) returns (status: Status)
      modifies this`dumps, this`model
      ensures old(Valid()) && WinEnabled(old(model), Prepare(u, size)) ==>
                Valid() && (model, status) == WinStep(old(model), Prepare(u, size))
    {
      ghost var was := Store(reports, dumps, handles);
      assert Valid() ==> Ok(was, model, u);
      if u in dumps {
        return FileSystemError;
      }
      dumps := dumps[u := size];
      status := NoError;
      if old(Valid()) && WinEnabled(model, Prepare(u, size)) {
        WinStepKeepsSound(model, Prepare(u, size));
        model := WinStep(model, Prepare(u, size)).0;
        CallKeepsOk(was, old(model), Store(reports, dumps, handles), Prepare(u, size));
      }
    }

    method FinishedWritingCrashReport(u: Uuid, now: int) returns (status: Status)
      modifies this`reports, this`model
      ensures old(Valid()) && WinEnabled(old(model), Finish(u, now)) ==>
                Valid() && (model, status) == WinStep(old(model), Finish(u, now))
    {
      ghost var was := Store(reports, dumps, handles);
      assert Valid() ==> Ok(was, model, u);
      var r := Record(u, now, 0, 0, Pending, false, false, []);
      reports := reports + [r];
      status := NoError;
      if old(Valid()) && WinEnabled(model, Finish(u, now)) {
        AppendElsewhere(was, r);
        WinStepKeepsSound(model, Finish(u, now));
        model := WinStep(model, Finish(u, now)).0;
        CallKeepsOk(was, old(model), Store(reports, dumps, handles), Finish(u, now));
      }
    }

    /** Unlike the other database, this one also finds reports that are being uploaded. */
    method LookUpCrashReport(u: Uuid) returns (status: Status, report: Option<Listed>)
      ensures Valid() ==>
                && status == WinStep(model, LookUp(u)).1
                && report == if status == NoError then Some(Listing(model.db, u, AllInOne)) else None
    {
      assert Valid() ==> Ok(Store(reports, dumps, handles), model, u);
      var i := FindUuid(u);
      if i == |reports| || u !in dumps {
        return ReportNotFound, None;
      }
      return NoError, Some(ToListed(reports[i], dumps[u]));
    }

    method FindReports(desired: Phase) returns (found: seq<Listed>)
      ensures Valid() ==> IsListing(found, model.db, desired, AllInOne)
    {
      found := [];
      for i := 0 to |reports|
        invariant found == Filtered(reports[..i], dumps, desired)
      {
        var r := reports[i];
        assert Before(reports[..i + 1]) == reports[..i];
        if r.state == desired && r.uuid in dumps {
          found := found + [ToListed(r, dumps[r.uuid])];
        }
      }
      assert reports[..|reports|] == reports;
      if Valid() {
        FilteredIsListing(Store(reports, dumps, handles), model, desired);
      }
    }

    method GetReportForUploading(u: Uuid) returns (status: Status)
      modifies this`reports, this`handles, this`model
      ensures old(Valid()) ==> Valid() && (model, status) == WinStep(old(model), BeginUpload(u))
    {
      ghost var was := Store(reports, dumps, handles);
      assert Valid() ==> Ok(was, model, u);
      var i;
      status, i := FindSingleReport(u, Pending);
      if status != NoError {
        return;
      }
      reports := reports[i := reports[i].(state := Uploading)];
      handles := handles[u := reports[i].requested];
      assert handles - {u} == was.handles - {u};
      if old(Valid()) {
        WinStepKeepsSound(model, BeginUpload(u));
        model := WinStep(model, BeginUpload(u)).0;
        UpdateElsewhere(was, i, reports[i], handles);
        CallKeepsOk(was, old(model), Store(reports, dumps, handles), BeginUpload(u));
      }
    }

    /** A failed attempt restores the request flag from the handle's copy. The identifier, which is
        whatever the server answered, goes through the file. */
    method RecordUploadAttempt(u: Uuid, requested: bool, successful: bool, id: Text, now: int) returns (status: Status)
      modifies this`reports, this`lastAttempt
      ensures var i := IndexOf(old(reports), u);
              if i < |old(reports)| && old(reports)[i].state == Uploading && u in dumps then
                && status == NoError && lastAttempt == now
                && reports == old(reports)[i := old(reports)[i].(
                     uploaded := successful, id := MetadataFile.CString(id), lastAttempt := now,
                     attempts := old(reports)[i].attempts + 1,
                     state := if successful then Completed else Pending, requested := !successful && requested)]
              else
                status == ReportNotFound && lastAttempt == old(lastAttempt) && reports == old(reports)
    {
      var i;
      status, i := FindSingleReport(u, Uploading);
      if status != NoError {
        return;
      }
      var r := reports[i].(uploaded := successful, id := MetadataFile.CString(id), lastAttempt := now,
                           attempts := reports[i].attempts + 1);
      if successful {
        r := r.(state := Completed, requested := false);
      } else {
        r := r.(state := Pending, requested := requested);
      }
      reports := reports[i := r];
      lastAttempt := now;
    }

    method RecordUploadComplete(u: Uuid, id: Text, now: int) returns (status: Status)
      requires u in handles
      modifies this
      ensures old(Valid()) && WinEnabled(old(model), Complete(u, id, now)) ==>
                Valid() && (model, status) == WinStep(old(model), Complete(u, id, now))
    {
      ghost var was := Store(reports, dumps, handles);
      assert Valid() ==> Ok(was, model, u);
      status := RecordUploadAttempt(u, handles[u], true, id, now);
      handles := handles - {u};
      if old(Valid()) && WinEnabled(model, Complete(u, id, now)) {
        WinStepKeepsSound(model, Complete(u, id, now));
        model := WinStep(model, Complete(u, id, now)).0;
        if u in old(model).stale {
          SameWithout(was.handles, handles, u);
        } else {
          ghost var i := IndexOf(was.reports, u);
          UpdateElsewhere(was, i, reports[i], handles);
        }
        CallKeepsOk(was, old(model), Store(reports, dumps, handles), Complete(u, id, now));
      }
    }

    method DropUpload(u: Uuid, now: int)
      requires u in handles
      modifies this
      ensures old(Valid()) && WinEnabled(old(model), Drop(u, now)) ==>
                Valid() && model == WinStep(old(model), Drop(u, now)).0
    {
      ghost var was := Store(reports, dumps, handles);
      assert Valid() ==> Ok(was, model, u);
      var _ := RecordUploadAttempt(u, handles[u], false, [], now);
      handles := handles - {u};
      if old(Valid()) && WinEnabled(model, Drop(u, now)) {
        WinStepKeepsSound(model, Drop(u, now));
        model := WinStep(model, Drop(u, now)).0;
        if u in old(model).stale {
          SameWithout(was.handles, handles, u);
        } else {
          ghost var i := IndexOf(was.reports, u);
          UpdateElsewhere(was, i, reports[i], handles);
        }
        CallKeepsOk(was, old(model), Store(reports, dumps, handles), Drop(u, now));
      }
    }

    method SkipReportUpload(u: Uuid) returns (status: Status)
      modifies this`reports, this`model
      ensures old(Valid()) ==> Valid() && (model, status) == WinStep(old(model), Skip(u))
    {
      ghost var was := Store(reports, dumps, handles);
      assert Valid() ==> Ok(was, model, u);
      var i;
      status, i := FindSingleReport(u, Pending);
      if status != NoError {
        return;
      }
      reports := reports[i := reports[i].(state := Completed, requested := false)];
      if old(Valid()) {
        WinStepKeepsSound(model, Skip(u));
        model := WinStep(model, Skip(u)).0;
        UpdateElsewhere(was, i, reports[i], handles);
        CallKeepsOk(was, old(model), Store(reports, dumps, handles), Skip(u));
      }
    }

    method RequestUpload(u: Uuid) returns (status: Status)
      modifies this`reports, this`model
      ensures old(Valid()) ==> Valid() && (model, status) == WinStep(old(model), Lifecycle.RequestUpload(u))
    {
      ghost var was := Store(reports, dumps, handles);
      assert Valid() ==> Ok(was, model, u);
      var i;
      status, i := FindSingleReport(u, Completed);
      if status == ReportNotFound {
        status, i := FindSingleReport(u, Pending);
      }
      if status != NoError {
        return;
      }
      if reports[i].uploaded {
        return CannotRequestUpload;
      }
      reports := reports[i := reports[i].(state := Pending, requested := true)];
      if old(Valid()) {
        WinStepKeepsSound(model, Lifecycle.RequestUpload(u));
        model := WinStep(model, Lifecycle.RequestUpload(u)).0;
        UpdateElsewhere(was, i, reports[i], handles);
        CallKeepsOk(was, old(model), Store(reports, dumps, handles), Lifecycle.RequestUpload(u));
      }
    }

    /** Unlike the other database, this one deletes the record of a report even while it is being
        uploaded, and then fails to delete the dump, which the upload handle keeps open. */
    method DeleteReport(u: Uuid) returns (status: Status)
      modifies this`reports, this`dumps, this`model
      ensures old(Valid()) ==> Valid() && (model, status) == WinStep(old(model), Delete(u))
    {
      ghost var was := Store(reports, dumps, handles);
      assert Valid() ==> Ok(was, model, u);
      var i := FindUuid(u);
      if i == |reports| {
        return ReportNotFound;
      }
      reports := reports[..i] + reports[i + 1..];
      if u in dumps && u !in handles {
        dumps := dumps - {u};
        status := NoError;
      } else {
        status := FileSystemError;
      }
      if old(Valid()) {
        WinStepKeepsSound(model, Delete(u));
        model := WinStep(model, Delete(u)).0;
        RemoveElsewhere(was, i, dumps);
        CallKeepsOk(was, old(model), Store(reports, dumps, handles), Delete(u));
      }
    }
  }

  // The records in the metadata file

  /** The numbers of a record are within the widths of the file. */
  predicate InRange(r: Record) {
    && r.uuid < Pow256(16)
    && -0x8000_0000_0000_0000 <= r.creation < 0x8000_0000_0000_0000
    && -0x8000_0000_0000_0000 <= r.lastAttempt < 0x8000_0000_0000_0000
    && -0x8000_0000 <= r.attempts < 0x8000_0000
  }

  function StateNumber(phase: Phase): MetadataFile.Int32 {
    match phase
    case Pending => 0
    case Uploading => 1
    case Completed => 2
  }

  /** A record as a call writes it; name gives the file name of a report's dump. */
  function ToDisk(r: Record, dir: Text, name: Uuid -> Text): MetadataFile.ReportDisk
    requires InRange(r)
  {
    MetadataFile.ReportDisk(ToBytes(r.uuid, 16), MetadataFile.FilePath(dir, name(r.uuid)), r.id, r.creation,
                            r.lastAttempt, r.attempts, StateNumber(r.state), r.uploaded, r.requested)
  }

  /** A record as the next call reads it. */
  function FromDisk(d: MetadataFile.ReportDisk): Record {
    Record(FromBytes(d.uuid), d.creation, d.lastAttempt, d.attempts,
           if d.state == 0 then Pending else if d.state == 1 then Uploading else Completed,
           d.uploaded, d.requested, d.id)
  }

  /** The states are numbered from pending over uploading to completed. */
  lemma StatesOnDisk(r: Record, dir: Text, name: Uuid -> Text)
    requires InRange(r)
    ensures ToDisk(r, dir, name).state == (match r.state case Pending => 0 case Uploading => 1 case Completed => 2)
    ensures ToDisk(r, dir, name).path == MetadataFile.FilePath(dir, name(r.uuid))
    ensures forall d: MetadataFile.ReportDisk :: (FromDisk(d).state == Pending <==> d.state == 0)
                                                 && (FromDisk(d).state == Uploading <==> d.state == 1)
  {
  }

  lemma OneRecordKept(r: Record, dir: Text, name: Uuid -> Text)
    requires InRange(r)
    ensures FromDisk(MetadataFile.Truncated(ToDisk(r, dir, name))) == r.(id := MetadataFile.CString(r.id))
  {
    LittleEndianRoundTrip(r.uuid, 16);
  }

  /** What the next call reads are the records that a call wrote, with their identifiers up to the
      first NUL: all of the database, since between calls its identifiers have none. */
  lemma FileKeepsRecords(reports: seq<Record>, dir: Text, name: Uuid -> Text, disk: seq<MetadataFile.ReportDisk>)
      returns (read: seq<MetadataFile.ReportDisk>)
    requires |disk| == |reports| && |reports| * MetadataFile.RECORD_SIZE < TWO_32 && MetadataFile.Fits(disk)
    requires forall i :: 0 <= i < |reports| ==> InRange(reports[i]) && disk[i] == ToDisk(reports[i], dir, name)
    ensures read == MetadataFile.ReadBack(MetadataFile.PrintFile(disk, dir), dir) && |read| == |reports|
    ensures forall i :: 0 <= i < |reports| ==> FromDisk(read[i]) == reports[i].(id := MetadataFile.CString(reports[i].id))
  {
    read := MetadataFile.ReadBack(MetadataFile.PrintFile(disk, dir), dir);
    if disk == [] {
      MetadataFile.RoundTripExactly(disk, dir);
    } else {
      MetadataFile.WholeFileReadsBack(disk, dir);
      forall i | 0 <= i < |reports|
        ensures FromDisk(read[i]) == reports[i].(id := MetadataFile.CString(reports[i].id))
      {
        OneRecordKept(reports[i], dir, name);
      }
    }
  }

  /** The records of a valid database are the same after they went through the file. */
  lemma DatabaseKeptByFile(db: Database, dir: Text, name: Uuid -> Text, disk: seq<MetadataFile.ReportDisk>)
      returns (read: seq<MetadataFile.ReportDisk>)
    requires db.Valid()
    requires |disk| == |db.reports| && |disk| * MetadataFile.RECORD_SIZE < TWO_32 && MetadataFile.Fits(disk)
    requires forall i :: 0 <= i < |disk| ==> InRange(db.reports[i]) && disk[i] == ToDisk(db.reports[i], dir, name)
    ensures read == MetadataFile.ReadBack(MetadataFile.PrintFile(disk, dir), dir) && |read| == |disk|
    ensures forall i :: 0 <= i < |disk| ==> FromDisk(read[i]) == db.reports[i]
  {
    read := FileKeepsRecords(db.reports, dir, name, disk);
    forall i | 0 <= i < |disk|
      ensures MetadataFile.CString(db.reports[i].id) == db.reports[i].id
    {
      FindIsUnique(db.reports, i);
      assert Ok(Store(db.reports, db.dumps, db.handles), db.model, db.reports[i].uuid);
    }
  }
}
