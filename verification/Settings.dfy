/** The settings file, shared by any number of processes under blocking shared and exclusive file
    locks. Opening, locking, reading, truncating, writing and unlocking are separate steps. */
module Settings {
  import opened Bytes
  import opened Runs

  type Process = nat

  /** What a valid file holds: the option bit that enables uploads and the other option bits, the
      time of the last upload attempt, and the client identifier. */
  datatype Data = Data(uploadsEnabled: bool, otherOptions: nat, lastAttempt: int, clientId: nat)

  datatype Content = Missing | Corrupt | Valid(data: Data)

  datatype Op = Initialize | Get | SetUploadsEnabled(enabled: bool) | SetLastUploadAttemptTime(time: int)

  predicate IsSetter(op: Op) {
    op.SetUploadsEnabled? || op.SetLastUploadAttemptTime?
  }

  /** What an operation makes of the settings it has read. */
  function Apply(d: Data, op: Op): Data {
    match op
    case SetUploadsEnabled(enabled) => d.(uploadsEnabled := enabled)
    case SetLastUploadAttemptTime(time) => d.(lastAttempt := time)
    case _ => d
  }

  /** Where a process is within an operation. Under an exclusive lock: Read, Create..., Set..., Done. */
  datatype Pc =
    | Idle
    | OpenExisting(op: Op)  // initializing: a file that is there
    | OpenNew(op: Op)       // initializing: a file that is not
    | OpenAny(op: Op)
    | Lock(op: Op)
    | Read(op: Op)
    | CreateTruncate(op: Op, data: Data)
    | CreateWrite(op: Op, data: Data)
    | CreateRead(op: Op)
    | SetTruncate(op: Op, data: Data)
    | SetWrite(op: Op, data: Data)
    | Done(op: Op, data: Data)
    | Failed(op: Op)        // what was just written does not read back
    | OpenShared(op: Op)
    | LockShared(op: Op)
    | ReadShared(op: Op)
    | DoneShared(op: Op, data: Data)
    | GiveUpShared(op: Op)  // the file was corrupt: unlock, then recover it

  datatype State = State(file: Content, exclusive: Option<Process>, shared: set<Process>,
                         ready: set<Process>, pcs: map<Process, Pc>)
  {
    function At(p: Process): Pc {
      if p in pcs then pcs[p] else Idle
    }

    function Goto(p: Process, pc: Pc): State {
      this.(pcs := pcs[p := pc])
    }
  }

  datatype Step =
    | Start(p: Process, op: Op)
    | Open(p: Process)
    | Acquire(p: Process)
    | DoRead(p: Process, newId: nat)  // newId: the identifier that a recovery would create
    | Truncate(p: Process)
    | Write(p: Process)
    | Release(p: Process)

  predicate Enabled(s: State, e: Step) {
    var pc := s.At(e.p);
    match e
    case Start(p, op) => pc.Idle? && (op.Initialize? <==> p !in s.ready)
    case Open(_) => pc.OpenExisting? || pc.OpenNew? || pc.OpenAny? || pc.OpenShared?
    case Acquire(_) => (pc.Lock? && s.exclusive.None? && s.shared == {}) || (pc.LockShared? && s.exclusive.None?)
    case DoRead(_, _) => pc.Read? || pc.CreateRead? || pc.ReadShared?
    case Truncate(_) => pc.CreateTruncate? || pc.SetTruncate?
    case Write(_) => pc.CreateWrite? || pc.SetWrite?
    case Release(_) => pc.Done? || pc.Failed? || pc.DoneShared? || pc.GiveUpShared?
  }

  /** With the settings at hand, a setter goes on to write them, anything else is done. */
  function HaveData(op: Op, d: Data): Pc {
    if IsSetter(op) then SetTruncate(op, Apply(d, op)) else Done(op, d)
  }

  function Do(s: State, e: Step): State
    requires Enabled(s, e)
  {
    var p, pc := e.p, s.At(e.p);
    match e
    case Start(_, op) => s.Goto(p, if op.Initialize? then OpenExisting(op) else if op.Get? then OpenShared(op) else OpenAny(op))
    case Open(_) =>
      (match pc
       case OpenExisting(op) => s.Goto(p, if s.file.Missing? then OpenNew(op) else Lock(op))
       case OpenNew(op) => if s.file.Missing? then s.Goto(p, Lock(op)).(file := Corrupt) else s.Goto(p, OpenAny(op))
       case OpenAny(op) => s.Goto(p, Lock(op)).(file := if s.file.Missing? then Corrupt else s.file)
       case OpenShared(op) => s.Goto(p, if s.file.Missing? then Idle else LockShared(op)))
    case Acquire(_) =>
      if pc.Lock? then s.Goto(p, Read(pc.op)).(exclusive := Some(p))
      else s.Goto(p, ReadShared(pc.op)).(shared := s.shared + {p})
    case DoRead(_, newId) =>
      if pc.ReadShared? then s.Goto(p, if s.file.Valid? then DoneShared(pc.op, s.file.data) else GiveUpShared(pc.op))
      else if s.file.Valid? then s.Goto(p, HaveData(pc.op, s.file.data))
      else s.Goto(p, if pc.Read? then CreateTruncate(pc.op, Data(false, 0, 0, newId)) else Failed(pc.op))
    case Truncate(_) =>
      s.Goto(p, if pc.CreateTruncate? then CreateWrite(pc.op, pc.data) else SetWrite(pc.op, pc.data)).(file := Corrupt)
    case Write(_) =>
      s.Goto(p, if pc.CreateWrite? then CreateRead(pc.op) else Done(pc.op, pc.data)).(file := Valid(pc.data))
    case Release(_) =>
      if pc.Done? || pc.Failed? then
        s.Goto(p, Idle).(exclusive := None, ready := if pc.Done? && pc.op.Initialize? then s.ready + {p} else s.ready)
      else s.Goto(p, if pc.DoneShared? then Idle else OpenAny(pc.op)).(shared := s.shared - {p})
  }

  predicate Legal(file: Content, run: seq<Step>)
    decreases |run|, 0
  {
    run == [] || (Legal(file, Before(run)) && Enabled(After(file, Before(run)), Last(run)))
  }

  /** The state after a run that began with the given file and no process at work. */
  function After(file: Content, run: seq<Step>): State
    requires Legal(file, run)
    decreases |run|, 1
  {
    if run == [] then State(file, None, {}, {}, map[]) else Do(After(file, Before(run)), Last(run))
  }

  /** What a step makes of what stands. */
  function StandsAfter(s: State, e: Step, d: Option<Data>): Option<Data> {
    var pc := s.At(e.p);
    if !e.Write? then d
    else if pc.CreateWrite? then Some(pc.data)
    else if pc.SetWrite? && d.Some? then Some(Apply(d.value, pc.op))
    else d
  }

  /** The settings as they stand: those first found or created, with the setters' updates applied
      in the order in which they were written. None while no process has found or created any. */
  function Standing(file: Content, run: seq<Step>): Option<Data>
    requires Legal(file, run)
  {
    if run == [] then (if file.Valid? then Some(file.data) else None)
    else StandsAfter(After(file, Before(run)), Last(run), Standing(file, Before(run)))
  }

  // The invariant

  predicate HoldsExclusive(pc: Pc) {
    pc.Read? || pc.CreateTruncate? || pc.CreateWrite? || pc.CreateRead? || pc.SetTruncate? || pc.SetWrite? || pc.Done?
    || pc.Failed?
  }

  predicate HoldsShared(pc: Pc) {
    pc.ReadShared? || pc.DoneShared? || pc.GiveUpShared?
  }

  /** The file says what stands. */
  predicate Agrees(file: Content, d: Option<Data>) {
    match d
    case None => !file.Valid?
    case Some(data) => file == Valid(data)
  }

  /** What a process that holds the lock knows, and how far it is with the file. */
  predicate PcOk(file: Content, d: Option<Data>, pc: Pc) {
    match pc
    case Read(_) => Agrees(file, d)
    case CreateTruncate(_, _) => d.None? && !file.Valid?
    case CreateWrite(_, _) => d.None? && !file.Valid?
    case CreateRead(_) => d.Some? && Agrees(file, d)
    case SetTruncate(op, data) => d.Some? && Agrees(file, d) && data == Apply(d.value, op)
    case SetWrite(op, data) => d.Some? && file == Corrupt && data == Apply(d.value, op)
    case Done(_, data) => d == Some(data) && Agrees(file, d)
    case Failed(_) => false
    case ReadShared(_) => Agrees(file, d)
    case DoneShared(_, data) => d == Some(data)
    case _ => true
  }

  /** Who holds a lock is where one is held; there is one exclusive holder, or any number of shared ones. */
  ghost predicate LocksOk(s: State) {
    && (forall p: Process :: s.exclusive == Some(p) <==> HoldsExclusive(s.At(p)))
    && (forall p: Process :: p in s.shared <==> HoldsShared(s.At(p)))
    && (s.exclusive.Some? ==> s.shared == {})
  }

  ghost predicate Inv(s: State, d: Option<Data>) {
    && LocksOk(s)
    && (s.exclusive.None? ==> Agrees(s.file, d))
    && (d.Some? ==> !s.file.Missing?)
    && forall p: Process :: PcOk(s.file, d, s.At(p))
  }

  lemma {:induction false} LocksKeepInvariant(file: Content, run: seq<Step>)
    requires Legal(file, run)
    ensures Inv(After(file, run), Standing(file, run))
  {
    if run != [] {
      LocksKeepInvariant(file, Before(run));
      StepKeepsInvariant(After(file, Before(run)), Last(run), Standing(file, Before(run)));
    }
  }

  /** What the other processes know stays true: the file is only changed where none of them can
      have it locked, or to create it empty. */
  lemma OthersKeepOk(s: State, d: Option<Data>, file: Content, d': Option<Data>, p: Process)
    requires Inv(s, d)
    requires s.exclusive == Some(p) || (d' == d && (file == s.file || (s.file.Missing? && file.Corrupt?)))
    ensures forall q: Process :: q != p ==> PcOk(file, d', s.At(q))
  {
    forall q: Process | q != p
      ensures PcOk(file, d', s.At(q))
    {
      assert PcOk(s.file, d, s.At(q));
      assert s.exclusive == Some(q) <==> HoldsExclusive(s.At(q));
      assert q in s.shared <==> HoldsShared(s.At(q));
    }
  }

  lemma StepKeepsLocks(s: State, e: Step)
    requires LocksOk(s) && Enabled(s, e)
    ensures LocksOk(Do(s, e))
  {
    hide Apply;
    var s' := Do(s, e);
    assert forall q: Process :: q != e.p ==> s'.At(q) == s.At(q);
    assert s.exclusive == Some(e.p) <==> HoldsExclusive(s.At(e.p));
    assert e.p in s.shared <==> HoldsShared(s.At(e.p));
  }

  /** The process that takes a step knows what is right afterwards, and so does a file without holder. */
  lemma StepKeepsKnowledge(s: State, e: Step, d: Option<Data>)
    requires Inv(s, d) && Enabled(s, e)
    ensures var s', d' := Do(s, e), StandsAfter(s, e, d);
            && PcOk(s'.file, d', s'.At(e.p))
            && (s'.exclusive.None? ==> Agrees(s'.file, d'))
            && (d'.Some? ==> !s'.file.Missing?)
            && (s.exclusive == Some(e.p) || (d' == d && (s'.file == s.file || (s.file.Missing? && s'.file.Corrupt?))))
  {
    hide Apply;
    assert PcOk(s.file, d, s.At(e.p));
    assert s.exclusive == Some(e.p) <==> HoldsExclusive(s.At(e.p));
    assert e.p in s.shared <==> HoldsShared(s.At(e.p));
  }

  lemma StepKeepsInvariant(s: State, e: Step, d: Option<Data>)
    requires Inv(s, d) && Enabled(s, e)
    ensures Inv(Do(s, e), StandsAfter(s, e, d))
  {
    var s' := Do(s, e);
    assert forall q: Process :: q != e.p ==> s'.At(q) == s.At(q);
    StepKeepsLocks(s, e);
    StepKeepsKnowledge(s, e, d);
    OthersKeepOk(s, d, s'.file, StandsAfter(s, e, d), e.p);
    hide LocksOk, PcOk, Do, Enabled, StandsAfter;
  }

  // One identifier

  lemma StandingStep(file: Content, run: seq<Step>)
    requires run != [] && Legal(file, run)
    ensures Standing(file, Before(run)).Some? ==>
              Standing(file, run).Some? && Standing(file, run).value.clientId == Standing(file, Before(run)).value.clientId
  {
    LocksKeepInvariant(file, Before(run));
    assert PcOk(After(file, Before(run)).file, Standing(file, Before(run)), After(file, Before(run)).At(Last(run).p));
  }

  /** Once there are settings, there always are, and their client identifier never changes. */
  lemma {:induction false} ClientIdNeverChanges(file: Content, run: seq<Step>, more: seq<Step>)
    requires Legal(file, run + more)
    ensures Legal(file, run)
    ensures Standing(file, run).Some? ==>
              Standing(file, run + more).Some?
              && Standing(file, run + more).value.clientId == Standing(file, run).value.clientId
    decreases |more|
  {
    if more == [] {
      assert run + more == run;
    } else {
      assert Before(run + more) == run + Before(more);
      ClientIdNeverChanges(file, run, Before(more));
      StandingStep(file, run + more);
    }
  }

  /** The settings that a process is about to return from its operation. */
  function Returning(s: State, p: Process): Option<Data> {
    var pc := s.At(p);
    if pc.Done? || pc.DoneShared? then Some(pc.data) else None
  }

  /** A file that can be read without the exclusive lock being held says what stands, an operation
      returns what stands, and so all operations ever return one and the same client identifier. */
  lemma ReturnsAgree(file: Content, run: seq<Step>, p: Process, more: seq<Step>, q: Process)
    requires Legal(file, run + more)
    ensures Legal(file, run)
    ensures After(file, run).exclusive.None? ==> Agrees(After(file, run).file, Standing(file, run))
    ensures Returning(After(file, run), p).Some? ==> Returning(After(file, run), p) == Standing(file, run)
    ensures Returning(After(file, run), p).Some? && Returning(After(file, run + more), q).Some? ==>
              Returning(After(file, run), p).value.clientId == Returning(After(file, run + more), q).value.clientId
  {
    ClientIdNeverChanges(file, run, more);
    LocksKeepInvariant(file, run);
    LocksKeepInvariant(file, run + more);
    assert PcOk(After(file, run).file, Standing(file, run), After(file, run).At(p));
    assert PcOk(After(file, run + more).file, Standing(file, run + more), After(file, run + more).At(q));
  }

  /** What was just created always reads back: no operation that has the lock fails. */
  lemma RecoveryNeverFails(file: Content, run: seq<Step>, p: Process)
    requires Legal(file, run)
    ensures !After(file, run).At(p).Failed?
  {
    LocksKeepInvariant(file, run);
    assert PcOk(After(file, run).file, Standing(file, run), After(file, run).At(p));
  }

  // No lost updates

  /** The setters that wrote, in order. */
  function Updates(file: Content, run: seq<Step>): seq<Op>
    requires Legal(file, run)
  {
    if run == [] then []
    else
      var pc := After(file, Before(run)).At(Last(run).p);
      Updates(file, Before(run)) + if Last(run).Write? && pc.SetWrite? then [pc.op] else []
  }

  /** The settings that were there first, or were created by a recovery. */
  function Base(file: Content, run: seq<Step>): Option<Data>
    requires Legal(file, run)
  {
    if run == [] then (if file.Valid? then Some(file.data) else None)
    else
      var pc := After(file, Before(run)).At(Last(run).p);
      if Last(run).Write? && pc.CreateWrite? then Some(pc.data) else Base(file, Before(run))
  }

  /** The value of the last setter of its kind. */
  function LastTime(ops: seq<Op>, otherwise: int): int {
    if ops == [] then otherwise
    else if ops[|ops| - 1].SetLastUploadAttemptTime? then ops[|ops| - 1].time
    else LastTime(ops[..|ops| - 1], otherwise)
  }

  function LastEnabled(ops: seq<Op>, otherwise: bool): bool {
    if ops == [] then otherwise
    else if ops[|ops| - 1].SetUploadsEnabled? then ops[|ops| - 1].enabled
    else LastEnabled(ops[..|ops| - 1], otherwise)
  }

  /** The settings d result from base by the updates, setter by setter of each kind. */
  predicate Folded(d: Data, base: Data, ops: seq<Op>) {
    && d.clientId == base.clientId && d.otherOptions == base.otherOptions
    && d.lastAttempt == LastTime(ops, base.lastAttempt)
    && d.uploadsEnabled == LastEnabled(ops, base.uploadsEnabled)
  }

  lemma FoldOne(d: Data, base: Data, ops: seq<Op>, op: Op)
    requires Folded(d, base, ops)
    ensures Folded(Apply(d, op), base, ops + [op])
  {
    assert (ops + [op])[..|ops|] == ops;
  }

  /** Both settings are always as their last setter left them, whatever setters of the other kind
      came between. */
  lemma {:induction false} SettersKeepEachOther(file: Content, run: seq<Step>)
    requires Legal(file, run)
    ensures Standing(file, run).Some? <==> Base(file, run).Some?
    ensures Standing(file, run).None? ==> Updates(file, run) == []
    ensures Standing(file, run).Some? ==> Folded(Standing(file, run).value, Base(file, run).value, Updates(file, run))
  {
    if run != [] {
      SettersKeepEachOther(file, Before(run));
      LocksKeepInvariant(file, Before(run));
      var s, d := After(file, Before(run)), Standing(file, Before(run));
      var pc := s.At(Last(run).p);
      assert PcOk(s.file, d, pc);
      hide Inv, After, Do, Enabled, Folded, Apply;
      var ops := Updates(file, Before(run));
      if Last(run).Write? && pc.SetWrite? {
        FoldOne(d.value, Base(file, Before(run)).value, ops, pc.op);
      } else if Last(run).Write? && pc.CreateWrite? {
        NothingFolded(pc.data);
      } else {
        assert ops + [] == ops;
      }
    } else if file.Valid? {
      NothingFolded(file.data);
    }
  }

  lemma NothingFolded(d: Data)
    ensures Folded(d, d, [])
  {
  }

  /** How often a process wrote as a setter, and how often a setter of it returned. */
  function Writes(file: Content, run: seq<Step>, p: Process): nat
    requires Legal(file, run)
  {
    if run == [] then 0
    else Writes(file, Before(run), p) + if Last(run) == Write(p) && After(file, Before(run)).At(p).SetWrite? then 1 else 0
  }

  function Returns(file: Content, run: seq<Step>, p: Process): nat
    requires Legal(file, run)
  {
    if run == [] then 0
    else
      var pc := After(file, Before(run)).At(p);
      Returns(file, Before(run), p) + if Last(run) == Release(p) && pc.Done? && IsSetter(pc.op) then 1 else 0
  }

  predicate OpFits(pc: Pc) {
    (pc.SetTruncate? || pc.SetWrite? ==> IsSetter(pc.op))
    && (pc.OpenShared? || pc.LockShared? || pc.ReadShared? || pc.DoneShared? || pc.GiveUpShared? ==> pc.op.Get?)
  }

  predicate SetterDone(pc: Pc) {
    pc.Done? && IsSetter(pc.op)
  }

  lemma StepWritesOnce(s: State, e: Step, p: Process)
    requires Enabled(s, e) && OpFits(s.At(p))
    ensures OpFits(Do(s, e).At(p))
    ensures e == Write(p) && s.At(p).SetWrite? ==> !SetterDone(s.At(p)) && SetterDone(Do(s, e).At(p))
    ensures e == Release(p) && SetterDone(s.At(p)) ==> !SetterDone(Do(s, e).At(p))
    ensures !(e == Write(p) && s.At(p).SetWrite?) && !(e == Release(p) && SetterDone(s.At(p))) ==>
              SetterDone(Do(s, e).At(p)) == SetterDone(s.At(p))
  {
  }

  /** Every setter that returns has written exactly once. */
  lemma {:induction false} SettersWriteOnce(file: Content, run: seq<Step>, p: Process)
    requires Legal(file, run)
    ensures OpFits(After(file, run).At(p))
    ensures Writes(file, run, p) == Returns(file, run, p) + if SetterDone(After(file, run).At(p)) then 1 else 0
  {
    if run != [] {
      SettersWriteOnce(file, Before(run), p);
      StepWritesOnce(After(file, Before(run)), Last(run), p);
      hide OpFits, Do, Enabled;
    }
  }

  // What is created, and by whom

  /** The settings of a new installation: nothing enabled, no attempt yet, and an identifier that was
      created in the run. */
  ghost predicate Fresh(d: Data, run: seq<Step>) {
    && !d.uploadsEnabled && d.otherOptions == 0 && d.lastAttempt == 0
    && exists i :: 0 <= i < |run| && run[i].DoRead? && run[i].newId == d.clientId
  }

  lemma FreshStays(d: Data, run: seq<Step>)
    requires run != [] && Fresh(d, Before(run))
    ensures Fresh(d, run)
  {
    var i :| 0 <= i < |Before(run)| && Before(run)[i].DoRead? && Before(run)[i].newId == d.clientId;
    assert run[i] == Before(run)[i];
  }

  /** A process that is about to write settings that it created has fresh ones. */
  lemma {:induction false} CreatesFresh(file: Content, run: seq<Step>, p: Process)
    requires Legal(file, run)
    ensures var pc := After(file, run).At(p); pc.CreateTruncate? || pc.CreateWrite? ==> Fresh(pc.data, run)
  {
    if run != [] {
      CreatesFresh(file, Before(run), p);
      var s, e := After(file, Before(run)), Last(run);
      var pc := s.At(p);
      if (pc.CreateTruncate? || pc.CreateWrite?) && Do(s, e).At(p) in {pc, CreateWrite(pc.op, pc.data)} {
        FreshStays(pc.data, run);
      } else if e.DoRead? {
        assert run[|run| - 1] == e;
      }
    }
  }

  /** The settings that all updates start from are those that were there, or else fresh ones. */
  lemma {:induction false} BaseIsFirst(file: Content, run: seq<Step>)
    requires Legal(file, run)
    ensures file.Valid? ==> Base(file, run) == Some(file.data)
    ensures !file.Valid? && Base(file, run).Some? ==> Fresh(Base(file, run).value, run)
  {
    if run != [] {
      BaseIsFirst(file, Before(run));
      SettersKeepEachOther(file, Before(run));
      LocksKeepInvariant(file, Before(run));
      CreatesFresh(file, Before(run), Last(run).p);
      var s := After(file, Before(run));
      var pc := s.At(Last(run).p);
      assert PcOk(s.file, Standing(file, Before(run)), pc);
      hide Inv, After, Do, Enabled, Fresh, Standing;
      if Last(run).Write? && pc.CreateWrite? {
        FreshStays(pc.data, run);
      } else if !file.Valid? && Base(file, Before(run)).Some? {
        FreshStays(Base(file, Before(run)).value, run);
      }
    }
  }

  lemma {:induction false} EnabledBySetter(ops: seq<Op>)
    requires LastEnabled(ops, false)
    ensures SetUploadsEnabled(true) in ops
  {
    var n := |ops| - 1;
    if !ops[n].SetUploadsEnabled? {
      EnabledBySetter(ops[..n]);
    }
  }

  /** On a new installation uploads are enabled only if a setter did so, and a recorded attempt was set. */
  lemma NothingEnabledItself(file: Content, run: seq<Step>)
    requires Legal(file, run) && !file.Valid? && Standing(file, run).Some?
    ensures Standing(file, run).value.uploadsEnabled ==> SetUploadsEnabled(true) in Updates(file, run)
    ensures Standing(file, run).value.lastAttempt == LastTime(Updates(file, run), 0)
  {
    BaseIsFirst(file, run);
    SettersKeepEachOther(file, run);
    if Standing(file, run).value.uploadsEnabled {
      EnabledBySetter(Updates(file, run));
    }
  }

  /** The operation that a process began last. */
  function Started(run: seq<Step>, p: Process): Option<Op> {
    if run == [] then None
    else if Last(run).Start? && Last(run).p == p then Some(Last(run).op)
    else Started(Before(run), p)
  }

  lemma StepKeepsOp(s: State, e: Step, p: Process)
    requires Enabled(s, e) && !Do(s, e).At(p).Idle?
    ensures if e.Start? && e.p == p then Do(s, e).At(p).op == e.op else !s.At(p).Idle? && Do(s, e).At(p).op == s.At(p).op
  {
    hide Apply;
  }

  /** A process is at work on the operation that it began. */
  lemma {:induction false} WorksOnStarted(file: Content, run: seq<Step>, p: Process)
    requires Legal(file, run)
    ensures !After(file, run).At(p).Idle? ==> Started(run, p) == Some(After(file, run).At(p).op)
  {
    if run != [] {
      WorksOnStarted(file, Before(run), p);
      if !After(file, run).At(p).Idle? {
        StepKeepsOp(After(file, Before(run)), Last(run), p);
        hide Do, Enabled;
      }
    }
  }

  /** Each update that is written is the one that its process began, with the value it was given. */
  lemma UpdatesAreStarted(file: Content, run: seq<Step>)
    requires Legal(file, run) && run != [] && Updates(file, run) != Updates(file, Before(run))
    ensures Last(run).Write? && Started(run, Last(run).p).Some?
    ensures Updates(file, run) == Updates(file, Before(run)) + [Started(run, Last(run).p).value]
  {
    WorksOnStarted(file, Before(run), Last(run).p);
    assert Updates(file, Before(run)) + [] == Updates(file, Before(run));
  }

  /** A process has come to the end of an initialization that it began. */
  predicate Initialized(file: Content, run: seq<Step>, p: Process)
    requires Legal(file, run)
  {
    run != [] && (Initialized(file, Before(run), p)
                  || (Last(run) == Release(p) && After(file, Before(run)).At(p).Done?
                      && Started(run, p) == Some(Initialize)))
  }

  /** A process is ready exactly if it was initialized; then there are settings, and so a reader that
      opens the file always finds it. */
  lemma {:induction false} ReadyExactly(file: Content, run: seq<Step>, p: Process)
    requires Legal(file, run)
    ensures p in After(file, run).ready <==> Initialized(file, run, p)
    ensures p in After(file, run).ready ==> Standing(file, run).Some? && !After(file, run).file.Missing?
    ensures !After(file, run).At(p).Idle? && !After(file, run).At(p).op.Initialize? ==> p in After(file, run).ready
  {
    if run != [] {
      ReadyExactly(file, Before(run), p);
      WorksOnStarted(file, Before(run), p);
      var s, e := After(file, Before(run)), Last(run);
      StepReadies(s, e, p);
      if !Do(s, e).At(p).Idle? {
        StepKeepsOp(s, e, p);
      }
      if p in Do(s, e).ready {
        SettingsWhenReady(file, run, p);
      }
      hide Do, Enabled, Standing;
    }
  }

  lemma StepReadies(s: State, e: Step, p: Process)
    requires Enabled(s, e)
    ensures p in Do(s, e).ready <==> p in s.ready || (e == Release(p) && s.At(p).Done? && s.At(p).op.Initialize?)
    ensures e.Start? && e.p == p && !e.op.Initialize? ==> p in s.ready
  {
    hide Apply;
  }

  lemma SettingsWhenReady(file: Content, run: seq<Step>, p: Process)
    requires run != [] && Legal(file, run) && p in After(file, run).ready
    requires p in After(file, Before(run)).ready ==> Standing(file, Before(run)).Some?
    ensures Standing(file, run).Some? && !After(file, run).file.Missing?
  {
    StepReadies(After(file, Before(run)), Last(run), p);
    LocksKeepInvariant(file, Before(run));
    assert PcOk(After(file, Before(run)).file, Standing(file, Before(run)), After(file, Before(run)).At(p));
    StandingStep(file, run);
    LocksKeepInvariant(file, run);
    hide Do, Enabled, Standing, LocksOk;
  }

  /** Since it began its operation, a process has given up a shared lock because the file was corrupt. */
  predicate GaveUp(file: Content, run: seq<Step>, p: Process)
    requires Legal(file, run)
  {
    run != [] &&
    (if Last(run).Start? && Last(run).p == p then false
     else (Last(run) == Release(p) && After(file, Before(run)).At(p).GiveUpShared?) || GaveUp(file, Before(run), p))
  }

  /** A reader that wants or has the exclusive lock. */
  predicate IsLateReader(pc: Pc) {
    !pc.Idle? && pc.op.Get? && (pc.OpenAny? || pc.Lock? || HoldsExclusive(pc))
  }

  predicate Initializes(pc: Pc) {
    pc.OpenExisting? || pc.OpenNew? ==> pc.op.Initialize?
  }

  lemma StepToLate(s: State, e: Step, p: Process)
    requires Enabled(s, e) && Initializes(s.At(p))
    ensures Initializes(Do(s, e).At(p))
    ensures IsLateReader(Do(s, e).At(p)) ==>
              (IsLateReader(s.At(p)) && !(e.Start? && e.p == p)) || (e == Release(p) && s.At(p).GiveUpShared?)
  {
    hide Apply;
  }

  /** A reader gets to the exclusive lock, and to recovering the file, only over that. */
  lemma {:induction false} ReadersShare(file: Content, run: seq<Step>, p: Process)
    requires Legal(file, run)
    ensures Initializes(After(file, run).At(p))
    ensures IsLateReader(After(file, run).At(p)) ==> GaveUp(file, run, p)
  {
    if run != [] {
      ReadersShare(file, Before(run), p);
      StepToLate(After(file, Before(run)), Last(run), p);
      hide IsLateReader, Initializes, Do, Enabled;
    }
  }
}
