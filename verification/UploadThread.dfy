/** The upload thread's pass over pending reports, on the database of files, with its hourly limit. */
module UploadThread {
  import opened Bytes
  import opened Lifecycle
  import Generic = GenericDatabase

  const UPLOAD_ATTEMPT_INTERVAL: int := 60 * 60
  const BACKWARDS_CLOCK_TOLERANCE: int := 60 * 60 * 24

  datatype UploadResult = Success | PermanentFailure | Retry

  /** What the outside answers: each reading, the n-th of all, may give anything. The settings are read
      anew each time: a switch that cannot be read is off, a time that cannot be read is not there. */
  datatype Environment = Environment(clock: nat -> int, uploadsEnabled: nat -> bool, timeReadable: nat -> bool,
                                     upload: nat -> UploadResult, response: nat -> Text, running: nat -> bool)

  /** An upload: when it started, when its attempt was recorded, and whether a user requested it. */
  datatype Attempt = Attempt(start: int, recorded: int, requested: bool)

  ghost predicate Monotone(clock: nat -> int) {
    forall i: nat, j: nat :: i <= j ==> clock(i) <= clock(j)
  }

  /** Only pending reports changed, and at most by going forward: no report appeared or disappeared,
      no upload that someone else has outstanding was touched, and none is left outstanding. */
  ghost predicate Progress(before: Db, after: Db) {
    && after.reports.Keys == before.reports.Keys
    && after.drafts == before.drafts
    && forall u :: u in before.reports ==>
         if before.reports[u].phase == Pending then after.reports[u].phase != Uploading
         else after.reports[u] == before.reports[u]
  }

  /** A report is out of the way: completed, or someone else is uploading it. */
  predicate Settled(db: Db, u: Uuid) {
    u in db.reports ==> db.reports[u].phase != Pending
  }

  /** Each upload that no user requested started an hour after every earlier attempt was recorded. */
  ghost predicate Paced(log: seq<Attempt>) {
    && (forall i :: 0 <= i < |log| ==> log[i].start <= log[i].recorded)
    && (forall i, j :: 0 <= i < j < |log| && !log[j].requested ==>
          log[j].start >= log[i].recorded + UPLOAD_ATTEMPT_INTERVAL)
  }

  ghost predicate RecordedBy(log: seq<Attempt>, time: int) {
    forall i :: 0 <= i < |log| ==> log[i].recorded <= time
  }

  /** The clock does not go back, and neither the last recorded attempt nor any upload is in the
      future of the next reading. */
  ghost predicate OnTime(clock: nat -> int, reading: nat, last: int, log: seq<Attempt>) {
    Monotone(clock) && last <= clock(reading) && RecordedBy(log, last) && Paced(log)
  }

  /** The state of things on which the limit works: settings can be read, and all is on time. */
  ghost predicate Pacing(env: Environment, reading: nat, last: int, log: seq<Attempt>) {
    (forall n :: env.timeReadable(n)) && OnTime(env.clock, reading, last, log)
  }

  lemma StillOnTime(clock: nat -> int, reading: nat, later: nat, last: int, log: seq<Attempt>)
    requires OnTime(clock, reading, last, log) && reading <= later
    ensures OnTime(clock, later, last, log)
  {
    assert clock(reading) <= clock(later);
  }

  /** An upload that starts late enough, recorded by the following reading, keeps the pace. */
  lemma AttemptKeepsPace(clock: nat -> int, checked: nat, start: nat, last: int, log: seq<Attempt>, requested: bool)
    requires OnTime(clock, checked, last, log) && checked <= start
    requires requested || clock(checked) - last >= UPLOAD_ATTEMPT_INTERVAL
    ensures OnTime(clock, start + 2, clock(start + 1), log + [Attempt(clock(start), clock(start + 1), requested)])
  {
    assert clock(checked) <= clock(start) <= clock(start + 1) <= clock(start + 2);
    var log' := log + [Attempt(clock(start), clock(start + 1), requested)];
    forall i, j | 0 <= i < j < |log'| && !log'[j].requested
      ensures log'[j].start >= log'[i].recorded + UPLOAD_ATTEMPT_INTERVAL
    {
      if j == |log| {
        assert log[i].recorded <= last;
      }
    }
  }

  // What is done about one report

  /** The database, the uploads so far, and how many readings of the outside were taken. */
  datatype Turn = Turn(db: Db, log: seq<Attempt>, readings: nat)

  function Skipped(t: Turn, u: Uuid): Turn {
    t.(db := Step(t.db, Skip(u)).0)
  }

  /** The last attempt was within the past hour, or is in the future by less than a day. */
  predicate TooSoon(now: int, last: int) {
    if now >= last then now - last < UPLOAD_ATTEMPT_INTERVAL else last - now < BACKWARDS_CLOCK_TOLERANCE
  }

  /** The end of an upload: when it failed, it is not retried but the report is skipped. */
  function UploadEnded(db: Db, u: Uuid, result: UploadResult, response: Text, now: int): Db
    requires db.Is(u, Uploading)
  {
    if result.Success? then Step(db, Complete(u, response, now)).0
    else Step(Step(db, Drop(u, now)).0, Skip(u)).0
  }

  /** A pending report is checked out and uploaded. */
  function Uploaded(env: Environment, t: Turn, r: Listed): Turn {
    if !t.db.Is(r.uuid, Pending) then t
    else
      var n, now := t.readings, env.clock(t.readings + 1);
      Turn(UploadEnded(Step(t.db, BeginUpload(r.uuid)).0, r.uuid, env.upload(n), env.response(n), now),
           t.log + [Attempt(env.clock(n), now, r.requested)],
           n + 2)
  }

  /** The part behind the upload switch: a report is skipped when its upload would be too soon. */
  function Limited(env: Environment, rateLimit: bool, t: Turn, r: Listed): Turn {
    if !rateLimit then Uploaded(env, t, r)
    else
      var n, t' := t.readings, t.(readings := t.readings + 1);
      if env.timeReadable(n) && TooSoon(env.clock(n), t.db.lastAttempt) then Skipped(t', r.uuid) else Uploaded(env, t', r)
  }

  /** A report that a user requested is uploaded at once; others only if uploads are enabled. */
  function Processed(env: Environment, rateLimit: bool, t: Turn, r: Listed): Turn {
    if r.requested then Uploaded(env, t, r)
    else
      var t' := t.(readings := t.readings + 1);
      if env.uploadsEnabled(t.readings) then Limited(env, rateLimit, t', r) else Skipped(t', r.uuid)
  }

  lemma SkippedProgresses(t: Turn, u: Uuid)
    ensures Progress(t.db, Skipped(t, u).db) && Settled(Skipped(t, u).db, u)
  {
    assert Skipped(t, u).db.reports.Keys == t.db.reports.Keys;
  }

  /** An upload completes its report and touches no other. */
  lemma UploadCompletes(db: Db, u: Uuid, result: UploadResult, response: Text, now: int) returns (db': Db, r: Report)
    requires db.Is(u, Pending)
    ensures db' == UploadEnded(Step(db, BeginUpload(u)).0, u, result, response, now)
    ensures db' == Db(db.drafts, db.reports[u := r], now) && r.phase == Completed
  {
    db' := UploadEnded(Step(db, BeginUpload(u)).0, u, result, response, now);
    r := db'.reports[u];
  }

  lemma UploadedProgresses(env: Environment, t: Turn, r: Listed)
    ensures Progress(t.db, Uploaded(env, t, r).db) && Settled(Uploaded(env, t, r).db, r.uuid)
  {
    if t.db.Is(r.uuid, Pending) {
      var n := t.readings;
      var db, report := UploadCompletes(t.db, r.uuid, env.upload(n), env.response(n), env.clock(n + 1));
      hide UploadEnded, Step;
    }
  }

  /** What an upload at reading n makes of a report: completed, with one attempt more at the time of its
      end; uploaded, under the identifier that the server answered, exactly if it succeeded. */
  predicate Recorded(env: Environment, n: nat, before: Report, after: Report) {
    && (after.uploaded <==> env.upload(n).Success?)
    && after.id == (if env.upload(n).Success? then env.response(n) else [])
    && after.attempts == before.attempts + 1
    && after.lastAttempt == env.clock(n + 1)
    && after.phase == Completed && !after.requested
    && after.creation == before.creation && after.size == before.size
  }

  /** No other report is touched. */
  ghost predicate OnlyTouches(before: Db, after: Db, u: Uuid) {
    && after.drafts == before.drafts && after.reports.Keys == before.reports.Keys
    && forall v :: v in before.reports && v != u ==> after.reports[v] == before.reports[v]
  }

  lemma UploadIsRecorded(env: Environment, t: Turn, r: Listed)
    requires t.db.Is(r.uuid, Pending)
    ensures var n, t' := t.readings, Uploaded(env, t, r);
            && OnlyTouches(t.db, t'.db, r.uuid) && r.uuid in t'.db.reports
            && Recorded(env, n, t.db.reports[r.uuid], t'.db.reports[r.uuid])
            && t'.db.lastAttempt == env.clock(n + 1)
            && t'.log == t.log + [Attempt(env.clock(n), env.clock(n + 1), r.requested)]
            && t'.readings == n + 2
  {
    var n, t' := t.readings, Uploaded(env, t, r);
    var db, report := UploadCompletes(t.db, r.uuid, env.upload(n), env.response(n), env.clock(n + 1));
    assert t'.db == db && Recorded(env, n, t.db.reports[r.uuid], t'.db.reports[r.uuid]);
    hide UploadEnded, Step, Recorded;
  }

  /** A report is uploaded now: a user requested it, or uploads are enabled and, if there is a limit, the
      last attempt cannot be read, is an hour or more ago, or is a day or more in the future. */
  predicate UploadsNow(env: Environment, rateLimit: bool, t: Turn, r: Listed) {
    || r.requested
    || (env.uploadsEnabled(t.readings)
        && (rateLimit && env.timeReadable(t.readings + 1) ==>
              var now, last := env.clock(t.readings + 1), t.db.lastAttempt;
              now >= last + 3600 || last >= now + 86400))
  }

  /** The reading at which it is. */
  function UploadReading(rateLimit: bool, t: Turn, r: Listed): nat {
    t.readings + if r.requested then 0 else if rateLimit then 2 else 1
  }

  /** What is done about a report: uploaded if it is its turn, and else given up, and with that its
      request; nothing if it is not pending. */
  lemma ProcessedExactly(env: Environment, rateLimit: bool, t: Turn, r: Listed)
    ensures var t', u := Processed(env, rateLimit, t, r), r.uuid;
            if !t.db.Is(u, Pending) then t'.db == t.db && t'.log == t.log
            else
              && OnlyTouches(t.db, t'.db, u) && u in t'.db.reports
              && if UploadsNow(env, rateLimit, t, r) then
                   var n := UploadReading(rateLimit, t, r);
                   && Recorded(env, n, t.db.reports[u], t'.db.reports[u])
                   && t'.db.lastAttempt == env.clock(n + 1)
                   && t'.log == t.log + [Attempt(env.clock(n), env.clock(n + 1), r.requested)]
                 else
                   && t'.db.reports[u] == t.db.reports[u].(phase := Completed, requested := false)
                   && t'.db.lastAttempt == t.db.lastAttempt && t'.log == t.log
  {
    hide UploadEnded, Recorded, Uploaded, Skipped;
    var n := UploadReading(rateLimit, t, r);
    SkipsAfter(env, rateLimit, t, r);
    if t.db.Is(r.uuid, Pending) {
      UploadIsRecorded(env, t.(readings := n), r);
      GivenUp(t.(readings := t.readings + 1), r.uuid);
      GivenUp(t.(readings := t.readings + 2), r.uuid);
    } else {
      NothingDone(env, t.(readings := n), r);
      NothingDone(env, t.(readings := t.readings + 1), r);
      NothingDone(env, t.(readings := t.readings + 2), r);
    }
  }

  lemma SkipsAfter(env: Environment, rateLimit: bool, t: Turn, r: Listed)
    ensures Processed(env, rateLimit, t, r)
         == if UploadsNow(env, rateLimit, t, r) then Uploaded(env, t.(readings := UploadReading(rateLimit, t, r)), r)
            else if env.uploadsEnabled(t.readings) then Skipped(t.(readings := t.readings + 2), r.uuid)
            else Skipped(t.(readings := t.readings + 1), r.uuid)
  {
    hide Uploaded, Skipped;
  }

  lemma GivenUp(t: Turn, u: Uuid)
    requires t.db.Is(u, Pending)
    ensures var t' := Skipped(t, u);
            && OnlyTouches(t.db, t'.db, u) && u in t'.db.reports
            && t'.db.reports[u] == t.db.reports[u].(phase := Completed, requested := false)
            && t'.db.lastAttempt == t.db.lastAttempt && t'.log == t.log
  {
  }

  lemma NothingDone(env: Environment, t: Turn, r: Listed)
    requires !t.db.Is(r.uuid, Pending)
    ensures Skipped(t, r.uuid) == t && Uploaded(env, t, r) == t
  {
  }

  /** Whatever the outside answers, a report that was pending is not any more. */
  lemma ProcessedProgresses(env: Environment, rateLimit: bool, t: Turn, r: Listed)
    ensures Progress(t.db, Processed(env, rateLimit, t, r).db)
    ensures Settled(Processed(env, rateLimit, t, r).db, r.uuid)
  {
    hide Progress, Settled, Skipped, Uploaded;
    var t' := t.(readings := t.readings + 1);
    var t'' := t.(readings := t.readings + 2);
    SkippedProgresses(t', r.uuid);
    SkippedProgresses(t'', r.uuid);
    UploadedProgresses(env, t, r);
    UploadedProgresses(env, t', r);
    UploadedProgresses(env, t'', r);
  }

  /** An upload whose turn came at an earlier reading keeps the pace. */
  lemma UploadedOnTime(env: Environment, t: Turn, r: Listed, checked: nat)
    requires OnTime(env.clock, checked, t.db.lastAttempt, t.log) && checked <= t.readings
    requires r.requested || env.clock(checked) - t.db.lastAttempt >= UPLOAD_ATTEMPT_INTERVAL
    ensures var t' := Uploaded(env, t, r); OnTime(env.clock, t'.readings, t'.db.lastAttempt, t'.log)
  {
    StillOnTime(env.clock, checked, t.readings, t.db.lastAttempt, t.log);
    AttemptKeepsPace(env.clock, checked, t.readings, t.db.lastAttempt, t.log, r.requested);
    hide OnTime;
  }

  lemma LimitedOnTime(env: Environment, t: Turn, r: Listed)
    requires OnTime(env.clock, t.readings, t.db.lastAttempt, t.log) && env.timeReadable(t.readings)
    ensures var t' := Limited(env, true, t, r); OnTime(env.clock, t'.readings, t'.db.lastAttempt, t'.log)
  {
    assert t.db.lastAttempt <= env.clock(t.readings);
    hide OnTime, Uploaded;
    var t' := t.(readings := t.readings + 1);
    StillOnTime(env.clock, t.readings, t'.readings, t.db.lastAttempt, t.log);
    if !TooSoon(env.clock(t.readings), t.db.lastAttempt) {
      UploadedOnTime(env, t', r, t.readings);
    }
  }

  /** With the limit on, and a last attempt time that can be read, every upload without request starts an
      hour after the last attempt. */
  lemma ProcessedOnTimeIfReadable(env: Environment, t: Turn, r: Listed)
    requires OnTime(env.clock, t.readings, t.db.lastAttempt, t.log) && (env.timeReadable(t.readings + 1) || r.requested)
    ensures var t' := Processed(env, true, t, r); OnTime(env.clock, t'.readings, t'.db.lastAttempt, t'.log)
  {
    hide OnTime, Uploaded, Limited;
    if r.requested {
      UploadedOnTime(env, t, r, t.readings);
    } else {
      StillOnTime(env.clock, t.readings, t.readings + 1, t.db.lastAttempt, t.log);
      LimitedOnTime(env, t.(readings := t.readings + 1), r);
    }
  }

  /** The limit does not apply to a report: a user requested it, it is not there to be uploaded, uploads
      are disabled, or its turn comes an hour after every recorded attempt anyway. */
  ghost predicate NoLimitNeeded(env: Environment, t: Turn, r: Listed) {
    || r.requested
    || !t.db.Is(r.uuid, Pending)
    || !env.uploadsEnabled(t.readings)
    || forall i :: 0 <= i < |t.log| ==> env.clock(t.readings + 2) >= t.log[i].recorded + UPLOAD_ATTEMPT_INTERVAL
  }

  /** With the limit on, the pace is kept exactly if the time of the last attempt can be read, or the
      limit is not needed. */
  lemma ProcessedOnTimeExactly(env: Environment, t: Turn, r: Listed)
    requires OnTime(env.clock, t.readings, t.db.lastAttempt, t.log)
    ensures (var t' := Processed(env, true, t, r); OnTime(env.clock, t'.readings, t'.db.lastAttempt, t'.log))
       <==> env.timeReadable(t.readings + 1) || NoLimitNeeded(env, t, r)
  {
    hide OnTime, Processed;
    var n := t.readings;
    if env.timeReadable(n + 1) || r.requested {
      ProcessedOnTimeIfReadable(env, t, r);
    } else if env.uploadsEnabled(n) && t.db.Is(r.uuid, Pending) {
      var t', report := UnlimitedUpload(env, t, r);
      StillOnTime(env.clock, n, n + 2, t.db.lastAttempt, t.log);
      AttemptKeepsPaceExactly(env.clock, n + 2, t.db.lastAttempt, t.log);
    } else {
      var t' := NotUploaded(env, t, r);
      StillOnTime(env.clock, n, t'.readings, t.db.lastAttempt, t.log);
    }
  }

  lemma NotUploaded(env: Environment, t: Turn, r: Listed) returns (t': Turn)
    requires !r.requested && (!env.uploadsEnabled(t.readings) || !t.db.Is(r.uuid, Pending))
    ensures t' == Processed(env, true, t, r)
    ensures t'.log == t.log && t'.readings >= t.readings && t'.db.lastAttempt == t.db.lastAttempt
  {
    t' := Processed(env, true, t, r);
  }

  /** What is done about a pending report when the time of the last attempt cannot be read. */
  lemma UnlimitedUpload(env: Environment, t: Turn, r: Listed) returns (t': Turn, report: Report)
    requires !r.requested && t.db.Is(r.uuid, Pending)
    requires env.uploadsEnabled(t.readings) && !env.timeReadable(t.readings + 1)
    ensures t' == Processed(env, true, t, r)
    ensures var n := t.readings;
            t' == Turn(Db(t.db.drafts, t.db.reports[r.uuid := report], env.clock(n + 3)),
                       t.log + [Attempt(env.clock(n + 2), env.clock(n + 3), false)],
                       n + 4)
  {
    hide UploadEnded, Step;
    var n := t.readings;
    var db;
    db, report := UploadCompletes(t.db, r.uuid, env.upload(n + 2), env.response(n + 2), env.clock(n + 3));
    t' := Processed(env, true, t, r);
  }

  /** An upload without request keeps the pace exactly if it starts an hour after every recorded attempt. */
  lemma AttemptKeepsPaceExactly(clock: nat -> int, start: nat, last: int, log: seq<Attempt>)
    requires OnTime(clock, start, last, log)
    ensures OnTime(clock, start + 2, clock(start + 1), log + [Attempt(clock(start), clock(start + 1), false)])
       <==> forall i :: 0 <= i < |log| ==> clock(start) >= log[i].recorded + UPLOAD_ATTEMPT_INTERVAL
  {
    assert clock(start) <= clock(start + 1) <= clock(start + 2);
    var log' := log + [Attempt(clock(start), clock(start + 1), false)];
    assert log'[|log|] == Attempt(clock(start), clock(start + 1), false);
    assert forall i :: 0 <= i < |log| ==> log'[i] == log[i];
  }

  /** Two reports whose uploads start within an hour: the switch can be read and is on, and the time of
      the last attempt cannot be read right afterwards, for the one and for the other. */
  lemma UnreadableTimeLiftsLimit(env: Environment, t: Turn, r: Listed, q: Listed)
    requires !r.requested && !q.requested && r.uuid != q.uuid && t.db.Is(r.uuid, Pending) && t.db.Is(q.uuid, Pending)
    requires var n := t.readings;
             && env.uploadsEnabled(n) && !env.timeReadable(n + 1)
             && env.uploadsEnabled(n + 4) && !env.timeReadable(n + 5)
             && env.clock(n + 6) < env.clock(n + 3) + UPLOAD_ATTEMPT_INTERVAL
    ensures var t' := Processed(env, true, Processed(env, true, t, r), q); !Paced(t'.log)
  {
    hide Processed;
    var n := t.readings;
    var t1, one := UnlimitedUpload(env, t, r);
    var t2, other := UnlimitedUpload(env, t1, q);
    assert t2.log[|t.log|] == Attempt(env.clock(n + 2), env.clock(n + 3), false);
    assert t2.log[|t.log| + 1] == Attempt(env.clock(n + 6), env.clock(n + 7), false);
  }

  lemma ProgressTwice(a: Db, b: Db, c: Db)
    requires Progress(a, b) && Progress(b, c)
    ensures Progress(a, c)
  {
  }

  /** How far a pass goes, depending on the stop flag: to its end if the flag is never seen; and if it is
      always seen, no further than one report, or else it has done nothing. */
  ghost predicate Bounded(env: Environment, before: Turn, after: Turn, stopped: bool) {
    && before.log <= after.log && before.readings <= after.readings
    && ((forall n :: env.running(n)) ==> !stopped)
    && ((forall n :: !env.running(n)) ==>
          && |after.log| <= |before.log| + 1
          && (!stopped ==> after.db == before.db && after.log == before.log))
  }

  lemma BoundedTwice(env: Environment, a: Turn, b: Turn, c: Turn, stopped: bool)
    requires Bounded(env, a, b, false) && Bounded(env, b, c, stopped)
    ensures Bounded(env, a, c, stopped)
  {
  }

  /** Reports that are not among the given ones are as they were. */
  ghost predicate OthersKept(before: Db, after: Db, uuids: seq<Uuid>) {
    forall u :: u in before.reports && u !in uuids ==> u in after.reports && after.reports[u] == before.reports[u]
  }

  ghost predicate SettledAll(db: Db, uuids: seq<Uuid>, n: nat) {
    forall k :: 0 <= k < n && k < |uuids| ==> Settled(db, uuids[k])
  }

  /** What processing one report, and looking at the stop flag after that, comes to. */
  ghost predicate Advances(env: Environment, before: Turn, after: Turn, u: Uuid, running: bool) {
    && Progress(before.db, after.db) && Settled(after.db, u) && OnlyTouches(before.db, after.db, u)
    && before.log <= after.log && |after.log| <= |before.log| + 1
    && before.readings < after.readings && running == env.running(after.readings - 1)
  }

  /** What processing reports in turn has come to, n of them having had their turn. */
  ghost predicate Passed(env: Environment, start: Turn, now: Turn, uuids: seq<Uuid>, n: nat, stopped: bool) {
    && Progress(start.db, now.db) && Bounded(env, start, now, stopped) && OthersKept(start.db, now.db, uuids)
    && (!stopped ==> SettledAll(now.db, uuids, n))
  }

  lemma PassBegins(env: Environment, start: Turn, uuids: seq<Uuid>)
    ensures Passed(env, start, start, uuids, 0, false)
  {
  }

  lemma PassGoesOn(env: Environment, start: Turn, before: Turn, after: Turn, uuids: seq<Uuid>, n: nat, running: bool)
    requires n < |uuids| && Passed(env, start, before, uuids, n, false) && Advances(env, before, after, uuids[n], running)
    ensures Passed(env, start, after, uuids, n + 1, !running)
  {
    ProgressTwice(start.db, before.db, after.db);
    assert SettledAll(after.db, uuids, n + 1) by {
      hide Bounded, OthersKept, OnlyTouches;
    }
    hide Progress, Settled, SettledAll;
  }

  lemma PassSkips(env: Environment, start: Turn, now: Turn, uuids: seq<Uuid>, n: nat)
    requires n < |uuids| && Passed(env, start, now, uuids, n, false) && Settled(now.db, uuids[n])
    ensures Passed(env, start, now, uuids, n + 1, false)
  {
    hide Progress, Settled, Bounded, OthersKept;
  }

  lemma PassStops(env: Environment, start: Turn, now: Turn, uuids: seq<Uuid>, n: nat)
    requires Passed(env, start, now, uuids, n, true)
    ensures Passed(env, start, now, uuids, |uuids|, true)
  {
    hide Progress, Settled, Bounded, OthersKept;
  }

  lemma StillSettled(env: Environment, start: Turn, now: Turn, listed: seq<Uuid>, n: nat, uuids: seq<Uuid>, u: Uuid)
    requires Passed(env, start, now, listed, n, false) && SettledAll(start.db, uuids, |uuids|) && u in uuids
    ensures Settled(now.db, u)
  {
    hide Bounded, OthersKept;
  }

  lemma ReadingsGrow(env: Environment, rateLimit: bool, t: Turn, r: Listed)
    ensures t.readings <= Processed(env, rateLimit, t, r).readings
  {
    hide UploadEnded, Step;
  }

  class Uploader {
    const db: Generic.Database
    const env: Environment
    const watchPendingReports: bool
    const rateLimit: bool
    var known: seq<Uuid>
    var readings: nat
    var log: seq<Attempt>

    constructor (db: Generic.Database, env: Environment, watch: bool, rateLimit: bool)
      ensures this.db == db && this.env == env && watchPendingReports == watch && this.rateLimit == rateLimit
      ensures known == [] && readings == 0 && log == []
    {
      this.db, this.env, watchPendingReports, this.rateLimit := db, env, watch, rateLimit;
      known, readings, log := [], 0, [];
    }

    ghost predicate Timely()
      reads this, db
    {
      rateLimit && Pacing(env, readings, db.lastAttempt, log)
    }

    method Now() returns (now: int)
      modifies this`readings
      ensures now == env.clock(old(readings)) && readings == old(readings) + 1
    {
      now := env.clock(readings);
      readings := readings + 1;
    }

    method IsRunning() returns (running: bool)
      modifies this`readings
      ensures running == env.running(old(readings)) && readings == old(readings) + 1
      ensures old(Timely()) ==> Timely()
    {
      running := env.running(readings);
      if Timely() {
        StillOnTime(env.clock, readings, readings + 1, db.lastAttempt, log);
      }
      readings := readings + 1;
    }

    ghost function State(): Turn
      reads this, db
    {
      Turn(db.model, log, readings)
    }

    /** Skips a report whose upload would follow the last attempt too soon. */
    method ShouldRateLimitUpload(report: Listed) returns (limited: bool)
      requires db.Valid()
      modifies this`readings, db
      ensures db.Valid()
      ensures limited <==> rateLimit && !report.requested && env.timeReadable(old(readings))
                           && TooSoon(env.clock(old(readings)), old(db.lastAttempt))
      ensures readings == old(readings) + if rateLimit && !report.requested then 1 else 0
      ensures db.model == if limited then Step(old(db.model), Skip(report.uuid)).0 else old(db.model)
    {
      if report.requested || !rateLimit {
        return false;
      }
      var readable, last := env.timeReadable(readings), db.lastAttempt;
      var now := Now();
      limited := false;
      if readable {
        if now >= last {
          limited := now - last < UPLOAD_ATTEMPT_INTERVAL;
        } else {
          limited := last - now < BACKWARDS_CLOCK_TOLERANCE;
        }
      }
      if limited {
        var _ := db.SkipReportUpload(report.uuid);
      }
    }

    method AreUploadsEnabled() returns (enabled: bool)
      modifies this`readings
      ensures enabled == env.uploadsEnabled(old(readings)) && readings == old(readings) + 1
    {
      enabled := env.uploadsEnabled(readings);
      readings := readings + 1;
    }

    /** Uploads, skips or limits one report. */
    method ProcessPendingReport(report: Listed)
      requires db.Valid()
      modifies this`readings, this`log, db
      ensures db.Valid() && State() == Processed(env, rateLimit, old(State()), report)
    {
      hide Uploaded;
      if !report.requested {
        var enabled := AreUploadsEnabled();
        if !enabled {
          var _ := db.SkipReportUpload(report.uuid);
          return;
        }
      }
      var limited := ShouldRateLimitUpload(report);
      if limited {
        return;
      }
      CheckOutAndUpload(report);
    }

    /** The part behind the limit. When the report cannot be checked out because of an error, it is at
        least tried to get it out of the way. */
    method CheckOutAndUpload(report: Listed)
      modifies this`readings, this`log, db
      ensures old(db.Valid()) ==> db.Valid() && State() == Uploaded(env, old(State()), report)
    {
      hide UploadEnded;
      var u := report.uuid;
      var status := db.GetReportForUploading(u);
      if status == BusyError || status == ReportNotFound {
        return;
      }
      if status != NoError {
        var _ := db.SkipReportUpload(u);
        return;
      }
      Upload(report);
    }

    /** Uploads a report that was checked out, and records how that went. */
    method Upload(report: Listed)
      requires report.uuid in db.handles
      modifies this`readings, this`log, db
      ensures readings == old(readings) + 2
      ensures log == old(log) + [Attempt(env.clock(old(readings)), env.clock(old(readings) + 1), report.requested)]
      ensures old(db.Valid()) && old(db.model).Is(report.uuid, Uploading) ==>
                var n := old(readings);
                db.Valid() && db.model == UploadEnded(old(db.model), report.uuid, env.upload(n), env.response(n), env.clock(n + 1))
    {
      var u := report.uuid;
      var result, response := env.upload(readings), env.response(readings);
      var start := Now();
      var recorded := Now();
      match result {
        case Success =>
          var _ := db.RecordUploadComplete(u, response, recorded);
        case _ =>
          db.DropUpload(u, recorded);
          var _ := db.SkipReportUpload(u);
      }
      log := log + [Attempt(start, recorded, report.requested)];
    }

    /** Processes one report, and then looks whether the thread is still running. */
    method ProcessOne(report: Listed) returns (running: bool)
      requires db.Valid()
      modifies this`readings, this`log, db
      ensures db.Valid() && Advances(env, old(State()), State(), report.uuid, running)
      ensures old(Timely()) ==> Timely()
    {
      hide OnTime, Progress, Settled, Processed, OnlyTouches;
      ghost var turn := State();
      ProcessPendingReport(report);
      ProcessedAdvances(turn, report);
      running := IsRunning();
    }

    lemma ProcessedAdvances(turn: Turn, report: Listed)
      requires db.Valid() && State() == Processed(env, rateLimit, turn, report)
      ensures Progress(turn.db, db.model) && Settled(db.model, report.uuid)
      ensures OnlyTouches(turn.db, db.model, report.uuid)
      ensures turn.log <= log && |log| <= |turn.log| + 1 && turn.readings <= readings
      ensures rateLimit && Pacing(env, turn.readings, turn.db.lastAttempt, turn.log) ==> Timely()
    {
      hide OnTime, Progress, Settled, Processed, Recorded, UploadsNow;
      ProcessedExactly(env, rateLimit, turn, report);
      ReadingsGrow(env, rateLimit, turn, report);
      ProcessedProgresses(env, rateLimit, turn, report);
      if rateLimit && Pacing(env, turn.readings, turn.db.lastAttempt, turn.log) {
        ProcessedOnTimeExactly(env, turn, report);
      }
    }

    /** The known reports, some perhaps twice, completed or gone: none is pending unless stopped. */
    method ProcessKnown(uuids: seq<Uuid>) returns (stopped: bool)
      requires db.Valid()
      modifies this`readings, this`log, db
      ensures db.Valid() && Passed(env, old(State()), State(), uuids, |uuids|, stopped)
      ensures old(Timely()) ==> Timely()
    {
      hide OnTime, Passed, Advances;
      stopped := false;
      PassBegins(env, State(), uuids);
      for i := 0 to |uuids|
        invariant db.Valid() && Passed(env, old(State()), State(), uuids, i, false)
        invariant old(Timely()) ==> Timely()
      {
        ghost var before := State();
        var status, report := db.LookUpCrashReport(uuids[i]);
        if status != NoError {
          PassSkips(env, old(State()), State(), uuids, i);
          continue;
        }
        var running := ProcessOne(report.value);
        PassGoesOn(env, old(State()), before, State(), uuids, i, running);
        if !running {
          PassStops(env, old(State()), State(), uuids, i + 1);
          return true;
        }
      }
    }

    /** The listed reports that are not known ones: none listed is pending unless stopped. */
    method ProcessListed(reports: seq<Listed>, uuids: seq<Uuid>) returns (stopped: bool, ghost listed: seq<Uuid>)
      requires db.Valid()
      requires SettledAll(db.model, uuids, |uuids|)
      modifies this`readings, this`log, db
      ensures |listed| == |reports| && forall k :: 0 <= k < |reports| ==> listed[k] == reports[k].uuid
      ensures db.Valid() && Passed(env, old(State()), State(), listed, |listed|, stopped)
      ensures old(Timely()) ==> Timely()
    {
      hide OnTime, Passed, Advances;
      stopped := false;
      listed := seq(|reports|, k requires 0 <= k < |reports| => reports[k].uuid);
      PassBegins(env, State(), listed);
      for i := 0 to |reports|
        invariant db.Valid() && Passed(env, old(State()), State(), listed, i, false)
        invariant old(Timely()) ==> Timely()
      {
        if reports[i].uuid in uuids {
          StillSettled(env, old(State()), State(), listed, i, uuids, reports[i].uuid);
          PassSkips(env, old(State()), State(), listed, i);
          continue;
        }
        ghost var before := State();
        var running := ProcessOne(reports[i]);
        PassGoesOn(env, old(State()), before, State(), listed, i, running);
        if !running {
          PassStops(env, old(State()), State(), listed, i + 1);
          return true, listed;
        }
      }
    }

    /** One pass: the known reports first, then, when watching, all that are pending. Says whether it
        was stopped before its end; if not, and when watching, no report is pending any more: with
        Progress, each is completed, but for those that someone else was uploading all along. */
    method ProcessPendingReports() returns (stopped: bool)
      requires db.Valid()
      modifies this`known, this`readings, this`log, db
      ensures db.Valid() && Progress(old(db.model), db.model)
      ensures old(Timely()) ==> Timely()
      ensures !stopped ==> forall u :: u in old(known) ==> Settled(db.model, u)
      ensures !stopped && watchPendingReports ==> forall u :: Settled(db.model, u)
      ensures known == []
      ensures Bounded(env, old(State()), State(), stopped)
      ensures !watchPendingReports ==> OthersKept(old(db.model), db.model, old(known))
    {
      hide OnTime, Bounded, OthersKept;
      var uuids := known;
      known := [];
      stopped := ProcessKnown(uuids);
      if stopped || !watchPendingReports {
        return;
      }
      ghost var between := State();
      var reports := db.ReportsInState(Generic.PendingDir);
      ghost var listed;
      stopped, listed := ProcessListed(reports, uuids);
      BoundedTwice(env, old(State()), between, State(), stopped);
      ProgressTwice(old(db.model), between.db, db.model);
      if !stopped {
        AllSettled(between.db, db.model, reports, listed);
      }
    }
  }

  /** With all reports listed that were pending settled, and progress from there, all are. */
  lemma AllSettled(before: Db, after: Db, reports: seq<Listed>, listed: seq<Uuid>)
    requires IsListing(reports, before, Pending) && Progress(before, after)
    requires |listed| == |reports| && (forall k :: 0 <= k < |reports| ==> listed[k] == reports[k].uuid)
    requires SettledAll(after, listed, |listed|)
    ensures forall u :: Settled(after, u)
  {
    forall u
      ensures Settled(after, u)
    {
      if before.Is(u, Pending) {
        assert Listing(before, u) in reports;
        var k :| 0 <= k < |reports| && reports[k] == Listing(before, u);
        assert listed[k] == u;
      }
    }
  }

  // The hourly limit over any span of time

  /** How many uploads without request started in the span from t on that lasts w seconds. */
  function StartedWithin(log: seq<Attempt>, t: int, w: nat): nat {
    if log == [] then 0
    else
      var a := log[|log| - 1];
      StartedWithin(log[..|log| - 1], t, w) + if !a.requested && t <= a.start <= t + w then 1 else 0
  }

  /** Uploads that start an hour apart: at most one per hour of a span, and one more. */
  lemma {:induction false} HourlyLimit(log: seq<Attempt>, t: int, w: nat)
    requires Paced(log)
    ensures StartedWithin(log, t, w) <= w / UPLOAD_ATTEMPT_INTERVAL + 1
    decreases |log|, w
  {
    if log != [] {
      var before, a := log[..|log| - 1], log[|log| - 1];
      assert Paced(before);
      if !a.requested && t <= a.start <= t + w {
        if a.start - t < UPLOAD_ATTEMPT_INTERVAL {
          NoneBefore(before, t, w, a.start - UPLOAD_ATTEMPT_INTERVAL);
        } else {
          var w' := a.start - t - UPLOAD_ATTEMPT_INTERVAL;
          HourlyLimit(before, t, w');
          SameWithin(before, t, w, w');
        }
      } else {
        HourlyLimit(before, t, w);
      }
    }
  }

  lemma {:induction false} NoneBefore(log: seq<Attempt>, t: int, w: nat, bound: int)
    requires bound < t && forall i :: 0 <= i < |log| ==> log[i].start <= bound
    ensures StartedWithin(log, t, w) == 0
  {
    if log != [] {
      NoneBefore(log[..|log| - 1], t, w, bound);
    }
  }

  lemma {:induction false} SameWithin(log: seq<Attempt>, t: int, w: nat, w': nat)
    requires w' <= w && forall i :: 0 <= i < |log| ==> log[i].start <= t + w'
    ensures StartedWithin(log, t, w) == StartedWithin(log, t, w')
  {
    if log != [] {
      SameWithin(log[..|log| - 1], t, w, w');
    }
  }
}
