/** What the calls of a run and their answers say about a report, without any database: the last call of
    some kind that took effect decides each of its properties, and what is answered next. */
module History {
  import opened Bytes
  import opened Lifecycle
  import opened Runs

  /** What calls are looked at for. */
  datatype Aspect =
    | Existence  // is there a report
    | Draft      // is a dump being written
    | Dump       // the dump
    | Moves      // the phase
    | Request    // the request for upload
    | Attempt    // how the last upload went

  predicate Concerns(c: Call, aspect: Aspect) {
    match aspect
    case Existence => c.Finish? || c.Delete?
    case Draft => c.Prepare? || c.Finish?
    case Dump => c.Prepare?
    case Moves => c.Finish? || c.BeginUpload? || c.Complete? || c.Drop? || c.Skip? || c.RequestUpload?
    case Request => c.Finish? || c.RequestUpload? || c.Complete? || c.Skip?
    case Attempt => c.Finish? || c.Complete? || c.Drop?
  }

  /** The last call on a report that took effect and concerns an aspect of it. */
  function LastOn(calls: seq<Call>, answers: seq<Status>, u: Uuid, aspect: Aspect): Option<Call>
    requires |calls| == |answers|
  {
    if calls == [] then None
    else if Last(calls).u == u && Last(answers) == NoError && Concerns(Last(calls), aspect) then Some(Last(calls))
    else LastOn(Before(calls), Before(answers), u, aspect)
  }

  /** The last calls on a report that took effect, by aspect. */
  datatype Marks = Marks(existence: Option<Call>, draft: Option<Call>, dump: Option<Call>, moves: Option<Call>,
                         request: Option<Call>, attempt: Option<Call>)
  {
    predicate Exists() {
      existence.Some? && existence.value.Finish?
    }

    function Phase(): Phase {
      if moves.None? then Pending
      else
        match moves.value
        case BeginUpload(_) => Uploading
        case Complete(_, _, _) => Completed
        case Skip(_) => Completed
        case _ => Pending
    }
  }

  function MarksOf(calls: seq<Call>, answers: seq<Status>, u: Uuid): Marks
    requires |calls| == |answers|
  {
    Marks(LastOn(calls, answers, u, Existence), LastOn(calls, answers, u, Draft), LastOn(calls, answers, u, Dump),
          LastOn(calls, answers, u, Moves), LastOn(calls, answers, u, Request), LastOn(calls, answers, u, Attempt))
  }

  function Marked(m: Marks, c: Call, s: Status, u: Uuid): Marks {
    if c.u != u || s != NoError then m
    else
      Marks(if Concerns(c, Existence) then Some(c) else m.existence,
            if Concerns(c, Draft) then Some(c) else m.draft,
            if Concerns(c, Dump) then Some(c) else m.dump,
            if Concerns(c, Moves) then Some(c) else m.moves,
            if Concerns(c, Request) then Some(c) else m.request,
            if Concerns(c, Attempt) then Some(c) else m.attempt)
  }

  lemma {:induction false} MarkOne(calls: seq<Call>, answers: seq<Status>, u: Uuid)
    requires |calls| == |answers| && calls != []
    ensures MarksOf(calls, answers, u)
         == Marked(MarksOf(Before(calls), Before(answers), u), Last(calls), Last(answers), u)
  {
  }

  /** A report is as the last calls on it have left it: created when it was finished, as large as its dump
      was made, pending, in upload or completed by the last call that moved it, requested if a request
      was not followed by a success or by giving up, and uploaded, with identifier and time, as the last
      attempt went. */
  ghost predicate Tells(m: Marks, db: Db, u: Uuid) {
    && (u in db.reports <==> m.Exists())
    && (u in db.drafts <==> m.draft.Some? && m.draft.value.Prepare?)
    && (u in db.drafts ==> db.drafts[u] == m.draft.value.size && m.dump == m.draft)
    && (u in db.reports ==>
          var r := db.reports[u];
          && r.creation == m.existence.value.now
          && m.dump.Some? && m.dump.value.Prepare? && r.size == m.dump.value.size
          && m.moves.Some? && r.phase == m.Phase()
          && m.request.Some? && r.requested == m.request.value.RequestUpload?
          && m.attempt.Some? && r.uploaded == m.attempt.value.Complete?
          && r.lastAttempt == AttemptTime(m.attempt.value)
          && r.id == if m.attempt.value.Complete? then m.attempt.value.id else [])
  }

  function AttemptTime(c: Call): int {
    match c
    case Complete(_, _, now) => now
    case Drop(_, now) => now
    case _ => 0
  }

  lemma StepTells(m: Marks, db: Db, c: Call, u: Uuid)
    requires Enabled(db, c) && AllSound(db) && Tells(m, db, u)
    ensures Tells(Marked(m, c, Step(db, c).1, u), Step(db, c).0, u)
  {
    if c.u != u {
      OthersUntouched(db, c, u);
    }
  }

  lemma OthersUntouched(db: Db, c: Call, u: Uuid)
    requires Enabled(db, c) && c.u != u
    ensures var db' := Step(db, c).0;
            && (u in db'.reports <==> u in db.reports) && (u in db.reports ==> db'.reports[u] == db.reports[u])
            && (u in db'.drafts <==> u in db.drafts) && (u in db.drafts ==> db'.drafts[u] == db.drafts[u])
  {
  }

  lemma {:induction false} AnswersLength(calls: seq<Call>)
    requires Legal(calls)
    ensures |Answers(calls)| == |calls|
    ensures calls != [] ==>
              Before(Answers(calls)) == Answers(Before(calls))
              && Last(Answers(calls)) == Step(Run(Before(calls)), Last(calls)).1
  {
    if calls != [] {
      AnswersLength(Before(calls));
    }
  }

  /** In every run, every report is what the calls and their answers say. */
  lemma {:induction false} HistoryTells(calls: seq<Call>, u: Uuid)
    requires Legal(calls)
    ensures |Answers(calls)| == |calls| && Tells(MarksOf(calls, Answers(calls), u), Run(calls), u)
  {
    AnswersLength(calls);
    if calls != [] {
      HistoryTells(Before(calls), u);
      RunsAreSound(Before(calls));
      MarkOne(calls, Answers(calls), u);
      StepTells(MarksOf(Before(calls), Answers(Before(calls)), u), Run(Before(calls)), Last(calls), u);
      hide Tells, Marked, MarksOf, Enabled, Step;
    }
  }

  /** What a call is answered, by the last calls on its report: busy during an upload; not found if there
      is no report, or none that is pending where it has to be; and no request for what was uploaded. */
  function Answer(m: Marks, c: Call): Status {
    if c.Prepare? || c.Finish? || c.Complete? || c.Drop? then NoError
    else if !m.Exists() then ReportNotFound
    else if m.Phase() == Uploading then BusyError
    else if (c.BeginUpload? || c.Skip?) && m.Phase() == Completed then ReportNotFound
    else if c.RequestUpload? && m.attempt.Some? && m.attempt.value.Complete? then CannotRequestUpload
    else NoError
  }

  /** In every run, every call is answered as the calls before it say. */
  lemma {:induction false} HistoryAnswers(calls: seq<Call>)
    requires Legal(calls) && calls != []
    ensures |Answers(Before(calls))| == |Before(calls)| && Answers(calls) != []
    ensures Last(Answers(calls)) == Answer(MarksOf(Before(calls), Answers(Before(calls)), Last(calls).u), Last(calls))
  {
    AnswersLength(calls);
    HistoryTells(Before(calls), Last(calls).u);
    AnswerAgrees(MarksOf(Before(calls), Answers(Before(calls)), Last(calls).u), Run(Before(calls)), Last(calls));
    hide Tells, MarksOf, Step, Answer;
  }

  lemma AnswerAgrees(m: Marks, db: Db, c: Call)
    requires Enabled(db, c) && Tells(m, db, c.u)
    ensures Step(db, c).1 == Answer(m, c)
  {
  }

  /** What a lookup or a listing returns of a report is what its history says. */
  lemma LookUpTells(calls: seq<Call>, u: Uuid, layout: Layout)
    requires Legal(calls) && u in Run(calls).reports
    ensures |Answers(calls)| == |calls|
    ensures var m, x := MarksOf(calls, Answers(calls), u), Listing(Run(calls), u, layout);
            && x.uuid == u
            && m.Exists() && x.creation == m.existence.value.now
            && m.dump.Some? && m.dump.value.Prepare? && x.size == m.dump.value.size
            && m.request.Some? && x.requested == m.request.value.RequestUpload?
            && m.attempt.Some? && x.uploaded == m.attempt.value.Complete?
            && x.lastAttempt == AttemptTime(m.attempt.value)
            && x.id == (if m.attempt.value.Complete? then m.attempt.value.id else [])
            && x.folder == (if layout == AllInOne then ReportsFolder
                            else if m.Phase() == Completed then CompletedFolder else PendingFolder)
    ensures NoReuse(calls) ==> Listing(Run(calls), u, layout).attempts == EndedHandles(calls, u)
  {
    HistoryTells(calls, u);
    if NoReuse(calls) {
      HandlesAreCounted(calls, u);
    }
    hide MarksOf, EndedHandles;
  }

  /** The time in the settings is that of the last attempt on any report. */
  function LastEnd(calls: seq<Call>): int {
    if calls == [] then 0
    else if Last(calls).Complete? || Last(calls).Drop? then Last(calls).now
    else LastEnd(Before(calls))
  }

  lemma {:induction false} SettingsTell(calls: seq<Call>)
    requires Legal(calls)
    ensures Run(calls).lastAttempt == LastEnd(calls)
  {
    if calls != [] {
      SettingsTell(Before(calls));
    }
  }
}
