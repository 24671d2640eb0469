/** Pruning: reports are judged from the newest to the oldest by a condition that may keep count. */
module PruneReports {
  import opened Bytes
  import opened Lifecycle
  import Generic = GenericDatabase

  const SECONDS_IN_DAY: int := 60 * 60 * 24

  datatype Operator = And | Or

  datatype Condition =
    | Age(oldest: int)
    | DatabaseSize(maxKb: nat, measuredKb: nat)
    | Binary(op: Operator, lhs: Condition, rhs: Condition)

  /** The size of a report, rounded up to KB in 64-bit arithmetic. */
  function Kb(size: nat): nat {
    (size + 1023) % TWO_64 / 1024
  }

  /** Whether a report is to be pruned, and the condition afterwards. The right-hand side is only
      asked if the left-hand side does not decide. */
  function Judge(c: Condition, r: Listed): (bool, Condition) {
    match c
    case Age(oldest) => (r.creation < oldest, c)
    case DatabaseSize(max, measured) =>
      var sum := (measured + Kb(r.size)) % TWO_64;
      (sum > max, DatabaseSize(max, sum))
    case Binary(op, lhs, rhs) =>
      var (left, lhs') := Judge(lhs, r);
      if left == op.Or? then (left, Binary(op, lhs', rhs))
      else
        var (right, rhs') := Judge(rhs, r);
        (right, Binary(op, lhs', rhs'))
  }

  /** No report counts for more than this. */
  const MAX_REPORT_KB: nat := TWO_64 / 1024

  /** A binary condition prunes what both or one of its sides would; the left side is always asked, the
      right side exactly if that leaves it open, and a side that is not asked does not count. */
  lemma BinaryDecides(op: Operator, lhs: Condition, rhs: Condition, r: Listed)
    ensures Judge(Binary(And, lhs, rhs), r).0 <==> Judge(lhs, r).0 && Judge(rhs, r).0
    ensures Judge(Binary(Or, lhs, rhs), r).0 <==> Judge(lhs, r).0 || Judge(rhs, r).0
    ensures var c := Judge(Binary(op, lhs, rhs), r).1;
            && c.Binary? && c.op == op && c.lhs == Judge(lhs, r).1
            && c.rhs == if Judge(lhs, r).0 == (op == Or) then rhs else Judge(rhs, r).1
  {
  }

  function TotalKb(reports: seq<Listed>): nat {
    if reports == [] then 0 else Kb(reports[0].size) + TotalKb(reports[1..])
  }

  /** Counting further kb does not overflow. */
  predicate Fits(c: Condition, kb: nat) {
    match c
    case Age(_) => true
    case DatabaseSize(_, measured) => measured + kb < TWO_64
    case Binary(_, lhs, rhs) => Fits(lhs, kb) && Fits(rhs, kb)
  }

  predicate NewestFirst(reports: seq<Listed>) {
    forall i, j :: 0 <= i < j < |reports| ==> reports[i].creation >= reports[j].creation
  }

  /** The condition after judging some reports, and how many come before the first to be pruned. */
  function After(c: Condition, reports: seq<Listed>): Condition
    decreases |reports|
  {
    if reports == [] then c else After(Judge(c, reports[0]).1, reports[1..])
  }

  /** Judged in turn, report i is to be pruned. */
  predicate PrunedAt(c: Condition, reports: seq<Listed>, i: nat)
    requires i < |reports|
  {
    Judge(After(c, reports[..i]), reports[i]).0
  }

  function KeepCount(c: Condition, reports: seq<Listed>): (k: nat)
    ensures k <= |reports|
    decreases |reports|
  {
    if reports == [] || Judge(c, reports[0]).0 then 0 else 1 + KeepCount(Judge(c, reports[0]).1, reports[1..])
  }

  /** The condition prunes every report that is not newer than t. */
  predicate Triggered(c: Condition, t: int) {
    match c
    case Age(oldest) => t < oldest
    case DatabaseSize(max, measured) => measured > max
    case Binary(And, lhs, rhs) => Triggered(lhs, t) && Triggered(rhs, t)
    case Binary(Or, lhs, rhs) => Triggered(lhs, t) || Triggered(rhs, t)
  }

  lemma {:induction false} PruningTriggers(c: Condition, r: Listed)
    requires Judge(c, r).0
    ensures Triggered(Judge(c, r).1, r.creation)
  {
    if c.Binary? {
      if Judge(c.lhs, r).0 {
        PruningTriggers(c.lhs, r);
      }
      if Judge(c.rhs, r).0 {
        PruningTriggers(c.rhs, r);
      }
    }
  }

  lemma {:induction false} TriggeredPrunes(c: Condition, t: int, r: Listed)
    requires Triggered(c, t) && r.creation <= t && Fits(c, Kb(r.size))
    ensures Judge(c, r).0
  {
    if c.Binary? {
      if Triggered(c.lhs, t) {
        TriggeredPrunes(c.lhs, t, r);
      }
      if Triggered(c.rhs, t) {
        TriggeredPrunes(c.rhs, t, r);
      }
    }
  }

  lemma {:induction false} JudgingFits(c: Condition, r: Listed, kb: nat)
    requires Fits(c, Kb(r.size) + kb)
    ensures Fits(Judge(c, r).1, kb)
  {
    if c.Binary? {
      JudgingFits(c.lhs, r, kb);
      JudgingFits(c.rhs, r, kb);
      LessFits(c.rhs, Kb(r.size) + kb, kb);
    }
  }

  lemma {:induction false} LessFits(c: Condition, kb: nat, less: nat)
    requires Fits(c, kb) && less <= kb
    ensures Fits(c, less)
  {
    if c.Binary? {
      LessFits(c.lhs, kb, less);
      LessFits(c.rhs, kb, less);
    }
  }

  lemma AfterMore(c: Condition, reports: seq<Listed>, i: nat)
    requires 0 < i <= |reports|
    ensures After(c, reports[..i]) == After(Judge(c, reports[0]).1, reports[1..][..i - 1])
  {
    assert reports[..i][1..] == reports[1..][..i - 1];
  }

  lemma {:induction false} AllPruned(c: Condition, t: int, reports: seq<Listed>, i: nat)
    requires Triggered(c, t) && NewestFirst(reports) && i < |reports| && reports[0].creation <= t
    requires Fits(c, TotalKb(reports))
    ensures PrunedAt(c, reports, i)
    decreases |reports|
  {
    var r := reports[0];
    LessFits(c, TotalKb(reports), Kb(r.size));
    TriggeredPrunes(c, t, r);
    if i > 0 {
      PruningTriggers(c, r);
      JudgingFits(c, r, TotalKb(reports[1..]));
      AfterMore(c, reports, i);
      hide Judge, After;
      AllPruned(Judge(c, r).1, r.creation, reports[1..], i - 1);
    }
  }

  /** Whatever the condition, as long as its counts do not overflow, those that stay are the newest ones:
      once one report is pruned, so are all that are older. */
  lemma {:induction false} SurvivorsAreNewest(c: Condition, reports: seq<Listed>, i: nat)
    requires NewestFirst(reports) && i < |reports| && Fits(c, TotalKb(reports))
    ensures PrunedAt(c, reports, i) <==> KeepCount(c, reports) <= i
    decreases |reports|
  {
    var r := reports[0];
    if i > 0 {
      AfterMore(c, reports, i);
      JudgingFits(c, r, TotalKb(reports[1..]));
      hide Judge, After;
      if Judge(c, r).0 {
        PruningTriggers(c, r);
        AllPruned(Judge(c, r).1, r.creation, reports[1..], i - 1);
      } else {
        SurvivorsAreNewest(Judge(c, r).1, reports[1..], i - 1);
      }
    }
  }

  /** The limits that the condition for size, and the default condition, put on those that stay. */
  predicate Within(reports: seq<Listed>, maxKb: nat, measuredKb: nat, oldest: int) {
    measuredKb + TotalKb(reports) <= maxKb && forall i :: 0 <= i < |reports| ==> reports[i].creation >= oldest
  }

  lemma WithinMore(reports: seq<Listed>, j: nat, maxKb: nat, measuredKb: nat, oldest: int)
    requires 0 < j <= |reports|
    ensures Within(reports[..j], maxKb, measuredKb, oldest)
       <==> reports[0].creation >= oldest && Within(reports[1..][..j - 1], maxKb, measuredKb + Kb(reports[0].size), oldest)
  {
    var p, q := reports[..j], reports[1..][..j - 1];
    assert p[1..] == q;
    assert forall i :: 0 <= i < |q| ==> q[i] == p[i + 1];
    if Within(p, maxKb, measuredKb, oldest) {
      assert p[0].creation >= oldest;
    }
  }

  lemma {:induction false} KeepOne(reports: seq<Listed>, maxKb: nat, measuredKb: nat, oldest: int)
    requires reports != [] && measuredKb + Kb(reports[0].size) < TWO_64
    ensures var r, kb := reports[0], measuredKb + Kb(reports[0].size);
            && KeepCount(DatabaseSize(maxKb, measuredKb), reports)
               == (if kb > maxKb then 0 else 1 + KeepCount(DatabaseSize(maxKb, kb), reports[1..]))
            && KeepCount(Binary(Or, DatabaseSize(maxKb, measuredKb), Age(oldest)), reports)
               == (if kb > maxKb || r.creation < oldest then 0
                   else 1 + KeepCount(Binary(Or, DatabaseSize(maxKb, kb), Age(oldest)), reports[1..]))
  {
    var r, kb := reports[0], measuredKb + Kb(reports[0].size);
    assert kb % TWO_64 == kb;
    assert Judge(DatabaseSize(maxKb, measuredKb), r) == (kb > maxKb, DatabaseSize(maxKb, kb));
    var c := Binary(Or, DatabaseSize(maxKb, measuredKb), Age(oldest));
    var c' := Binary(Or, DatabaseSize(maxKb, kb), Age(oldest));
    assert Judge(Age(oldest), r) == (r.creation < oldest, Age(oldest));
    assert Judge(c, r) == (kb > maxKb || r.creation < oldest, c');
    hide Kb, Judge;
  }

  /** With conditions for size and age the reports before the first one to be pruned are the longest run
      of newest ones that is within both limits, whatever the rest adds up to. */
  lemma {:induction false} BothKeepLongest(reports: seq<Listed>, maxKb: nat, measuredKb: nat, oldest: int, j: nat)
    requires measuredKb <= maxKb && maxKb + MAX_REPORT_KB <= TWO_64 && j <= |reports|
    ensures j <= KeepCount(Binary(Or, DatabaseSize(maxKb, measuredKb), Age(oldest)), reports)
       <==> Within(reports[..j], maxKb, measuredKb, oldest)
    decreases |reports|
  {
    if j > 0 {
      var r, kb := reports[0], measuredKb + Kb(reports[0].size);
      WithinMore(reports, j, maxKb, measuredKb, oldest);
      KeepOne(reports, maxKb, measuredKb, oldest);
      hide KeepCount, Kb;
      if kb <= maxKb {
        BothKeepLongest(reports[1..], maxKb, kb, oldest, j - 1);
      }
    }
  }

  /** With a fresh condition for size alone, those before the first one to be pruned are the longest run
      of newest ones whose sizes, rounded up to KB, add up to no more than the limit. */
  lemma {:induction false} SizeKeepsLongest(reports: seq<Listed>, maxKb: nat, measuredKb: nat, j: nat)
    requires measuredKb <= maxKb && maxKb + MAX_REPORT_KB <= TWO_64 && j <= |reports|
    ensures j <= KeepCount(DatabaseSize(maxKb, measuredKb), reports) <==> measuredKb + TotalKb(reports[..j]) <= maxKb
    decreases |reports|
  {
    if j > 0 {
      var kb := measuredKb + Kb(reports[0].size);
      assert reports[..j][1..] == reports[1..][..j - 1];
      KeepOne(reports, maxKb, measuredKb, 0);
      hide KeepCount, Kb;
      if kb <= maxKb {
        SizeKeepsLongest(reports[1..], maxKb, kb, j - 1);
      }
    }
  }

  // Totals of 2^64 KB and more

  lemma {:induction false} TotalOneMore(reports: seq<Listed>, i: nat)
    requires i < |reports|
    ensures TotalKb(reports[..i + 1]) == TotalKb(reports[..i]) + Kb(reports[i].size)
  {
    if i == 0 {
      assert reports[..1][1..] == [] && reports[..0] == [];
    } else {
      assert reports[..i + 1][1..] == reports[1..][..i] && reports[..i][1..] == reports[1..][..i - 1];
      TotalOneMore(reports[1..], i - 1);
    }
  }

  /** The condition for size counts modulo 2^64. */
  lemma {:induction false} SizeCountsModulo(reports: seq<Listed>, maxKb: nat, i: nat)
    requires i <= |reports|
    ensures After(DatabaseSize(maxKb, 0), reports[..i]) == DatabaseSize(maxKb, TotalKb(reports[..i]) % TWO_64)
    decreases i
  {
    if i > 0 {
      SizeCountsModulo(reports, maxKb, i - 1);
      TotalOneMore(reports, i - 1);
      AfterOne(DatabaseSize(maxKb, 0), reports, i - 1);
      AddModulo(TotalKb(reports[..i - 1]), Kb(reports[i - 1].size));
    }
  }

  lemma AddModulo(a: nat, b: nat)
    ensures (a % TWO_64 + b) % TWO_64 == (a + b) % TWO_64
  {
  }

  /** The reports up to report i exceed the limit. */
  predicate Exceeds(reports: seq<Listed>, i: nat, maxKb: nat)
    requires i < |reports|
  {
    TotalKb(reports[..i + 1]) > maxKb
  }

  /** A report is pruned for size exactly if the reports up to it exceed the limit, if and only if no
      total that exceeds it comes back under it modulo 2^64. */
  lemma SizePrunesExactly(reports: seq<Listed>, maxKb: nat)
    requires maxKb < TWO_64
    ensures (forall i :: 0 <= i < |reports| && Exceeds(reports, i, maxKb) ==> TotalKb(reports[..i + 1]) % TWO_64 > maxKb)
       <==> forall i :: 0 <= i < |reports| ==> (PrunedAt(DatabaseSize(maxKb, 0), reports, i) <==> Exceeds(reports, i, maxKb))
  {
    forall i | 0 <= i < |reports|
      ensures PrunedAt(DatabaseSize(maxKb, 0), reports, i) <==> TotalKb(reports[..i + 1]) % TWO_64 > maxKb
    {
      PrunedModulo(reports, maxKb, i);
    }
    hide PrunedAt, TotalKb;
  }

  lemma PrunedModulo(reports: seq<Listed>, maxKb: nat, i: nat)
    requires i < |reports|
    ensures PrunedAt(DatabaseSize(maxKb, 0), reports, i) <==> TotalKb(reports[..i + 1]) % TWO_64 > maxKb
  {
    SizeCountsModulo(reports, maxKb, i);
    TotalOneMore(reports, i);
    AddModulo(TotalKb(reports[..i]), Kb(reports[i].size));
  }

  lemma {:induction false} TotalOfSame(r: Listed, n: nat)
    ensures TotalKb(seq(n, i => r)) == n * Kb(r.size)
  {
    if n > 0 {
      assert seq(n, i => r)[1..] == seq(n - 1, i => r);
      TotalOfSame(r, n - 1);
    }
  }

  /** A report that is spared because the total has wrapped around. */
  lemma WrappedTotalSpares(maxKb: nat, big: Listed, small: Listed)
    requires maxKb < TWO_64 && big.size == TWO_64 - 1024 && small.size == 1024 * 1024
    ensures var reports := seq(1024, i => big) + [small];
            Exceeds(reports, 1024, maxKb) && !PrunedAt(DatabaseSize(maxKb, 0), reports, 1024)
  {
    var reports := seq(1024, i => big) + [small];
    assert reports[..1024] == seq(1024, i => big);
    TotalOfSame(big, 1024);
    PrunedModulo(reports, maxKb, 1024);
    TotalOneMore(reports, 1024);
    assert Kb(big.size) == TWO_64 / 1024 - 1 && Kb(small.size) == 1024;
  }

  // The default condition

  const DEFAULT_MAX_KB: nat := 1024 * 128
  const DEFAULT_MAX_AGE_IN_DAYS: int := 365

  /** Integer division that rounds toward zero. */
  function Quotient(a: int, b: int): int
    requires b > 0
  {
    if a >= 0 then a / b else -(-a / b)
  }

  /** Reports older than this are pruned: the age limit, at the start of its day. */
  function OldestReportTime(now: int, maxAgeInDays: int): int {
    Quotient(now - maxAgeInDays * SECONDS_IN_DAY, SECONDS_IN_DAY) * SECONDS_IN_DAY
  }

  function Default(now: int): Condition {
    Binary(Or, DatabaseSize(DEFAULT_MAX_KB, 0), Age(OldestReportTime(now, DEFAULT_MAX_AGE_IN_DAYS)))
  }

  /** With the default condition the reports before the first one to be pruned are the longest run of newest
      ones of at most 128 MB, none from before the age limit. */
  lemma DefaultKeepsLongest(reports: seq<Listed>, now: int, j: nat)
    requires j <= |reports|
    ensures j <= KeepCount(Default(now), reports)
       <==> Within(reports[..j], DEFAULT_MAX_KB, 0, OldestReportTime(now, DEFAULT_MAX_AGE_IN_DAYS))
  {
    BothKeepLongest(reports, DEFAULT_MAX_KB, 0, OldestReportTime(now, DEFAULT_MAX_AGE_IN_DAYS), j);
  }

  lemma {:induction false} DefaultCountsModulo(reports: seq<Listed>, now: int, i: nat)
    requires i <= |reports|
    ensures After(Default(now), reports[..i])
         == Binary(Or, DatabaseSize(DEFAULT_MAX_KB, TotalKb(reports[..i]) % TWO_64),
                   Age(OldestReportTime(now, DEFAULT_MAX_AGE_IN_DAYS)))
    decreases i
  {
    if i > 0 {
      DefaultCountsModulo(reports, now, i - 1);
      TotalOneMore(reports, i - 1);
      AfterOne(Default(now), reports, i - 1);
      AddModulo(TotalKb(reports[..i - 1]), Kb(reports[i - 1].size));
      JudgeDefault(TotalKb(reports[..i - 1]) % TWO_64, OldestReportTime(now, DEFAULT_MAX_AGE_IN_DAYS), reports[i - 1]);
      hide Judge, After, TotalKb, Kb;
    }
  }

  lemma JudgeDefault(measuredKb: nat, oldest: int, r: Listed)
    ensures var kb := (measuredKb + Kb(r.size)) % TWO_64;
            Judge(Binary(Or, DatabaseSize(DEFAULT_MAX_KB, measuredKb), Age(oldest)), r)
            == (kb > DEFAULT_MAX_KB || r.creation < oldest, Binary(Or, DatabaseSize(DEFAULT_MAX_KB, kb), Age(oldest)))
  {
    hide Kb;
    var kb := (measuredKb + Kb(r.size)) % TWO_64;
    assert Judge(DatabaseSize(DEFAULT_MAX_KB, measuredKb), r) == (kb > DEFAULT_MAX_KB, DatabaseSize(DEFAULT_MAX_KB, kb));
    assert Judge(Age(oldest), r) == (r.creation < oldest, Age(oldest));
  }

  /** The default condition prunes a report exactly if it is from before the age limit, or the reports up
      to it, counted modulo 2^64, exceed 128 MB: a report pruned for its age counts for its size too. */
  lemma DefaultPrunesExactly(reports: seq<Listed>, now: int, i: nat)
    requires i < |reports|
    ensures PrunedAt(Default(now), reports, i)
       <==> TotalKb(reports[..i + 1]) % TWO_64 > 128 * 1024
            || reports[i].creation < OldestReportTime(now, 365)
  {
    DefaultCountsModulo(reports, now, i);
    TotalOneMore(reports, i);
    AddModulo(TotalKb(reports[..i]), Kb(reports[i].size));
    JudgeDefault(TotalKb(reports[..i]) % TWO_64, OldestReportTime(now, DEFAULT_MAX_AGE_IN_DAYS), reports[i]);
    hide Judge, After, TotalKb, Kb;
  }

  /** The size in KB is the smallest that holds the report, exactly if rounding up does not overflow. */
  lemma KbRoundsUpExactly(size: nat)
    requires size < TWO_64
    ensures size <= 1024 * Kb(size) < size + 1024 <==> size + 1023 < TWO_64
  {
    if size + 1023 >= TWO_64 {
      assert (size + 1023) % TWO_64 == size + 1023 - TWO_64;
    }
  }

  /** A report that is a day past the limit is always pruned. */
  lemma AgePrunesOld(now: int, maxAgeInDays: int, r: Listed)
    requires r.creation <= now - (maxAgeInDays + 1) * SECONDS_IN_DAY
    ensures Judge(Age(OldestReportTime(now, maxAgeInDays)), r).0
  {
  }

  /** No report is pruned for its age before it is past the limit, exactly if the limit lies after
      the epoch or at the start of a day: before the epoch, rounding goes the other way. */
  lemma AgeSparesYoungExactly(now: int, maxAgeInDays: int)
    ensures (var limit := now - maxAgeInDays * SECONDS_IN_DAY; limit >= 0 || limit % SECONDS_IN_DAY == 0)
       <==> forall r: Listed :: r.creation >= now - maxAgeInDays * SECONDS_IN_DAY ==>
              !Judge(Age(OldestReportTime(now, maxAgeInDays)), r).0
  {
    var limit := now - maxAgeInDays * SECONDS_IN_DAY;
    var r := Listed(0, PendingFolder, 0, limit, 0, 0, false, false, []);
    if limit < 0 && limit % SECONDS_IN_DAY != 0 {
      assert Judge(Age(OldestReportTime(now, maxAgeInDays)), r).0;
    }
  }

  // Pruning a database

  predicate DistinctUuids(reports: seq<Listed>) {
    forall i, j :: 0 <= i < j < |reports| ==> reports[i].uuid != reports[j].uuid
  }

  lemma InsertedInOrder(sorted: seq<Listed>, r: Listed, i: nat, s: seq<Listed>)
    requires NewestFirst(sorted) && DistinctUuids(sorted) && i <= |sorted| && s == sorted[..i] + [r] + sorted[i..]
    requires forall k :: 0 <= k < |sorted| ==> sorted[k].uuid != r.uuid
    requires forall k :: 0 <= k < i ==> sorted[k].creation >= r.creation
    requires forall k :: i <= k < |sorted| ==> sorted[k].creation < r.creation
    ensures NewestFirst(s) && DistinctUuids(s)
  {
    assert forall k :: 0 <= k < i ==> s[k] == sorted[k];
    assert s[i] == r;
    assert forall k :: i < k < |s| ==> s[k] == sorted[k - 1];
  }

  lemma Inserted(sorted: seq<Listed>, r: Listed, i: nat, s: seq<Listed>)
    requires NewestFirst(sorted) && DistinctUuids(sorted) && forall k :: 0 <= k < |sorted| ==> sorted[k].uuid != r.uuid
    requires i <= |sorted| && s == sorted[..i] + [r] + sorted[i..]
    requires i > 0 ==> sorted[i - 1].creation >= r.creation
    requires forall k :: i <= k < |sorted| ==> sorted[k].creation < r.creation
    ensures NewestFirst(s) && DistinctUuids(s)
    ensures forall x :: x in s <==> x == r || x in sorted
  {
    assert forall k :: 0 <= k < i - 1 ==> sorted[k].creation >= sorted[i - 1].creation;
    InsertedInOrder(sorted, r, i, s);
    hide NewestFirst, DistinctUuids;
    assert sorted == sorted[..i] + sorted[i..];
  }

  method InsertByAge(sorted: seq<Listed>, r: Listed) returns (s: seq<Listed>)
    requires NewestFirst(sorted) && DistinctUuids(sorted) && forall k :: 0 <= k < |sorted| ==> sorted[k].uuid != r.uuid
    ensures NewestFirst(s) && DistinctUuids(s) && |s| == |sorted| + 1
    ensures forall x :: x in s <==> x == r || x in sorted
  {
    var i := |sorted|;
    while i > 0 && sorted[i - 1].creation < r.creation
      invariant 0 <= i <= |sorted|
      invariant forall k :: i <= k < |sorted| ==> sorted[k].creation < r.creation
    {
      i := i - 1;
    }
    s := sorted[..i] + [r] + sorted[i..];
    Inserted(sorted, r, i, s);
  }

  /** A sort by age; which of several reports of one time comes first is open to callers. */
  method SortByAge(reports: seq<Listed>) returns (s: seq<Listed>)
    requires DistinctUuids(reports)
    ensures NewestFirst(s) && DistinctUuids(s) && |s| == |reports|
    ensures forall x :: x in s <==> x in reports
  {
    s := [];
    for i := 0 to |reports|
      invariant NewestFirst(s) && DistinctUuids(s) && |s| == i
      invariant forall x :: x in s <==> x in reports[..i]
    {
      var r := reports[i];
      forall k | 0 <= k < |s|
        ensures s[k].uuid != r.uuid
      {
        assert s[k] in reports[..i];
      }
      assert reports[..i + 1] == reports[..i] + [r];
      s := InsertByAge(s, r);
    }
    assert reports[..|reports|] == reports;
  }

  /** order lists the reports that are not being uploaded, the newest first. */
  ghost predicate IsOrder(order: seq<Listed>, db: Db) {
    && NewestFirst(order)
    && DistinctUuids(order)
    && (forall i :: 0 <= i < |order| ==>
          && order[i].uuid in db.reports && db.reports[order[i].uuid].phase != Uploading
          && order[i] == Listing(db, order[i].uuid))
    && (forall u :: u in db.reports && db.reports[u].phase != Uploading ==> Listing(db, u) in order)
  }

  lemma ListingsAreDistinct(pending: seq<Listed>, completed: seq<Listed>, db: Db)
    requires IsListing(pending, db, Pending) && IsListing(completed, db, Completed)
    ensures DistinctUuids(pending + completed)
  {
  }

  lemma SortedListings(pending: seq<Listed>, completed: seq<Listed>, order: seq<Listed>, db: Db)
    requires IsListing(pending, db, Pending) && IsListing(completed, db, Completed)
    requires NewestFirst(order) && DistinctUuids(order) && forall x :: x in order <==> x in pending + completed
    ensures IsOrder(order, db)
  {
    forall i | 0 <= i < |order|
      ensures order[i].uuid in db.reports && db.reports[order[i].uuid].phase != Uploading
      ensures order[i] == Listing(db, order[i].uuid)
    {
      assert order[i] in order && order[i] in pending + completed;
      assert order[i] in pending || order[i] in completed;
    }
    forall u | u in db.reports && db.reports[u].phase != Uploading
      ensures Listing(db, u) in order
    {
      assert Listing(db, u) in pending || Listing(db, u) in completed;
    }
  }

  /** How many of the first n reports of an order are to be pruned. */
  function CountPruned(c: Condition, order: seq<Listed>, n: nat): nat
    requires n <= |order|
  {
    if n == 0 then 0 else CountPruned(c, order, n - 1) + if PrunedAt(c, order, n - 1) then 1 else 0
  }

  /** A report is among the first n of an order and to be pruned. */
  ghost predicate PrunedAmong(c: Condition, order: seq<Listed>, n: nat, u: Uuid) {
    exists j :: 0 <= j < n && j < |order| && order[j].uuid == u && PrunedAt(c, order, j)
  }

  /** What is left of a database: all but those of the first n reports of an order that are to be pruned. */
  ghost predicate Pruned(before: Db, after: Db, c: Condition, order: seq<Listed>, n: nat) {
    && after.drafts == before.drafts && after.lastAttempt == before.lastAttempt
    && (forall u :: u in after.reports ==> u in before.reports && after.reports[u] == before.reports[u])
    && (forall u :: u in before.reports ==> (u !in after.reports <==> PrunedAmong(c, order, n, u)))
  }

  lemma PrunedAmongMore(c: Condition, order: seq<Listed>, n: nat, u: Uuid)
    requires n < |order|
    ensures PrunedAmong(c, order, n + 1, u)
       <==> PrunedAmong(c, order, n, u) || (order[n].uuid == u && PrunedAt(c, order, n))
  {
    hide PrunedAt;
    if PrunedAmong(c, order, n, u) {
      var j :| 0 <= j < n && order[j].uuid == u && PrunedAt(c, order, j);
    }
  }

  lemma DeleteOne(before: Db, db: Db, c: Condition, order: seq<Listed>, i: nat)
    requires IsOrder(order, before) && i < |order| && Pruned(before, db, c, order, i) && PrunedAt(c, order, i)
    ensures Step(db, Delete(order[i].uuid)).1 == NoError
    ensures Pruned(before, Step(db, Delete(order[i].uuid)).0, c, order, i + 1)
  {
    hide PrunedAt;
    var u := order[i].uuid;
    assert !PrunedAmong(c, order, i, u);
    assert u in db.reports && db.reports[u] == before.reports[u];
    forall v
      ensures PrunedAmong(c, order, i + 1, v) <==> PrunedAmong(c, order, i, v) || v == u
    {
      PrunedAmongMore(c, order, i, v);
    }
    hide IsOrder, PrunedAmong;
  }

  lemma KeepOther(before: Db, db: Db, c: Condition, order: seq<Listed>, i: nat)
    requires i < |order| && Pruned(before, db, c, order, i) && !PrunedAt(c, order, i)
    ensures Pruned(before, db, c, order, i + 1)
  {
    forall v
      ensures PrunedAmong(c, order, i + 1, v) <==> PrunedAmong(c, order, i, v)
    {
      PrunedAmongMore(c, order, i, v);
    }
    hide PrunedAt, PrunedAmong;
  }

  /** As long as counts do not overflow, those that are pruned are the ones behind the first KeepCount. */
  lemma {:induction false} PrunedAreBehind(c: Condition, order: seq<Listed>, n: nat)
    requires NewestFirst(order) && Fits(c, TotalKb(order)) && n <= |order|
    ensures var k := KeepCount(c, order); CountPruned(c, order, n) == if n <= k then 0 else n - k
    ensures forall u: Uuid :: PrunedAmong(c, order, n, u) <==> exists j :: KeepCount(c, order) <= j < n && order[j].uuid == u
  {
    hide PrunedAt, Fits, TotalKb, KeepCount, NewestFirst;
    forall j | 0 <= j < n
      ensures PrunedAt(c, order, j) <==> KeepCount(c, order) <= j
    {
      SurvivorsAreNewest(c, order, j);
    }
    if n > 0 {
      PrunedAreBehind(c, order, n - 1);
    }
  }

  /** Judges reports from the newest to the oldest and deletes those to be pruned. */
  method PruneOrdered(db: Generic.Database, condition: Condition, order: seq<Listed>)
      returns (numPruned: nat, condition': Condition)
    requires db.Valid() && IsOrder(order, db.model)
    modifies db
    ensures db.Valid() && condition' == After(condition, order)
    ensures Pruned(old(db.model), db.model, condition, order, |order|)
    ensures numPruned == CountPruned(condition, order, |order|)
  {
    hide IsOrder, Pruned, Judge, After;
    numPruned, condition' := 0, condition;
    NothingPruned(db.model, condition, order);
    for i := 0 to |order|
      invariant db.Valid()
      invariant condition' == After(condition, order[..i])
      invariant Pruned(old(db.model), db.model, condition, order, i)
      invariant numPruned == CountPruned(condition, order, i)
    {
      if PrunedAt(condition, order, i) {
        DeleteOne(old(db.model), db.model, condition, order, i);
      } else {
        KeepOther(old(db.model), db.model, condition, order, i);
      }
      AfterOne(condition, order, i);
      var (prune, next) := Judge(condition', order[i]);
      condition' := next;
      if prune {
        var status := db.DeleteReport(order[i].uuid);
        if status == NoError {
          numPruned := numPruned + 1;
        }
      }
    }
    assert order[..|order|] == order;
  }

  lemma NothingPruned(db: Db, c: Condition, order: seq<Listed>)
    ensures Pruned(db, db, c, order, 0) && After(c, order[..0]) == c
  {
  }

  lemma OrderIsSorted(order: seq<Listed>, db: Db)
    requires IsOrder(order, db)
    ensures NewestFirst(order)
  {
  }

  /** Prunes a database: of the reports that are not being uploaded, judged from the newest to the oldest,
      exactly those to be pruned are deleted, and counted. As long as the counts of the condition do not
      overflow, the newest stay. The condition keeps its count for the next time. */
  method PruneCrashReportDatabase(db: Generic.Database, condition: Condition)
      returns (numPruned: nat, condition': Condition, order: seq<Listed>)
    requires db.Valid()
    modifies db
    ensures db.Valid() && IsOrder(order, old(db.model))
    ensures condition' == After(condition, order)
    ensures Pruned(old(db.model), db.model, condition, order, |order|)
    ensures numPruned == CountPruned(condition, order, |order|)
    ensures Fits(condition, TotalKb(order)) ==>
              var k := KeepCount(condition, order);
              && numPruned == |order| - k
              && forall u :: u in old(db.model).reports ==>
                   (u !in db.model.reports <==> exists j :: k <= j < |order| && order[j].uuid == u)
  {
    hide IsOrder, Fits, KeepCount, Judge, After;
    var pending := db.ReportsInState(Generic.PendingDir);
    var completed := db.ReportsInState(Generic.CompletedDir);
    ListingsAreDistinct(pending, completed, db.model);
    order := SortByAge(pending + completed);
    SortedListings(pending, completed, order, db.model);
    numPruned, condition' := PruneOrdered(db, condition, order);
    if Fits(condition, TotalKb(order)) {
      OrderIsSorted(order, old(db.model));
      PrunedAreBehind(condition, order, |order|);
    }
  }

  lemma {:induction false} AfterOne(c: Condition, reports: seq<Listed>, i: nat)
    requires i < |reports|
    ensures After(c, reports[..i + 1]) == Judge(After(c, reports[..i]), reports[i]).1
    decreases i
  {
    if i == 0 {
      assert reports[..1] == [reports[0]];
      assert reports[..1][1..] == [];
    } else {
      AfterMore(c, reports, i);
      AfterMore(c, reports, i + 1);
      AfterOne(Judge(c, reports[0]).1, reports[1..], i - 1);
    }
  }
}
