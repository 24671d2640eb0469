/** Cleaning a report directory: lone dumps, lone metadata and expired locks go. File operations
    do not fail; removing a file succeeds if it is there. */
module CleanReports {
  import opened Bytes
  import opened Lifecycle

  datatype Extension = Dump | Meta | Lock | Other

  datatype FileName = FileName(uuid: Uuid, extension: Extension)

  /** When a lock file was modified, and the time written in it; none if its owner died before. */
  datatype LockFile = LockFile(modified: int, stamp: Option<int>)

  predicate IsExpired(lock: LockFile, now: int, ttl: int) {
    lock.modified <= now + ttl && lock.stamp.Some? && now >= lock.stamp.value + ttl
  }

  /** A lock that was taken at some time expires when its time to live is over, and not before. One whose
      owner died before writing the time never does; nor does one that is modified far in the future. */
  lemma ExpiresExactly(taken: int, modified: int, now: int, ttl: int)
    ensures ttl >= 0 ==> (IsExpired(LockFile(taken, Some(taken)), now, ttl) <==> now - taken >= ttl)
    ensures !IsExpired(LockFile(modified, None), now, ttl)
    ensures modified - now > ttl ==> !IsExpired(LockFile(modified, Some(taken)), now, ttl)
    ensures modified - now <= ttl ==> (IsExpired(LockFile(modified, Some(taken)), now, ttl) <==> now - taken >= ttl)
  {
  }

  /** The files of one report. */
  datatype Files = Files(dump: bool, meta: bool, lock: Option<LockFile>)

  /** What has to be cleaned: an expired lock, or a dump or metadata alone without lock. */
  predicate Dirty(f: Files, now: int, ttl: int) {
    if f.lock.Some? then IsExpired(f.lock.value, now, ttl) else f.dump != f.meta
  }

  const NO_FILES: Files := Files(false, false, None)

  /** The kind of directory entry at which a report that has to be cleaned is cleaned. */
  function Key(f: Files): Extension {
    if f.lock.Some? then Lock else if f.dump then Dump else Meta
  }

  class Directory {
    var dumps: set<Uuid>
    var metas: set<Uuid>
    var locks: map<Uuid, LockFile>

    function Of(u: Uuid): Files
      reads this
    {
      Files(u in dumps, u in metas, if u in locks then Some(locks[u]) else None)
    }

    /** Creates a lock file, unless there is one. */
    method Acquire(u: Uuid, now: int) returns (ok: bool)
      modifies this`locks
      ensures ok <==> u !in old(locks)
      ensures locks == if ok then old(locks)[u := LockFile(now, Some(now))] else old(locks)
    {
      ok := u !in locks;
      if ok {
        locks := locks[u := LockFile(now, Some(now))];
      }
    }

    /** Handles one directory entry; says whether it cleaned a report. */
    method CleanEntry(name: FileName, now: int, ttl: int) returns (removed: bool)
      modifies this
      ensures removed <==> Dirty(old(Of(name.uuid)), now, ttl) && name.extension == Key(old(Of(name.uuid)))
      ensures forall v: Uuid :: Of(v) == if removed && v == name.uuid then NO_FILES else old(Of(v))
    {
      var u := name.uuid;
      removed := false;
      match name.extension {
        case Dump =>
          var ok := Acquire(u, now);
          if ok {
            if u !in metas && u in dumps {
              dumps := dumps - {u};
              removed := true;
            }
            locks := locks - {u};
          }
        case Meta =>
          var ok := Acquire(u, now);
          if ok {
            if u !in dumps && u in metas {
              metas := metas - {u};
              removed := true;
            }
            locks := locks - {u};
          }
        case Lock =>
          if u in locks && IsExpired(locks[u], now, ttl) {
            dumps := dumps - {u};
            metas := metas - {u};
            locks := locks - {u};
            removed := true;
          }
        case Other =>
      }
    }

    /** Handles the entries in any order in which a directory may be listed, each at the time the clock
        has then: exactly the reports that have to be cleaned when the entry for that is handled are
        gone, and each of them is counted once. The others are left alone. */
    method Clean(listing: seq<FileName>, clock: nat -> int, ttl: int) returns (removed: nat, ghost cleaned: set<Uuid>)
      modifies this
      ensures forall u: Uuid :: u in cleaned <==> CleanedBy(old(Of(u)), u, listing, clock, ttl, |listing|)
      ensures forall u: Uuid :: Of(u) == if u in cleaned then NO_FILES else old(Of(u))
      ensures removed == |cleaned|
    {
      hide Of, Dirty, Key, CleanedBy;
      removed, cleaned := 0, {};
      ghost var was := imap u: Uuid :: Of(u);
      NoneCleaned(was, listing, clock, ttl);
      for i := 0 to |listing|
        invariant removed == |cleaned|
        invariant forall u: Uuid :: Of(u) == if u in cleaned then NO_FILES else was[u]
        invariant CleanedSet(was, cleaned, listing, clock, ttl, i)
      {
        OneMoreHandled(was, cleaned, listing, clock, ttl, i);
        var done := CleanEntry(listing[i], clock(i), ttl);
        if done {
          removed := removed + 1;
          cleaned := cleaned + {listing[i].uuid};
        }
      }
    }
  }

  /** One of the first n entries is the one at which a report is cleaned, and the report has to be
      cleaned when it is handled. */
  predicate CleanedBy(f: Files, u: Uuid, listing: seq<FileName>, clock: nat -> int, ttl: int, n: nat)
    requires n <= |listing|
  {
    exists j :: 0 <= j < n && listing[j] == FileName(u, Key(f)) && Dirty(f, clock(j), ttl)
  }

  ghost predicate CleanedSet(was: imap<Uuid, Files>, cleaned: set<Uuid>, listing: seq<FileName>, clock: nat -> int,
                             ttl: int, n: nat)
    requires (forall u: Uuid :: u in was) && n <= |listing|
  {
    forall u: Uuid :: u in cleaned <==> CleanedBy(was[u], u, listing, clock, ttl, n)
  }

  lemma NoneCleaned(was: imap<Uuid, Files>, listing: seq<FileName>, clock: nat -> int, ttl: int)
    requires forall u: Uuid :: u in was
    ensures CleanedSet(was, {}, listing, clock, ttl, 0)
  {
  }

  lemma CleanedByMore(f: Files, u: Uuid, listing: seq<FileName>, clock: nat -> int, ttl: int, n: nat)
    requires n < |listing|
    ensures CleanedBy(f, u, listing, clock, ttl, n + 1)
       <==> CleanedBy(f, u, listing, clock, ttl, n) || (listing[n] == FileName(u, Key(f)) && Dirty(f, clock(n), ttl))
  {
    hide Key, Dirty;
  }

  /** Handling an entry cleans its report if it is the one for that; if the report is gone, it does not. */
  lemma OneMoreHandled(was: imap<Uuid, Files>, cleaned: set<Uuid>, listing: seq<FileName>, clock: nat -> int, ttl: int, n: nat)
    requires (forall u: Uuid :: u in was) && n < |listing| && CleanedSet(was, cleaned, listing, clock, ttl, n)
    ensures var u := listing[n].uuid;
            var f := if u in cleaned then NO_FILES else was[u];
            CleanedSet(was, if Dirty(f, clock(n), ttl) && listing[n].extension == Key(f) then cleaned + {u} else cleaned,
                       listing, clock, ttl, n + 1)
    ensures !Dirty(NO_FILES, clock(n), ttl)
  {
    forall v: Uuid
      ensures CleanedBy(was[v], v, listing, clock, ttl, n + 1)
         <==> CleanedBy(was[v], v, listing, clock, ttl, n) || (listing[n] == FileName(v, Key(was[v])) && Dirty(was[v], clock(n), ttl))
    {
      CleanedByMore(was[v], v, listing, clock, ttl, n);
    }
    assert !Dirty(NO_FILES, clock(n), ttl);
    hide CleanedBy, Key, Dirty;
  }

  /** If the entry for a report is listed, handled at times that agree on it, the report is cleaned
      exactly if it has to be. Files that are removed before their turn need not be listed. */
  lemma CleanedWhenDirty(f: Files, u: Uuid, listing: seq<FileName>, clock: nat -> int, ttl: int, now: int)
    requires Dirty(f, now, ttl) ==> FileName(u, Key(f)) in listing
    requires forall j :: 0 <= j < |listing| && listing[j] == FileName(u, Key(f)) ==>
               Dirty(f, clock(j), ttl) == Dirty(f, now, ttl)
    ensures CleanedBy(f, u, listing, clock, ttl, |listing|) <==> Dirty(f, now, ttl)
  {
    if Dirty(f, now, ttl) {
      var j :| 0 <= j < |listing| && listing[j] == FileName(u, Key(f));
      assert Dirty(f, clock(j), ttl);
    }
  }

  /** What is left after a pass whose listing has the entries for all reports: an unexpired lock, as of
      every time it was looked at, or no lock and both files or none. A report with both files and a
      lock that was unexpired, or no lock, was not touched, nor was any report under an unexpired lock. */
  lemma LeftInOrder(f: Files, u: Uuid, listing: seq<FileName>, clock: nat -> int, ttl: int)
    requires f != NO_FILES ==> FileName(u, Key(f)) in listing
    ensures var r := if CleanedBy(f, u, listing, clock, ttl, |listing|) then NO_FILES else f;
            if r.lock.Some? then forall j :: 0 <= j < |listing| && listing[j] == FileName(u, Lock) ==>
                                   !IsExpired(r.lock.value, clock(j), ttl)
            else r.dump == r.meta
    ensures f.lock.Some? && (forall j :: 0 <= j < |listing| ==> !IsExpired(f.lock.value, clock(j), ttl)) ==>
              !CleanedBy(f, u, listing, clock, ttl, |listing|)
    ensures f.dump && f.meta && (forall j :: 0 <= j < |listing| && f.lock.Some? ==> !IsExpired(f.lock.value, clock(j), ttl)) ==>
              !CleanedBy(f, u, listing, clock, ttl, |listing|)
  {
    if f.lock.None? && f.dump != f.meta {
      var j :| 0 <= j < |listing| && listing[j] == FileName(u, Key(f));
      assert Dirty(f, clock(j), ttl);
    }
  }
}
