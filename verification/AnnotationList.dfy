/** The lock-free annotation list as a system of atomic steps: any number of threads inside Add,
    possibly with the same annotation, and any number of iterators. Atomics are sequentially
    consistent; the weak compare-exchange may fail spuriously. */
module AnnotationList {
  import opened Bytes
  import opened Runs

  type Annotation = nat
  type Thread = nat
  type IteratorId = nat

  datatype Node = Null | Tail | Item(annotation: Annotation)

  /** Where a thread is within Add, with its local head_next. */
  datatype Pc =
    | Idle
    | Loaded(annotation: Annotation, next: Node)      // about to claim the annotation
    | Publishing(annotation: Annotation, next: Node)  // about to compare-exchange the head
    | Reloaded(annotation: Annotation, next: Node)    // about to store the new successor

  datatype Iterator = Iterator(curr: Node, visited: seq<Annotation>)

  datatype State = State(head: Node, links: map<Annotation, Node>, pcs: map<Thread, Pc>,
                         iterators: map<IteratorId, Iterator>)
  {
    function Link(a: Annotation): Node {
      if a in links then links[a] else Null
    }

    function At(t: Thread): Pc {
      if t in pcs then pcs[t] else Idle
    }

    predicate Owns(t: Thread, a: Annotation) {
      (At(t).Publishing? || At(t).Reloaded?) && At(t).annotation == a
    }
  }

  datatype Step =
    | Load(t: Thread, a: Annotation)  // Add begins: loads the head's successor
    | Claim(t: Thread)                // the annotation's link was null and is set
    | AlreadyAdded(t: Thread)         // the annotation's link was not null: Add returns
    | Publish(t: Thread)              // the head's compare-exchange succeeds: Add returns
    | Retry(t: Thread)                // it fails because the head has changed
    | Spurious(t: Thread)             // it fails although the head has not changed
    | Store(t: Thread)                // the annotation is linked to the reloaded successor
    | Begin(i: IteratorId)
    | Advance(i: IteratorId)

  const Initial: State := State(Tail, map[], map[], map[])

  predicate Enabled(s: State, e: Step) {
    match e
    case Load(t, a) => s.At(t).Idle?
    case Claim(t) => s.At(t).Loaded? && s.Link(s.At(t).annotation) == Null
    case AlreadyAdded(t) => s.At(t).Loaded? && s.Link(s.At(t).annotation) != Null
    case Publish(t) => s.At(t).Publishing? && s.head == s.At(t).next
    case Retry(t) => s.At(t).Publishing? && s.head != s.At(t).next
    case Spurious(t) => s.At(t).Publishing? && s.head == s.At(t).next
    case Store(t) => s.At(t).Reloaded?
    case Begin(i) => true
    case Advance(i) => i in s.iterators && s.iterators[i].curr.Item?
  }

  function Do(s: State, e: Step): State
    requires Enabled(s, e)
  {
    match e
    case Load(t, a) => s.(pcs := s.pcs[t := Loaded(a, s.head)])
    case Claim(t) =>
      var pc := s.At(t);
      s.(links := s.links[pc.annotation := pc.next], pcs := s.pcs[t := Publishing(pc.annotation, pc.next)])
    case AlreadyAdded(t) => s.(pcs := s.pcs[t := Idle])
    case Publish(t) => s.(head := Item(s.At(t).annotation), pcs := s.pcs[t := Idle])
    case Retry(t) => s.(pcs := s.pcs[t := Reloaded(s.At(t).annotation, s.head)])
    case Spurious(t) => s.(pcs := s.pcs[t := Reloaded(s.At(t).annotation, s.head)])
    case Store(t) =>
      var pc := s.At(t);
      s.(links := s.links[pc.annotation := pc.next], pcs := s.pcs[t := Publishing(pc.annotation, pc.next)])
    case Begin(i) => s.(iterators := s.iterators[i := Iterator(s.head, [])])
    case Advance(i) =>
      var it := s.iterators[i];
      s.(iterators := s.iterators[i := Iterator(s.Link(it.curr.annotation), it.visited + [it.curr.annotation])])
  }

  /** Every step of the run is enabled when it is taken. */
  predicate Legal(run: seq<Step>)
    decreases |run|, 0
  {
    run == [] || (Legal(Before(run)) && Enabled(After(Before(run)), Last(run)))
  }

  function After(run: seq<Step>): State
    requires Legal(run)
    decreases |run|, 1
  {
    if run == [] then Initial else Do(After(Before(run)), Last(run))
  }

  /** The annotations published by a run, the newest first. */
  function Published(run: seq<Step>): seq<Annotation>
    requires Legal(run)
  {
    if run == [] then []
    else if Last(run).Publish? then [After(Before(run)).At(Last(run).t).annotation] + Published(Before(run))
    else Published(Before(run))
  }

  function NodeAt(c: seq<Annotation>, i: nat): Node
    requires i <= |c|
  {
    if i < |c| then Item(c[i]) else Tail
  }

  ghost predicate OnChain(c: seq<Annotation>, n: Node) {
    n == Tail || (n.Item? && n.annotation in c)
  }

  predicate Distinct(c: seq<Annotation>) {
    forall i, j :: 0 <= i < j < |c| ==> c[i] != c[j]
  }

  /** From the head on, the links lead through exactly c to the tail. */
  ghost predicate Linked(s: State, c: seq<Annotation>) {
    && s.head == NodeAt(c, 0)
    && forall i :: 0 <= i < |c| ==> s.Link(c[i]) == NodeAt(c, i + 1)
  }

  ghost predicate PcOk(s: State, c: seq<Annotation>, pc: Pc) {
    match pc
    case Idle => true
    case Loaded(a, next) => OnChain(c, next)
    case Publishing(a, next) => OnChain(c, next) && a !in c && s.Link(a) == next
    case Reloaded(a, next) => OnChain(c, next) && a !in c && s.Link(a) != Null
  }

  ghost predicate Inv(s: State, c: seq<Annotation>) {
    && Linked(s, c)
    && Distinct(c)
    && (forall t: Thread :: PcOk(s, c, s.At(t)))
    && (forall t: Thread, u: Thread, a: Annotation :: s.Owns(t, a) && s.Owns(u, a) ==> t == u)
    && (forall a: Annotation :: s.Link(a) != Null ==> a in c || exists t: Thread :: s.Owns(t, a))
  }

  /** Setting the link of an annotation that is being added disturbs neither chain nor other threads. */
  lemma LinkingKeeps(s: State, c: seq<Annotation>, e: Step)
    requires Inv(s, c) && Enabled(s, e) && (e.Claim? || e.Store?)
    ensures Inv(Do(s, e), c)
  {
    var t, s' := e.t, Do(s, e);
    var x := s.At(t).annotation;
    assert PcOk(s, c, s.At(t));
    NotOwnedByOthers(s, c, t, x);
    forall u: Thread
      ensures PcOk(s', c, s'.At(u))
    {
      assert PcOk(s, c, s.At(u));
      assert u != t && !s.At(u).Idle? && !s.At(u).Loaded? ==> s.Owns(u, s.At(u).annotation);
    }
    forall u: Thread, a: Annotation
      ensures s'.Owns(u, a) == if u == t then a == x else s.Owns(u, a)
    {
    }
    assert s'.Owns(t, x);
    LinkedAreOwned(s, s', c, c, x);
  }

  /** An annotation that a thread is adding or about to claim is no other thread's. */
  lemma NotOwnedByOthers(s: State, c: seq<Annotation>, t: Thread, x: Annotation)
    requires Inv(s, c) && (s.Owns(t, x) || s.Link(x) == Null)
    ensures forall u: Thread :: u != t ==> !s.Owns(u, x)
  {
    forall u: Thread | s.Owns(u, x)
      ensures u == t
    {
      assert PcOk(s, c, s.At(u));
    }
  }

  /** After a step that concerns x only, every linked annotation is still published or owned. */
  lemma LinkedAreOwned(s: State, s': State, c: seq<Annotation>, c': seq<Annotation>, x: Annotation)
    requires Inv(s, c) && (forall a :: a in c ==> a in c')
    requires forall a: Annotation :: a != x ==> s'.Link(a) == s.Link(a)
    requires forall u: Thread, a: Annotation :: a != x && s.Owns(u, a) ==> s'.Owns(u, a)
    requires x in c' || exists u: Thread :: s'.Owns(u, x)
    ensures forall a: Annotation :: s'.Link(a) != Null ==> a in c' || exists u: Thread :: s'.Owns(u, a)
  {
    forall a: Annotation | a != x && s'.Link(a) != Null && a !in c'
      ensures exists u: Thread :: s'.Owns(u, a)
    {
      assert s.Link(a) != Null;
      var u: Thread :| s.Owns(u, a);
      assert s'.Owns(u, a);
    }
  }

  lemma ChainGrows(s: State, s': State, c: seq<Annotation>, x: Annotation)
    requires Linked(s, c) && s'.head == Item(x) && s'.links == s.links && s.Link(x) == s.head
    ensures Linked(s', [x] + c)
  {
    var c' := [x] + c;
    forall i | 0 <= i < |c'|
      ensures s'.Link(c'[i]) == NodeAt(c', i + 1)
    {
      if i > 0 {
        assert s.Link(c[i - 1]) == NodeAt(c, i);
      }
    }
  }

  /** Publishing extends the chain at the front. */
  lemma PublishingExtends(s: State, c: seq<Annotation>, t: Thread)
    requires Inv(s, c) && Enabled(s, Publish(t))
    ensures Inv(Do(s, Publish(t)), [s.At(t).annotation] + c)
  {
    var s', x := Do(s, Publish(t)), s.At(t).annotation;
    var c' := [x] + c;
    assert PcOk(s, c, s.At(t)) && s.Owns(t, x);
    NotOwnedByOthers(s, c, t, x);
    ChainGrows(s, s', c, x);
    forall u: Thread
      ensures PcOk(s', c', s'.At(u))
    {
      assert PcOk(s, c, s.At(u));
      assert u != t && !s.At(u).Idle? && !s.At(u).Loaded? ==> s.Owns(u, s.At(u).annotation);
    }
    forall u: Thread, a: Annotation
      ensures s'.Owns(u, a) == (u != t && s.Owns(u, a))
    {
    }
    assert x in c';
    LinkedAreOwned(s, s', c, c', x);
  }

  /** The other steps change neither links nor head. */
  lemma OtherStepsKeep(s: State, c: seq<Annotation>, e: Step)
    requires Inv(s, c) && Enabled(s, e) && !e.Publish? && !e.Claim? && !e.Store?
    ensures Inv(Do(s, e), c)
  {
    var s' := Do(s, e);
    forall u: Thread
      ensures PcOk(s', c, s'.At(u))
    {
      assert PcOk(s, c, s.At(u));
    }
    forall u: Thread, a: Annotation
      ensures s.Owns(u, a) == s'.Owns(u, a)
    {
    }
  }

  /** Under every interleaving the chain from the head is exactly the published annotations. */
  lemma {:induction false} ChainInvariant(run: seq<Step>)
    requires Legal(run)
    ensures Inv(After(run), Published(run))
  {
    if run != [] {
      ChainInvariant(Before(run));
      var s, c, e := After(Before(run)), Published(Before(run)), Last(run);
      match e {
        case Publish(t) => PublishingExtends(s, c, t);
        case Claim(_) => LinkingKeeps(s, c, e);
        case Store(_) => LinkingKeeps(s, c, e);
        case _ => OtherStepsKeep(s, c, e);
      }
    }
  }

  /** The annotations met by following links from a node for at most fuel steps. */
  function Walk(s: State, n: Node, fuel: nat): seq<Annotation>
    decreases fuel
  {
    if fuel == 0 || !n.Item? then [] else [n.annotation] + Walk(s, s.Link(n.annotation), fuel - 1)
  }

  lemma {:induction false} WalkFollowsChain(s: State, c: seq<Annotation>, i: nat, fuel: nat)
    requires Linked(s, c) && i <= |c| <= i + fuel
    ensures Walk(s, NodeAt(c, i), fuel) == c[i..]
    decreases fuel
  {
    if i < |c| {
      WalkFollowsChain(s, c, i + 1, fuel - 1);
      assert c[i..] == [c[i]] + c[i + 1..];
    }
  }

  /** The list is finite and acyclic: however far one follows it, it holds each published
      annotation once, and nothing else. A claimed annotation that is not in the list belongs to
      exactly one thread, which is still in its loop. */
  lemma ListIsExact(run: seq<Step>, fuel: nat, a: Annotation)
    requires Legal(run) && |Published(run)| <= fuel
    ensures Walk(After(run), After(run).head, fuel) == Published(run)
    ensures Distinct(Published(run))
    ensures After(run).Link(a) != Null <==> a in Published(run) || exists t: Thread :: After(run).Owns(t, a)
    ensures forall t: Thread :: After(run).Owns(t, a) ==>
              a !in Published(run) && forall u: Thread :: After(run).Owns(u, a) ==> u == t
  {
    ChainInvariant(run);
    var s, c := After(run), Published(run);
    WalkFollowsChain(s, c, 0, fuel);
    assert c[0..] == c;
    forall t: Thread | s.Owns(t, a)
      ensures a !in c && s.Link(a) != Null
    {
      assert PcOk(s, c, s.At(t));
    }
    if a in c {
      var i :| 0 <= i < |c| && c[i] == a;
      assert s.Link(c[i]) == NodeAt(c, i + 1);
    }
  }

  // Adding what was given

  /** The annotation that a thread was last given to add. */
  function Argument(run: seq<Step>, t: Thread): Option<Annotation> {
    if run == [] then None
    else if Last(run).Load? && Last(run).t == t then Some(Last(run).a)
    else Argument(Before(run), t)
  }

  /** Whatever other threads do, a thread inside of Add is at work on what it was given. */
  lemma {:induction false} WorksOnArgument(run: seq<Step>, t: Thread)
    requires Legal(run)
    ensures !After(run).At(t).Idle? ==> Argument(run, t) == Some(After(run).At(t).annotation)
  {
    if run != [] {
      WorksOnArgument(Before(run), t);
    }
  }

  /** When Add returns, what it was given is linked; and if this call published it, it is the head. */
  lemma AddAddsArgument(run: seq<Step>, t: Thread)
    requires Legal(run) && run != [] && (Last(run) == Publish(t) || Last(run) == AlreadyAdded(t))
    ensures Argument(run, t).Some? && After(run).Link(Argument(run, t).value) != Null
    ensures Last(run) == Publish(t) ==>
              Published(run) == [Argument(run, t).value] + Published(Before(run))
              && After(run).head == Item(Argument(run, t).value)
  {
    WorksOnArgument(Before(run), t);
    ChainInvariant(Before(run));
    assert PcOk(After(Before(run)), Published(Before(run)), After(Before(run)).At(t));
  }

  /** What is linked stays linked. */
  lemma {:induction false} LinkedForever(run: seq<Step>, more: seq<Step>, a: Annotation)
    requires Legal(run + more)
    ensures Legal(run)
    ensures After(run).Link(a) != Null ==> After(run + more).Link(a) != Null
    decreases |more|
  {
    if more == [] {
      assert run + more == run;
    } else {
      assert Before(run + more) == run + Before(more);
      LinkedForever(run, Before(more), a);
      var s, e := After(run + Before(more)), Last(run + more);
      ChainInvariant(run + Before(more));
      if e.Claim? || e.Store? {
        assert PcOk(s, Published(run + Before(more)), s.At(e.t));
      }
    }
  }

  // Retries

  function Retries(run: seq<Step>, t: Thread): nat {
    if run == [] then 0 else Retries(Before(run), t) + if Last(run) == Retry(t) then 1 else 0
  }

  /** How many annotations a thread, or the other threads, published. */
  function PublishedBy(run: seq<Step>, t: Thread): nat {
    if run == [] then 0 else PublishedBy(Before(run), t) + if Last(run) == Publish(t) then 1 else 0
  }

  function PublishedByOthers(run: seq<Step>, t: Thread): nat {
    if run == [] then 0
    else PublishedByOthers(Before(run), t) + if Last(run).Publish? && Last(run).t != t then 1 else 0
  }

  /** The number of annotations from a node on, counted from the tail so that publishing keeps it. */
  ghost function Depth(c: seq<Annotation>, n: Node): (d: nat)
    requires OnChain(c, n)
    ensures d <= |c|
    ensures NodeAt(c, |c| - d) == n
  {
    if n == Tail then 0
    else
      var i: nat :| i < |c| && c[i] == n.annotation;
      |c| - i
  }

  lemma DepthOfHead(s: State, c: seq<Annotation>)
    requires Linked(s, c) && Distinct(c)
    ensures OnChain(c, s.head) && Depth(c, s.head) == |c|
  {
  }

  lemma DepthIsKept(c: seq<Annotation>, x: Annotation, n: Node)
    requires OnChain(c, n) && Distinct([x] + c)
    ensures OnChain([x] + c, n) && Depth([x] + c, n) == Depth(c, n)
  {
    var c' := [x] + c;
    assert n.Item? ==> c'[|c'| - Depth(c, n)] == n.annotation;
  }

  /** What the retries and publications of a thread are bounded by: the depth it has last seen. */
  ghost predicate Paid(c: seq<Annotation>, pc: Pc, spent: nat) {
    match pc
    case Idle => spent <= |c|
    case _ => OnChain(c, pc.next) && spent <= Depth(c, pc.next)
  }

  function Extended(s: State, c: seq<Annotation>, e: Step): seq<Annotation>
    requires Enabled(s, e)
  {
    if e.Publish? then [s.At(e.t).annotation] + c else c
  }

  lemma StepIsPaid(s: State, c: seq<Annotation>, e: Step, t: Thread, spent: nat)
    requires Linked(s, c) && Distinct(c) && Enabled(s, e) && Distinct(Extended(s, c, e))
    requires Paid(c, s.At(t), spent)
    ensures Paid(Extended(s, c, e), Do(s, e).At(t),
                 spent + (if e == Retry(t) then 1 else 0) + if e == Publish(t) then 1 else 0)
  {
    DepthOfHead(s, c);
    var pc := s.At(t);
    if e.Publish? && !pc.Idle? {
      DepthIsKept(c, s.At(e.t).annotation, pc.next);
    }
  }

  lemma {:induction false} RetriesAreBounded(run: seq<Step>, t: Thread)
    requires Legal(run)
    ensures Paid(Published(run), After(run).At(t), Retries(run, t) + PublishedBy(run, t))
  {
    if run != [] {
      var s, c, e := After(Before(run)), Published(Before(run)), Last(run);
      RetriesAreBounded(Before(run), t);
      ChainInvariant(Before(run));
      ChainInvariant(run);
      StepIsPaid(s, c, e, t, Retries(Before(run), t) + PublishedBy(Before(run), t));
    }
  }

  lemma {:induction false} PublicationsAddUp(run: seq<Step>, t: Thread)
    requires Legal(run)
    ensures |Published(run)| == PublishedBy(run, t) + PublishedByOthers(run, t)
  {
    if run != [] {
      PublicationsAddUp(Before(run), t);
    }
  }

  /** Every retry of a thread that is not spurious is paid for by another thread's publication. */
  lemma RetriesArePaidFor(run: seq<Step>, t: Thread)
    requires Legal(run)
    ensures Retries(run, t) <= PublishedByOthers(run, t)
  {
    RetriesAreBounded(run, t);
    PublicationsAddUp(run, t);
  }

  // Iterators

  function Advances(run: seq<Step>, i: IteratorId): nat {
    if run == [] then 0 else Advances(Before(run), i) + if Last(run) == Advance(i) then 1 else 0
  }

  /** c0 is what was on the list when it was shorter. */
  ghost predicate Suffix(c0: seq<Annotation>, c: seq<Annotation>) {
    |c0| <= |c| && c0 == c[|c| - |c0|..]
  }

  /** The iterator began on c0 and has seen k of its annotations. */
  ghost predicate Visiting(s: State, i: IteratorId, c0: seq<Annotation>, k: nat) {
    k <= |c0| && i in s.iterators && s.iterators[i] == Iterator(NodeAt(c0, k), c0[..k])
  }

  lemma SuffixGrows(c0: seq<Annotation>, c: seq<Annotation>, x: Annotation)
    requires Suffix(c0, c)
    ensures Suffix(c0, [x] + c)
  {
  }

  /** A published link is what it was when the iterator began. */
  lemma LinkInSuffix(s: State, c: seq<Annotation>, c0: seq<Annotation>, k: nat)
    requires Linked(s, c) && Suffix(c0, c) && k < |c0|
    ensures s.Link(c0[k]) == NodeAt(c0, k + 1)
  {
    var j := |c| - |c0| + k;
    assert c[j] == c0[k] && s.Link(c[j]) == NodeAt(c, j + 1);
  }

  lemma StepKeepsVisit(s: State, c: seq<Annotation>, e: Step, i: IteratorId, c0: seq<Annotation>, k: nat)
    requires Linked(s, c) && Enabled(s, e) && e != Begin(i)
    requires Suffix(c0, c) && Visiting(s, i, c0, k)
    ensures Suffix(c0, Extended(s, c, e))
    ensures Visiting(Do(s, e), i, c0, k + if e == Advance(i) then 1 else 0)
  {
    hide Suffix, Linked;
    if e.Publish? {
      SuffixGrows(c0, c, s.At(e.t).annotation);
    } else if e == Advance(i) {
      LinkInSuffix(s, c, c0, k);
      assert c0[..k] + [c0[k]] == c0[..k + 1];
    }
  }

  /** An iterator visits exactly what was published when it began, newest first, each once, no matter
      what is added meanwhile; it can go on exactly until it has seen them all and is at the tail. */
  lemma {:induction false} IteratorSeesSnapshot(run: seq<Step>, i: IteratorId, more: seq<Step>)
      returns (c0: seq<Annotation>, s: State)
    requires Legal(run + [Begin(i)] + more) && Begin(i) !in more
    ensures Legal(run) && c0 == Published(run) && s == After(run + [Begin(i)] + more)
    ensures Visiting(s, i, c0, Advances(more, i))
    ensures Enabled(s, Advance(i)) <==> Advances(more, i) < |c0|
    ensures Suffix(c0, Published(run + [Begin(i)] + more))
    decreases |more|
  {
    hide Inv, Suffix, Visiting, Linked, Do, Enabled;
    var whole := run + [Begin(i)] + more;
    s := After(whole);
    LastStep(whole);
    if more == [] {
      assert Before(whole) == run;
      c0 := Published(run);
      BeginVisits(run, i);
    } else {
      var before := run + [Begin(i)] + Before(more);
      assert Before(whole) == before && Last(whole) == Last(more) && Last(more) in more;
      var s0;
      c0, s0 := IteratorSeesSnapshot(run, i, Before(more));
      ChainIsLinked(before);
      StepKeepsVisit(s0, Published(before), Last(more), i, c0, Advances(Before(more), i));
    }
    VisitGoesOn(s, i, c0, Advances(more, i));
  }

  lemma LastStep(run: seq<Step>)
    requires run != [] && Legal(run)
    ensures Legal(Before(run)) && Enabled(After(Before(run)), Last(run))
    ensures After(run) == Do(After(Before(run)), Last(run))
    ensures Published(run) == Extended(After(Before(run)), Published(Before(run)), Last(run))
  {
  }

  lemma ChainIsLinked(run: seq<Step>)
    requires Legal(run)
    ensures Linked(After(run), Published(run))
  {
    ChainInvariant(run);
  }

  lemma BeginVisits(run: seq<Step>, i: IteratorId)
    requires Legal(run)
    ensures Enabled(After(run), Begin(i))
    ensures Visiting(Do(After(run), Begin(i)), i, Published(run), 0)
    ensures Suffix(Published(run), Published(run))
  {
    ChainIsLinked(run);
  }

  lemma VisitGoesOn(s: State, i: IteratorId, c0: seq<Annotation>, k: nat)
    requires Visiting(s, i, c0, k)
    ensures Enabled(s, Advance(i)) <==> k < |c0|
  {
  }
}
