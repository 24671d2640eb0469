/** Coalescing the memory ranges of a minidump: ranges that touch others are merged, and owned ranges
    that touch ranges owned elsewhere are dropped. */
module MemoryRanges {
  import opened Bytes

  type U64 = x: int | 0 <= x < TWO_64

  datatype Range = Range(base: U64, size: U64) {
    /** One past the last address, not wrapped around. */
    function End(): nat {
      base + size
    }

    predicate IsValid() {
      End() < TWO_64
    }

    predicate Has(address: int) {
      base <= address < End()
    }
  }

  /** A range is valid exactly if its end can be computed in 64 bits. */
  lemma ValidExactly(r: Range)
    ensures r.IsValid() <==> (r.base + r.size) % TWO_64 == r.End()
    ensures r.IsValid() <==> (r.base + r.size) % TWO_64 >= r.base
  {
  }

  /** The ranges overlap or abut. */
  predicate Touch(a: Range, b: Range) {
    a.base <= b.End() && b.base <= a.End()
  }

  predicate Mergeable(a: Range, b: Range) {
    0 < a.size && 0 < b.size && a.IsValid() && b.IsValid() && Touch(a, b)
  }

  /** The range that two ranges make up together, if they can be merged. */
  method DetermineMergedRange(a: Range, b: Range) returns (merged: Option<Range>)
    ensures merged.Some? <==> Mergeable(a, b)
    ensures merged.Some? ==> merged.value.IsValid() && 0 < merged.value.size
    ensures merged.Some? ==> forall x :: merged.value.Has(x) <==> a.Has(x) || b.Has(x)
    ensures merged.Some? ==> merged.value.base == (if a.base < b.base then a.base else b.base)
    ensures merged.Some? ==> merged.value.End() == (if a.End() > b.End() then a.End() else b.End())
  {
    if a.size == 0 || b.size == 0 || !a.IsValid() || !b.IsValid() {
      return None;
    }
    var overlaps := a.base < b.End() && b.base < a.End();
    if !overlaps && a.End() != b.base && b.End() != a.base {
      return None;
    }
    var base := if a.base < b.base then a.base else b.base;
    var end := if a.End() > b.End() then a.End() else b.End();
    merged := Some(Range(base, end - base));
  }

  predicate Covered(ranges: seq<Range>, address: int) {
    exists i :: 0 <= i < |ranges| && ranges[i].Has(address)
  }

  // Dropping

  predicate TouchesAny(r: Range, others: seq<Range>) {
    exists i :: 0 <= i < |others| && Mergeable(r, others[i])
  }

  function Survivors(owned: seq<Range>, others: seq<Range>): seq<Range> {
    if owned == [] then []
    else
      var n := |owned| - 1;
      Survivors(owned[..n], others) + if TouchesAny(owned[n], others) then [] else [owned[n]]
  }

  /** An owned range survives, in its place, exactly if it cannot be merged with any other range. */
  lemma {:induction false} SurvivorsExactly(owned: seq<Range>, others: seq<Range>, r: Range)
    ensures r in Survivors(owned, others) <==> r in owned && !TouchesAny(r, others)
  {
    if owned != [] {
      var n := |owned| - 1;
      SurvivorsExactly(owned[..n], others, r);
      assert r in owned <==> r in owned[..n] || r == owned[n];
    }
  }

  /** An owned range is dropped exactly if it is valid and not empty, and some valid range owned elsewhere
      has an address in it or next to it. */
  lemma DroppedExactly(owned: seq<Range>, others: seq<Range>, r: Range)
    requires r in owned
    ensures r !in Survivors(owned, others)
       <==> r.size > 0 && r.IsValid()
            && exists k, x :: 0 <= k < |others| && others[k].IsValid() && others[k].Has(x) && r.base - 1 <= x <= r.End()
  {
    SurvivorsExactly(owned, others, r);
    forall k | 0 <= k < |others|
      ensures Mergeable(r, others[k])
         <==> r.size > 0 && r.IsValid() && others[k].IsValid() && exists x :: others[k].Has(x) && r.base - 1 <= x <= r.End()
    {
      TouchMeansNextTo(r, others[k]);
    }
    hide Survivors, Mergeable;
  }

  lemma TouchMeansNextTo(a: Range, b: Range)
    ensures 0 < b.size && Touch(a, b) <==> exists x :: b.Has(x) && a.base - 1 <= x <= a.End()
  {
    var x := if b.base < a.base - 1 then a.base - 1 else b.base;
    assert 0 < b.size && Touch(a, b) ==> b.Has(x) && a.base - 1 <= x <= a.End();
  }

  /** The ranges have an address in common. */
  predicate Overlap(a: Range, b: Range) {
    0 < a.size && 0 < b.size && a.base < b.End() && b.base < a.End()
  }

  lemma OverlapMeansShared(a: Range, b: Range)
    ensures Overlap(a, b) <==> exists x :: a.Has(x) && b.Has(x)
  {
    var x := if a.base < b.base then b.base else a.base;
    assert Overlap(a, b) ==> a.Has(x) && b.Has(x);
  }

  /** No address is covered by both. */
  ghost predicate Disjoint(ranges: seq<Range>, others: seq<Range>) {
    forall x :: !(Covered(ranges, x) && Covered(others, x))
  }

  /** No owned range overlaps one owned elsewhere unseen: because one of the two runs past the end of
      the address space, and without touching a range that gets it dropped. */
  predicate NoneHidden(owned: seq<Range>, others: seq<Range>) {
    forall i, k :: 0 <= i < |owned| && 0 <= k < |others| && (!owned[i].IsValid() || !others[k].IsValid()) ==>
      TouchesAny(owned[i], others) || !Overlap(owned[i], others[k])
  }

  /** What survives the drop is disjoint from everything owned elsewhere, exactly if none overlaps unseen. */
  lemma SurvivorsAreApartExactly(owned: seq<Range>, others: seq<Range>)
    ensures Disjoint(Survivors(owned, others), others) <==> NoneHidden(owned, others)
  {
    if NoneHidden(owned, others) {
      forall x
        ensures !(Covered(Survivors(owned, others), x) && Covered(others, x))
      {
        if Covered(Survivors(owned, others), x) && Covered(others, x) {
          var r, k := SharedBy(owned, others, x);
          OverlapMeansShared(r, others[k]);
        }
      }
    } else {
      var i, k :| 0 <= i < |owned| && 0 <= k < |others| && !TouchesAny(owned[i], others)
                  && Overlap(owned[i], others[k]);
      OverlapMeansShared(owned[i], others[k]);
      var x :| owned[i].Has(x) && others[k].Has(x);
      SurvivorsExactly(owned, others, owned[i]);
      assert Covered(Survivors(owned, others), x) && Covered(others, x);
    }
  }

  lemma SharedBy(owned: seq<Range>, others: seq<Range>, x: int) returns (r: Range, k: nat)
    requires Covered(Survivors(owned, others), x) && Covered(others, x)
    ensures r in owned && !TouchesAny(r, others) && r.Has(x) && k < |others| && others[k].Has(x)
  {
    var i :| 0 <= i < |Survivors(owned, others)| && Survivors(owned, others)[i].Has(x);
    r := Survivors(owned, others)[i];
    SurvivorsExactly(owned, others, r);
    k :| 0 <= k < |others| && others[k].Has(x);
  }

  /** A range past the end of the address space stays, although it overlaps one owned elsewhere. */
  lemma HiddenOverlap()
    ensures var owned, others := [Range(TWO_64 - 10, 100)], [Range(TWO_64 - 5, 2)];
            Survivors(owned, others) == owned && !Disjoint(owned, others)
  {
    var owned, others := [Range(TWO_64 - 10, 100)], [Range(TWO_64 - 5, 2)];
    assert owned[..0] == [] && Survivors(owned[..0], others) == [];
    assert !TouchesAny(owned[0], others);
    assert owned[0].Has(TWO_64 - 5) && others[0].Has(TWO_64 - 5);
    assert Covered(owned, TWO_64 - 5) && Covered(others, TWO_64 - 5);
  }

  // Sorting

  predicate Before(a: Range, b: Range) {
    if a.base == b.base then a.size <= b.size else a.base < b.base
  }

  predicate Sorted(ranges: seq<Range>) {
    forall i, j :: 0 <= i < j < |ranges| ==> Before(ranges[i], ranges[j])
  }

  /** A sort; callers rely on order and contents only. */
  method Sort(ranges: seq<Range>) returns (s: seq<Range>)
    ensures Sorted(s) && multiset(s) == multiset(ranges)
  {
    s := [];
    for n := 0 to |ranges|
      invariant Sorted(s) && multiset(s) == multiset(ranges[..n])
    {
      var r := ranges[n];
      var i := |s|;
      while i > 0 && !Before(s[i - 1], r)
        invariant 0 <= i <= |s|
        invariant forall k :: i <= k < |s| ==> Before(r, s[k])
      {
        i := i - 1;
      }
      SortedInsert(s, i, r);
      assert ranges[..n + 1] == ranges[..n] + [r];
      s := s[..i] + [r] + s[i..];
    }
    assert ranges[..|ranges|] == ranges;
  }

  lemma SortedInsert(s: seq<Range>, i: nat, r: Range)
    requires Sorted(s) && i <= |s| && (i > 0 ==> Before(s[i - 1], r)) && forall k :: i <= k < |s| ==> Before(r, s[k])
    ensures Sorted(s[..i] + [r] + s[i..])
    ensures multiset(s[..i] + [r] + s[i..]) == multiset(s) + multiset{r}
  {
    if i > 0 {
      BeforeAll(s, i, r);
    }
    hide Before;
    InsertInOrder(s, i, r);
    hide Sorted;
    InsertContents(s, i, r);
  }

  lemma InsertContents(s: seq<Range>, i: nat, r: Range)
    requires i <= |s|
    ensures multiset(s[..i] + [r] + s[i..]) == multiset(s) + multiset{r}
  {
    assert s == s[..i] + s[i..];
  }

  lemma InsertInOrder(s: seq<Range>, i: nat, r: Range)
    requires Sorted(s) && i <= |s|
    requires (forall k :: 0 <= k < i ==> Before(s[k], r)) && forall k :: i <= k < |s| ==> Before(r, s[k])
    ensures Sorted(s[..i] + [r] + s[i..])
  {
    hide Before;
    var t := s[..i] + [r] + s[i..];
    assert forall k :: 0 <= k < i ==> t[k] == s[k];
    assert t[i] == r;
    assert forall k :: i < k < |t| ==> t[k] == s[k - 1];
  }

  lemma BeforeAll(s: seq<Range>, i: nat, r: Range)
    requires Sorted(s) && 0 < i <= |s| && Before(s[i - 1], r)
    ensures forall k :: 0 <= k < i ==> Before(s[k], r)
  {
    assert forall k :: 0 <= k < i - 1 ==> Before(s[k], s[i - 1]);
  }

  /** The ranges that are not empty, in their order. */
  function NonEmpty(ranges: seq<Range>): seq<Range> {
    if ranges == [] then []
    else
      var n := |ranges| - 1;
      NonEmpty(ranges[..n]) + if ranges[n].size == 0 then [] else [ranges[n]]
  }

  lemma {:induction false} NonEmptyContents(ranges: seq<Range>)
    ensures forall i :: 0 <= i < |NonEmpty(ranges)| ==> NonEmpty(ranges)[i].size > 0
    ensures forall r: Range :: r.size > 0 ==> multiset(NonEmpty(ranges))[r] == multiset(ranges)[r]
  {
    if ranges != [] {
      var n := |ranges| - 1;
      NonEmptyContents(ranges[..n]);
      assert ranges == ranges[..n] + [ranges[n]];
    }
  }

  lemma {:induction false} NonEmptyIn(ranges: seq<Range>, r: Range)
    requires r in NonEmpty(ranges)
    ensures r in ranges
  {
    var n := |ranges| - 1;
    if r in NonEmpty(ranges[..n]) {
      NonEmptyIn(ranges[..n], r);
    }
  }

  lemma {:induction false} NonEmptySorted(ranges: seq<Range>)
    requires Sorted(ranges)
    ensures Sorted(NonEmpty(ranges))
  {
    hide Before;
    if ranges != [] {
      var n := |ranges| - 1;
      var before := NonEmpty(ranges[..n]);
      NonEmptySorted(ranges[..n]);
      forall i | 0 <= i < |before|
        ensures Before(before[i], ranges[n])
      {
        NonEmptyIn(ranges[..n], before[i]);
      }
    }
  }

  // Merging

  /** Later ranges begin behind the end of earlier ones, with a gap. */
  predicate Separated(ranges: seq<Range>) {
    forall i, j :: 0 <= i < j < |ranges| ==> ranges[i].End() < ranges[j].base
  }

  /** Each range lies within the merged range that it went to. */
  ghost predicate Contained(s: seq<Range>, home: seq<nat>, merged: seq<Range>) {
    |home| == |s| && forall t :: 0 <= t < |s| ==>
      home[t] < |merged| && merged[home[t]].base <= s[t].base && s[t].End() <= merged[home[t]].End()
  }

  /** A range that is not valid is kept as it is, and by itself. */
  ghost predicate InvalidAlone(s: seq<Range>, home: seq<nat>, merged: seq<Range>)
    requires Contained(s, home, merged)
  {
    forall t, u :: 0 <= t < |s| && 0 <= u < |s| && !s[t].IsValid() ==>
      merged[home[t]] == s[t] && (t != u ==> home[u] != home[t])
  }

  ghost predicate EndsReached(s: seq<Range>, home: seq<nat>, merged: seq<Range>) {
    forall k :: 0 <= k < |merged| ==> merged[k].size > 0 && ReachesEnd(s, home, merged[k], k)
  }

  /** How ranges were merged: home says where each of them went. */
  ghost predicate Merging(s: seq<Range>, home: seq<nat>, merged: seq<Range>) {
    Contained(s, home, merged) && InvalidAlone(s, home, merged) && EndsReached(s, home, merged)
  }

  /** One of the ranges that went to place k of the merged ones ends where the merged one does. */
  ghost predicate ReachesEnd(s: seq<Range>, home: seq<nat>, merged: Range, k: nat) {
    |home| == |s| && exists t :: 0 <= t < |s| && home[t] == k && s[t].End() == merged.End()
  }

  /** A range that is not valid touches no other one. */
  predicate Lonely(s: seq<Range>) {
    forall t, u :: 0 <= t < |s| && 0 <= u < |s| && t != u && !s[t].IsValid() ==> !Touch(s[t], s[u])
  }

  lemma CoveredAppend(ranges: seq<Range>, r: Range, x: int)
    ensures Covered(ranges + [r], x) <==> Covered(ranges, x) || r.Has(x)
  {
    if Covered(ranges, x) {
      var i :| 0 <= i < |ranges| && ranges[i].Has(x);
      assert (ranges + [r])[i].Has(x);
    }
    assert (ranges + [r])[|ranges|] == r;
  }

  lemma PushMerging(s: seq<Range>, home: seq<nat>, merged: seq<Range>, child: Range)
    requires Merging(s, home, merged) && child.size > 0
    ensures Merging(s + [child], home + [|merged|], merged + [child])
  {
    var s', home', merged' := s + [child], home + [|merged|], merged + [child];
    forall k | 0 <= k < |merged'|
      ensures ReachesEnd(s', home', merged'[k], k)
    {
      if k < |merged| {
        assert ReachesEnd(s, home, merged[k], k);
        var t :| 0 <= t < |s| && home[t] == k && s[t].End() == merged[k].End();
        assert home'[t] == k && s'[t].End() == merged'[k].End();
      } else {
        assert home'[|s|] == k && s'[|s|].End() == merged'[k].End();
      }
    }
  }

  lemma ReplaceMerging(s: seq<Range>, home: seq<nat>, merged: seq<Range>, child: Range, both: Range)
    requires merged != [] && Merging(s, home, merged) && Mergeable(child, merged[|merged| - 1]) && both.size > 0
    requires var top := merged[|merged| - 1];
             && both.base == (if child.base < top.base then child.base else top.base)
             && both.End() == (if child.End() > top.End() then child.End() else top.End())
    ensures Merging(s + [child], home + [|merged| - 1], merged[|merged| - 1 := both])
  {
    ReplaceContained(s, home, merged, child, both);
    ReplaceEnds(s, home, merged, child, both);
  }

  lemma ReplaceContained(s: seq<Range>, home: seq<nat>, merged: seq<Range>, child: Range, both: Range)
    requires merged != [] && Contained(s, home, merged) && InvalidAlone(s, home, merged)
    requires child.IsValid() && merged[|merged| - 1].IsValid()
    requires both.base <= child.base && both.base <= merged[|merged| - 1].base
    requires both.End() >= child.End() && both.End() >= merged[|merged| - 1].End()
    ensures Contained(s + [child], home + [|merged| - 1], merged[|merged| - 1 := both])
    ensures InvalidAlone(s + [child], home + [|merged| - 1], merged[|merged| - 1 := both])
  {
    var n := |merged| - 1;
    var s', home', merged' := s + [child], home + [n], merged[n := both];
    forall t, u | 0 <= t < |s'| && 0 <= u < |s'| && !s'[t].IsValid()
      ensures merged'[home'[t]] == s'[t] && (t != u ==> home'[u] != home'[t])
    {
      assert t < |s| && merged[home[t]] == s[t] && home[t] != n;
    }
  }

  lemma ReplaceEnds(s: seq<Range>, home: seq<nat>, merged: seq<Range>, child: Range, both: Range)
    requires merged != [] && |home| == |s| && EndsReached(s, home, merged) && both.size > 0
    requires both.End() == child.End() || both.End() == merged[|merged| - 1].End()
    ensures EndsReached(s + [child], home + [|merged| - 1], merged[|merged| - 1 := both])
  {
    var n := |merged| - 1;
    var s', home', merged' := s + [child], home + [n], merged[n := both];
    forall k | 0 <= k < |merged'|
      ensures ReachesEnd(s', home', merged'[k], k)
    {
      assert ReachesEnd(s, home, merged[k], k);
      var t :| 0 <= t < |s| && home[t] == k && s[t].End() == merged[k].End();
      assert home'[t] == k && s'[t] == s[t];
      assert home'[|s|] == n && s'[|s|] == child;
    }
  }

  /** A range that cannot be merged with the last one lies behind it. */
  lemma ChildBehindTop(top: Range, child: Range, last: Range)
    requires top.size > 0 && child.size > 0 && top.base <= child.base && !Mergeable(child, top)
    requires last.End() == top.End() && last.base <= child.base
    requires !child.IsValid() || !last.IsValid() ==> !Touch(child, last)
    ensures top.End() < child.base
  {
  }

  lemma PushSeparated(s: seq<Range>, i: nat, home: seq<nat>, merged: seq<Range>)
    requires 0 < i < |s| && Lonely(s) && Sorted(s) && s[i].size > 0
    requires merged != [] && Merging(s[..i], home, merged) && Separated(merged)
    requires merged[|merged| - 1].base <= s[i].base && !Mergeable(s[i], merged[|merged| - 1])
    ensures Separated(merged + [s[i]])
  {
    var top, child := merged[|merged| - 1], s[i];
    var t := LastInTop(s, i, home, merged);
    hide Merging;
    assert Before(s[t], child);
    assert !child.IsValid() ==> !Touch(child, s[t]);
    assert !s[t].IsValid() ==> !Touch(s[t], child);
    ChildBehindTop(top, child, s[t]);
    hide Lonely, Sorted;
    assert forall k :: 0 <= k < |merged| - 1 ==> merged[k].End() < top.base;
  }

  lemma LastInTop(s: seq<Range>, i: nat, home: seq<nat>, merged: seq<Range>) returns (t: nat)
    requires i <= |s| && merged != [] && Merging(s[..i], home, merged)
    ensures t < i && s[t].End() == merged[|merged| - 1].End() && merged[|merged| - 1].size > 0
  {
    var top := merged[|merged| - 1];
    assert ReachesEnd(s[..i], home, top, |merged| - 1);
    hide Merging;
    t :| t < i && home[t] == |merged| - 1 && s[..i][t].End() == top.End();
  }

  lemma CoveredReplace(merged: seq<Range>, child: Range, both: Range)
    requires merged != [] && forall x :: both.Has(x) <==> child.Has(x) || merged[|merged| - 1].Has(x)
    ensures forall x :: Covered(merged[|merged| - 1 := both], x) <==> Covered(merged, x) || child.Has(x)
  {
    var n := |merged| - 1;
    assert merged == merged[..n] + [merged[n]] && merged[n := both] == merged[..n] + [both];
    forall x
      ensures Covered(merged[n := both], x) <==> Covered(merged, x) || child.Has(x)
    {
      CoveredAppend(merged[..n], merged[n], x);
      CoveredAppend(merged[..n], both, x);
    }
  }

  /** Merges the next range into the last one, or puts it behind. */
  method MergeNext(s: seq<Range>, i: nat, merged: seq<Range>, ghost home: seq<nat>)
      returns (merged': seq<Range>, ghost home': seq<nat>)
    requires 0 < i < |s| && Sorted(s) && s[i].size > 0
    requires merged != [] && Merging(s[..i], home, merged) && merged[|merged| - 1].base <= s[i].base
    ensures merged' != [] && Merging(s[..i] + [s[i]], home', merged') && merged'[|merged'| - 1].base <= s[i].base
    ensures forall x :: Covered(merged', x) <==> Covered(merged, x) || s[i].Has(x)
    ensures Lonely(s) && Separated(merged) ==> Separated(merged')
  {
    hide Merging, Lonely, Covered, Sorted;
    var n, child := |merged| - 1, s[i];
    var both := DetermineMergedRange(child, merged[n]);
    if both.None? {
      PushMerging(s[..i], home, merged, child);
      if Lonely(s) && Separated(merged) {
        PushSeparated(s, i, home, merged);
      }
      forall x
        ensures Covered(merged + [child], x) <==> Covered(merged, x) || child.Has(x)
      {
        CoveredAppend(merged, child, x);
      }
      merged', home' := merged + [child], home + [|merged|];
    } else {
      ReplaceMerging(s[..i], home, merged, child, both.value);
      CoveredReplace(merged, child, both.value);
      merged', home' := merged[n := both.value], home + [n];
    }
  }

  method MergeSorted(s: seq<Range>) returns (merged: seq<Range>, ghost home: seq<nat>)
    requires s != [] && Sorted(s) && forall i :: 0 <= i < |s| ==> s[i].size > 0
    ensures Merging(s, home, merged)
    ensures forall x :: Covered(merged, x) <==> Covered(s, x)
    ensures Lonely(s) ==> Separated(merged)
  {
    hide Merging, Lonely, Covered, Separated;
    merged, home := [s[0]], [0];
    FirstMerged(s[..1], home, merged);
    assert s[..1] == merged;
    for i := 1 to |s|
      invariant merged != [] && Merging(s[..i], home, merged)
      invariant forall x :: Covered(merged, x) <==> Covered(s[..i], x)
      invariant merged[|merged| - 1].base <= s[i - 1].base
      invariant Lonely(s) ==> Separated(merged)
    {
      assert Before(s[i - 1], s[i]);
      assert s[..i + 1] == s[..i] + [s[i]];
      forall x
        ensures Covered(s[..i + 1], x) <==> Covered(s[..i], x) || s[i].Has(x)
      {
        CoveredAppend(s[..i], s[i], x);
      }
      merged, home := MergeNext(s, i, merged, home);
    }
    assert s[..|s|] == s;
  }

  lemma FirstMerged(s: seq<Range>, home: seq<nat>, merged: seq<Range>)
    requires |s| == |home| == |merged| == 1 && home[0] == 0 && merged[0] == s[0] && s[0].size > 0
    ensures Merging(s, home, merged) && Separated(merged)
  {
    assert ReachesEnd(s, home, merged[0], 0);
  }

  /** If what was merged is separated, no invalid range touched another one. */
  lemma SeparatedMeansLonely(s: seq<Range>, home: seq<nat>, merged: seq<Range>)
    requires Merging(s, home, merged) && Separated(merged)
    ensures Lonely(s)
  {
    forall t, u | 0 <= t < |s| && 0 <= u < |s| && t != u && !s[t].IsValid()
      ensures !Touch(s[t], s[u])
    {
      var a, b := home[t], home[u];
      assert a != b && merged[a] == s[t];
      assert merged[b].End() < merged[a].base;
    }
  }

  /** A range past the end of the address space that contains another one is not merged with it. */
  lemma TouchedButNotMerged()
    ensures var a, b := Range(10, TWO_64 - 1), Range(20, 5);
            !AllLonely(multiset{a, b}) && Touch(a, b) && !Mergeable(a, b)
  {
    var a, b := Range(10, TWO_64 - 1), Range(20, 5);
    assert a in multiset{a, b} && b in multiset{a, b};
  }

  // The whole

  /** As Lonely, of the ranges that are not empty, in whatever order they are. */
  ghost predicate AllLonely(ranges: multiset<Range>) {
    forall r: Range :: r in ranges && r.size > 0 && !r.IsValid() ==>
      ranges[r] == 1 && forall q: Range :: q in ranges && q.size > 0 && q != r ==> !Touch(r, q)
  }

  lemma InTwice(s: seq<Range>, t: nat, u: nat)
    requires t < u < |s| && s[t] == s[u]
    ensures multiset(s)[s[t]] >= 2
  {
    assert s == s[..u] + [s[u]] + s[u + 1..];
    assert s[..u][t] == s[t] && s[t] in s[..u];
    assert multiset(s) == multiset(s[..u]) + multiset{s[u]} + multiset(s[u + 1..]);
  }

  lemma TwiceIn(s: seq<Range>, t: nat)
    requires t < |s| && multiset(s)[s[t]] != 1
    ensures exists u :: 0 <= u < |s| && u != t && s[u] == s[t]
  {
    assert s == s[..t] + [s[t]] + s[t + 1..];
    assert multiset(s) == multiset(s[..t]) + multiset{s[t]} + multiset(s[t + 1..]);
    if s[t] in multiset(s[..t]) {
      var u :| 0 <= u < t && s[..t][u] == s[t];
      assert s[u] == s[t];
    } else {
      assert s[t] in multiset(s[t + 1..]);
      var u :| 0 <= u < |s| - t - 1 && s[t + 1..][u] == s[t];
      assert s[t + 1 + u] == s[t];
    }
  }

  lemma LonelyInAnyOrder(s: seq<Range>)
    requires forall i :: 0 <= i < |s| ==> s[i].size > 0
    ensures Lonely(s) <==> AllLonely(multiset(s))
  {
    if AllLonely(multiset(s)) {
      forall t, u | 0 <= t < |s| && 0 <= u < |s| && t != u && !s[t].IsValid()
        ensures !Touch(s[t], s[u])
      {
        assert s[t] in multiset(s) && s[u] in multiset(s);
        if s[t] == s[u] {
          InTwice(s, if t < u then t else u, if t < u then u else t);
        }
      }
    }
    if Lonely(s) {
      forall r: Range | r in multiset(s) && r.size > 0 && !r.IsValid()
        ensures multiset(s)[r] == 1 && forall q: Range :: q in multiset(s) && q.size > 0 && q != r ==> !Touch(r, q)
      {
        var t :| 0 <= t < |s| && s[t] == r;
        if multiset(s)[r] != 1 {
          TwiceIn(s, t);
        }
        forall q: Range | q in multiset(s) && q != r
          ensures !Touch(r, q)
        {
          var u :| 0 <= u < |s| && s[u] == q;
        }
      }
    }
  }

  lemma SameRangesSameCover(a: seq<Range>, b: seq<Range>)
    requires forall r: Range :: r.size > 0 ==> multiset(a)[r] == multiset(b)[r]
    ensures forall x :: Covered(a, x) ==> Covered(b, x)
    ensures AllLonely(multiset(a)) ==> AllLonely(multiset(b))
  {
    forall x | Covered(a, x)
      ensures Covered(b, x)
    {
      var i :| 0 <= i < |a| && a[i].Has(x);
      assert a[i] in multiset(a) && a[i] in multiset(b) && a[i] in b;
    }
  }

  method RemoveEmpty(ranges: seq<Range>) returns (s: seq<Range>)
    ensures s == NonEmpty(ranges)
  {
    s := [];
    for n := 0 to |ranges|
      invariant s == NonEmpty(ranges[..n])
    {
      assert ranges[..n + 1][..n] == ranges[..n];
      if ranges[n].size != 0 {
        s := s + [ranges[n]];
      }
    }
    assert ranges[..|ranges|] == ranges;
  }

  class MemoryListWriter {
    var children: seq<Range>
    var nonOwned: seq<Range>

    method DropRangesThatOverlapNonOwned()
      modifies this`children
      ensures children == Survivors(old(children), nonOwned)
    {
      var nonOverlapping := [];
      for n := 0 to |children|
        invariant children == old(children) && nonOverlapping == Survivors(children[..n], nonOwned)
      {
        var overlaps := false;
        for k := 0 to |nonOwned|
          invariant children == old(children)
          invariant !overlaps && forall j :: 0 <= j < k ==> !Mergeable(children[n], nonOwned[j])
        {
          var both := DetermineMergedRange(children[n], nonOwned[k]);
          if both.Some? {
            overlaps := true;
            break;
          }
        }
        assert overlaps <==> TouchesAny(children[n], nonOwned);
        assert children[..n + 1][..n] == children[..n];
        if !overlaps {
          nonOverlapping := nonOverlapping + [children[n]];
        }
      }
      assert children[..|children|] == children;
      children := nonOverlapping;
    }

    /** Merges what survives the drop. The result covers the same addresses; it consists of ranges with
        gaps between them, in order, exactly if no surviving range that runs past the end of the
        address space touches another one; and it is disjoint from all that is owned elsewhere, exactly
        if no owned range overlaps that unseen. Not all survivors may be empty. */
    method CoalesceOwnedMemory()
      requires var s := Survivors(children, nonOwned); s == [] || exists i :: 0 <= i < |s| && s[i].size > 0
      modifies this`children
      ensures var s := Survivors(old(children), nonOwned);
              && (forall x :: Covered(children, x) <==> Covered(s, x))
              && (Separated(children) <==> AllLonely(multiset(s)))
      ensures Disjoint(children, nonOwned) <==> NoneHidden(old(children), nonOwned)
      ensures forall i :: 0 <= i < |children| ==> children[i].size > 0
    {
      SurvivorsAreApartExactly(children, nonOwned);
      DropRangesThatOverlapNonOwned();
      if children == [] {
        return;
      }
      ghost var s := children;
      children := Sort(children);
      NonEmptyContents(children);
      NonEmptySorted(children);
      children := RemoveEmpty(children);
      SameRangesSameCover(s, children);
      SameRangesSameCover(children, s);
      LonelyInAnyOrder(children);
      assert children != [] by {
        var i :| 0 <= i < |s| && s[i].size > 0;
        assert s[i] in multiset(s) && s[i] in multiset(children);
      }
      ghost var sorted, home := children, [];
      children, home := MergeSorted(children);
      if Separated(children) {
        SeparatedMeansLonely(sorted, home, children);
      }
    }
  }

}
