/** The queue that the ring buffer is meant to be: length-delimited items, and the eviction of
    whole items from the front until the rest fits. */
module Fifo {
  import opened Bytes
  import Varint

  type Item = seq<byte>

  /** Items the writer takes: not empty, and of a length whose encoded size is a 32-bit number. */
  predicate Proper(x: Item) {
    0 < |x| < TWO_32 - 5
  }

  predicate AllProper(q: seq<Item>) {
    forall i :: 0 <= i < |q| ==> Proper(q[i])
  }

  function EncodeItem(x: Item): (s: seq<byte>)
    ensures |x| < |s|
  {
    Varint.Encode(|x|) + x
  }

  function EncodeAll(q: seq<Item>): seq<byte> {
    if q == [] then [] else EncodeItem(q[0]) + EncodeAll(q[1..])
  }

  /** The first item of s and the bytes it occupies; none when the delimiter is malformed or zero,
      or when fewer bytes follow than it announces. */
  function PopFront(s: seq<byte>): (r: Option<(Item, nat)>)
    ensures r.Some? ==> 0 < r.value.1 <= |s|
  {
    match Varint.Read(s)
    case None => None
    case Some((n, k)) =>
      if n == 0 || k + n > |s| then None else Some((s[k..k + n], k + n))
  }

  /** All items that popping until failure yields. */
  function Drain(s: seq<byte>): seq<Item>
    decreases |s|
  {
    match PopFront(s)
    case None => []
    case Some((x, k)) => [x] + Drain(s[k..])
  }

  /** s consists of whole items only. */
  predicate Whole(s: seq<byte>) {
    AllProper(Drain(s)) && EncodeAll(Drain(s)) == s
  }

  lemma PopFrontEncoded(x: Item, rest: seq<byte>)
    requires Proper(x)
    ensures PopFront(EncodeItem(x) + rest) == Some((x, |EncodeItem(x)|))
  {
    var s := EncodeItem(x) + rest;
    var v := Varint.Encode(|x|);
    assert s == v + (x + rest);
    Varint.RoundTrip(|x|, x + rest);
    assert s[|v|..|v| + |x|] == x;
  }

  /** No part of an item is popped: an item that is cut off anywhere, or a delimiter of zero, ends it. */
  lemma CutItemNotPopped(x: Item, m: nat, rest: seq<byte>)
    requires Proper(x) && m < |EncodeItem(x)|
    ensures PopFront(EncodeItem(x)[..m]) == None && PopFront([0] + rest) == None
  {
    var v := Varint.Encode(|x|);
    var s := EncodeItem(x)[..m];
    if m < |v| {
      assert s == v[..m];
      Varint.CutVarintFails(|x|, 0, 0, m);
    } else {
      Varint.RoundTrip(|x|, x[..m - |v|]);
      assert s == v + x[..m - |v|];
    }
  }

  lemma {:induction false} DrainEncoded(q: seq<Item>)
    requires AllProper(q)
    ensures Drain(EncodeAll(q)) == q
    ensures Whole(EncodeAll(q))
  {
    if q != [] {
      var rest := EncodeAll(q[1..]);
      PopFrontEncoded(q[0], rest);
      assert (EncodeItem(q[0]) + rest)[|EncodeItem(q[0])|..] == rest;
      DrainEncoded(q[1..]);
    }
  }

  lemma {:induction false} EncodeAllConcat(a: seq<Item>, b: seq<Item>)
    ensures EncodeAll(a + b) == EncodeAll(a) + EncodeAll(b)
  {
    if a == [] {
      assert a + b == b;
    } else {
      assert (a + b)[1..] == a[1..] + b;
      EncodeAllConcat(a[1..], b);
    }
  }

  /** Drops the oldest items until the encoding of the rest takes at most room bytes. */
  function Evict(q: seq<Item>, room: nat): (r: seq<Item>)
    ensures |EncodeAll(r)| <= room
    ensures |r| <= |q| && r == q[|q| - |r|..]
  {
    if |EncodeAll(q)| <= room then q else Evict(q[1..], room)
  }

  /** r is the longest suffix of q whose encoding fits in room bytes. */
  ghost predicate IsLongestFittingSuffix(r: seq<Item>, q: seq<Item>, room: nat) {
    && |r| <= |q|
    && r == q[|q| - |r|..]
    && |EncodeAll(r)| <= room
    && forall i :: 0 <= i < |q| - |r| ==> |EncodeAll(q[i..])| > room
  }

  lemma {:induction false} EvictIsLongest(q: seq<Item>, room: nat)
    ensures IsLongestFittingSuffix(Evict(q, room), q, room)
  {
    if |EncodeAll(q)| > room {
      EvictIsLongest(q[1..], room);
      var r := Evict(q[1..], room);
      forall i | 0 <= i < |q| - |r|
        ensures |EncodeAll(q[i..])| > room
      {
        if i == 0 {
          assert q[0..] == q;
        } else {
          assert q[1..][i - 1..] == q[i..];
        }
      }
    }
  }

  lemma EncodeAllOne(x: Item)
    ensures EncodeAll([x]) == EncodeItem(x)
  {
    assert EncodeAll([x]) == EncodeItem(x) + EncodeAll([x][1..]);
  }

  /** Making room before appending keeps the same items as trimming after appending. */
  lemma {:induction false} EvictThenAppend(q: seq<Item>, x: Item, cap: nat)
    requires |EncodeItem(x)| <= cap
    ensures Evict(q + [x], cap) == Evict(q, cap - |EncodeItem(x)|) + [x]
  {
    EncodeAllConcat(q, [x]);
    EncodeAllOne(x);
    if |EncodeAll(q)| > cap - |EncodeItem(x)| {
      assert (q + [x])[1..] == q[1..] + [x];
      EvictThenAppend(q[1..], x, cap);
    }
  }

  /** Trimming before an append does not change what is left after trimming again. */
  lemma {:induction false} EvictTwice(q: seq<Item>, x: Item, cap: nat)
    ensures Evict(Evict(q, cap) + [x], cap) == Evict(q + [x], cap)
  {
    if |EncodeAll(q)| > cap {
      EncodeAllConcat(q, [x]);
      assert (q + [x])[1..] == q[1..] + [x];
      EvictTwice(q[1..], x, cap);
    }
  }

  predicate Rejected(n: nat, cap: nat) {
    n == 0 || |Varint.Encode(n)| + n > cap
  }

  /** The lengths whose bytes the writer really stores. */
  predicate Storable(n: nat, cap: nat) {
    0 < n && 2 * n <= cap && 3 <= cap
  }

  lemma {:induction false} StorableFits(n: nat, cap: nat)
    requires Storable(n, cap)
    ensures |Varint.Encode(n)| + n < cap
  {
    Varint.LengthBelowValue(n);
    assert n <= 2 ==> |Varint.Encode(n)| == 1;
  }

  /** What is refused: the empty item, and items whose encoding is longer than the capacity. */
  lemma RejectedExactly(x: Item, cap: nat)
    ensures Rejected(|x|, cap) <==> x == [] || |EncodeItem(x)| > cap
  {
  }

  lemma {:induction false} StorableIsAccepted(n: nat, cap: nat)
    requires Storable(n, cap)
    ensures !Rejected(n, cap)
  {
    StorableFits(n, cap);
  }

  /** The push requests of a run, in order, that were not rejected. */
  function Accepted(items: seq<Item>, cap: nat): seq<Item> {
    if items == [] then []
    else
      var before := Accepted(items[..|items| - 1], cap);
      var x := items[|items| - 1];
      if Rejected(|x|, cap) then before else before + [x]
  }

  /** Nothing is refused that fits. */
  lemma {:induction false} AllAccepted(items: seq<Item>, cap: nat)
    requires forall i :: 0 <= i < |items| ==> items[i] != [] && |EncodeItem(items[i])| <= cap
    ensures Accepted(items, cap) == items
  {
    if items != [] {
      var n := |items| - 1;
      AllAccepted(items[..n], cap);
      RejectedExactly(items[n], cap);
      assert items == items[..n] + [items[n]];
    }
  }

  /** One push on the queue. */
  function Push(q: seq<Item>, x: Item, cap: nat): seq<Item> {
    if Rejected(|x|, cap) then q else Evict(q + [x], cap)
  }

  function PushAll(items: seq<Item>, cap: nat): seq<Item> {
    if items == [] then [] else Push(PushAll(items[..|items| - 1], cap), items[|items| - 1], cap)
  }

  /** A run of pushes from empty leaves the longest suffix of the accepted items that fits. */
  lemma {:induction false} RunKeepsLongestSuffix(items: seq<Item>, cap: nat)
    ensures IsLongestFittingSuffix(PushAll(items, cap), Accepted(items, cap), cap)
    ensures PushAll(items, cap) == Evict(Accepted(items, cap), cap)
  {
    EvictIsLongest(Accepted(items, cap), cap);
    if items != [] {
      RunKeepsLongestSuffix(items[..|items| - 1], cap);
      EvictTwice(Accepted(items[..|items| - 1], cap), items[|items| - 1], cap);
    }
  }

  /** An item of a storable length that is pushed last is the last one read. */
  lemma LastStaysLast(items: seq<Item>, x: Item, cap: nat)
    requires Storable(|x|, cap)
    ensures var q := PushAll(items + [x], cap); q != [] && q[|q| - 1] == x
  {
    StorableFits(|x|, cap);
    assert (items + [x])[..|items|] == items;
    EvictThenAppend(PushAll(items, cap), x, cap);
  }

  lemma {:induction false} DrainOne(s: seq<byte>)
    ensures Drain(s) == match PopFront(s) case None => [] case Some((x, k)) => [x] + Drain(s[k..])
  {
  }

  /** What a run of pushes leaves to be read: the longest suffix of the accepted items that fits; of all
      items if all are storable; and if the last one is, it ends with that. */
  ghost predicate IsReadBack(q: seq<Item>, items: seq<Item>, cap: nat) {
    && IsLongestFittingSuffix(q, Accepted(items, cap), cap)
    && (AllStorable(items, cap) ==> IsLongestFittingSuffix(q, items, cap))
    && (items != [] && Storable(|items[|items| - 1]|, cap) ==> q != [] && q[|q| - 1] == items[|items| - 1])
  }

  predicate AllStorable(items: seq<Item>, cap: nat) {
    forall i :: 0 <= i < |items| ==> Storable(|items[i]|, cap)
  }

  lemma {:induction false} PushAllIsReadBack(items: seq<Item>, cap: nat)
    ensures IsReadBack(PushAll(items, cap), items, cap)
  {
    hide Accepted, PushAll, IsLongestFittingSuffix, EncodeItem, AllStorable, Storable, Evict, EncodeAll;
    RunKeepsLongestSuffix(items, cap);
    if AllStorable(items, cap) {
      StorableAreAccepted(items, cap);
    }
    if items != [] && Storable(|items[|items| - 1]|, cap) {
      var n := |items| - 1;
      LastStaysLast(items[..n], items[n], cap);
      assert items[..n] + [items[n]] == items;
    }
  }

  lemma {:induction false} StorableAreAccepted(items: seq<Item>, cap: nat)
    requires AllStorable(items, cap)
    ensures Accepted(items, cap) == items
  {
    hide Accepted;
    forall i | 0 <= i < |items|
      ensures items[i] != [] && |EncodeItem(items[i])| <= cap
    {
      StorableFits(|items[i]|, cap);
    }
    AllAccepted(items, cap);
  }

  lemma PushNone(items: seq<Item>, cap: nat)
    ensures PushAll(items[..0], cap) == []
  {
  }

  lemma {:induction false} PushOneMore(items: seq<Item>, i: nat, cap: nat)
    requires i < |items|
    ensures PushAll(items[..i + 1], cap) == Push(PushAll(items[..i], cap), items[i], cap)
  {
    assert items[..i + 1][..i] == items[..i];
  }
}
