/** A ring buffer and its writer as one value: the byte array, the readable range of the header
    and the write offset; and what a push does to it. */
module RingModel {
  import opened Bytes
  import opened Fifo
  import Varint

  /** The ring capacities on which offsets can be added in 32 bits. */
  const MAX_CAPACITY: int := 0x8000_0000

  datatype Ring = Ring(data: seq<byte>, offset: nat, length: nat, writeOffset: nat) {
    function Capacity(): nat {
      |data|
    }

    predicate InBounds() {
      0 < |data| <= MAX_CAPACITY && offset < |data| && length <= |data| && writeOffset < |data|
    }

    /** What holds of a ring after any pushes: the length in the header is just some 32-bit number. */
    predicate Plausible() {
      0 < |data| <= MAX_CAPACITY && offset < |data| && length < TWO_32 && writeOffset < |data|
    }

    /** The readable bytes, unwrapped. */
    function View(): (s: seq<byte>)
      requires InBounds()
      ensures |s| == length
    {
      Unrolled(data, offset)[..length]
    }

    /** The items that a reader gets. */
    function Items(): seq<Item>
      requires InBounds()
    {
      Drain(View())
    }

    /** The readable region consists of whole items and the writer continues right behind it. */
    predicate Valid() {
      InBounds() && writeOffset == Wrap(offset + length, |data|) && Whole(View())
    }
  }

  /** i modulo cap, for the sum of an offset and a length. */
  function Wrap(i: nat, cap: nat): (j: nat)
    requires i < 2 * cap
    ensures j < cap
  {
    if i < cap then i else i - cap
  }

  lemma WrapIsModulo(i: nat, cap: nat)
    requires i < 2 * cap
    ensures Wrap(i, cap) == i % cap
  {
    if cap <= i {
      assert i % cap == (i - cap) % cap;
    }
  }

  /** Adding to an offset in 32-bit arithmetic and reducing modulo the capacity. */
  function Advance(offset: nat, n: nat, cap: nat): nat
    requires 0 < cap
  {
    U32(offset + n) % cap
  }

  lemma AdvanceWraps(offset: nat, n: nat, cap: nat)
    requires offset < cap && n <= cap <= MAX_CAPACITY
    ensures Advance(offset, n, cap) == Wrap(offset + n, cap)
  {
    WrapIsModulo(offset + n, cap);
  }

  lemma AdvanceOverflows(cap: nat)
    requires MAX_CAPACITY < cap < TWO_32
    ensures var n := TWO_32 - cap + 1;
            n <= cap && Advance(cap - 1, n, cap) != Wrap(cap - 1 + n, cap)
  {
    assert U32(TWO_32) == 0;
    assert 0 % cap == 0;
  }

  /** Offsets advance correctly around the ring exactly up to a capacity of 2^31. */
  lemma AdvanceExact(cap: nat)
    requires 0 < cap < TWO_32
    ensures cap <= MAX_CAPACITY <==>
            forall offset: nat, n: nat | offset < cap && n <= cap :: Advance(offset, n, cap) == Wrap(offset + n, cap)
  {
    if cap <= MAX_CAPACITY {
      forall offset: nat, n: nat | offset < cap && n <= cap
        ensures Advance(offset, n, cap) == Wrap(offset + n, cap)
      {
        AdvanceWraps(offset, n, cap);
      }
    } else {
      AdvanceOverflows(cap);
    }
  }

  /** The whole array read from an offset on, around the end. */
  function Unrolled(data: seq<byte>, offset: nat): (s: seq<byte>)
    requires offset < |data|
    ensures |s| == |data|
  {
    data[offset..] + data[..offset]
  }

  /** The array after s was written at an offset, around the end. */
  function WriteAt(data: seq<byte>, offset: nat, s: seq<byte>): (d: seq<byte>)
    requires offset < |data| && |s| <= |data|
    ensures |d| == |data|
  {
    var u := s + Unrolled(data, offset)[|s|..];
    u[|data| - offset..] + u[..|data| - offset]
  }

  lemma UnrolledWriteAt(data: seq<byte>, offset: nat, s: seq<byte>)
    requires offset < |data| && |s| <= |data|
    ensures Unrolled(WriteAt(data, offset, s), offset) == s + Unrolled(data, offset)[|s|..]
  {
    assert Unrolled(WriteAt(data, offset, s), offset) == s + Unrolled(data, offset)[|s|..];
  }

  lemma UnrolledInjective(d: seq<byte>, e: seq<byte>, offset: nat)
    requires offset < |d| == |e|
    requires Unrolled(d, offset) == Unrolled(e, offset)
    ensures d == e
  {
    var k := |d| - offset;
    assert d == Unrolled(d, offset)[k..] + Unrolled(d, offset)[..k];
    assert e == Unrolled(e, offset)[k..] + Unrolled(e, offset)[..k];
  }

  lemma UnrolledRotates(data: seq<byte>, offset: nat, n: nat)
    requires offset < |data| && n <= |data|
    ensures Unrolled(data, Wrap(offset + n, |data|))
         == Unrolled(data, offset)[n..] + Unrolled(data, offset)[..n]
  {
    var u, m := Unrolled(data, offset), Wrap(offset + n, |data|);
    if offset + n < |data| {
      assert u[n..] == data[m..] + data[..offset];
      assert data[..m] == data[..offset] + u[..n];
    } else {
      assert u[n..] == data[m..offset];
      assert data[m..] == u[n..] + data[offset..];
      assert u[..n] == data[offset..] + data[..m];
    }
  }

  lemma WrapAround(offset: nat, n: nat, cap: nat)
    requires offset < cap && n <= cap
    ensures Wrap(Wrap(offset + n, cap) + (cap - n), cap) == offset
  {
  }

  /** Writing a and then b behind it is writing a + b. */
  lemma {:induction false} WriteAtTwice(data: seq<byte>, offset: nat, a: seq<byte>, b: seq<byte>)
    requires offset < |data| && |a| + |b| <= |data|
    ensures WriteAt(WriteAt(data, offset, a), Wrap(offset + |a|, |data|), b) == WriteAt(data, offset, a + b)
  {
    hide Unrolled, WriteAt, Wrap;
    var d, next, k := WriteAt(data, offset, a), Wrap(offset + |a|, |data|), |data| - |a|;
    var e := WriteAt(d, next, b);
    var u, tail := Unrolled(data, offset), Unrolled(data, offset)[|a + b|..];
    UnrolledWriteAt(data, offset, a);
    UnrolledWriteAt(d, next, b);
    UnrolledWriteAt(data, offset, a + b);
    UnrolledRotates(d, offset, |a|);
    assert Unrolled(d, next) == u[|a|..] + a;
    assert Unrolled(e, next) == b + tail + a;
    WrapAround(offset, |a|, |data|);
    UnrolledRotates(e, next, k);
    assert (b + tail + a)[k..] == a && (b + tail + a)[..k] == b + tail;
    assert a + (b + tail) == a + b + tail;
    UnrolledInjective(e, WriteAt(data, offset, a + b), offset);
  }

  /** What reaches the array when an item of the given length is pushed: nothing when the item
      needs the whole capacity, only the delimiter when it is longer than half the capacity. */
  function Stored(x: Item, cap: nat): (s: seq<byte>)
    requires !Rejected(|x|, cap)
    ensures |s| <= cap
  {
    if |EncodeItem(x)| == cap then []
    else if |x| > cap - |x| then Varint.Encode(|x|)
    else EncodeItem(x)
  }

  /** The items that stay when an item of length n is pushed. */
  function Kept(r: Ring, n: nat): (q: seq<Item>)
    requires r.InBounds() && !Rejected(n, r.Capacity())
  {
    Evict(r.Items(), r.Capacity() - n - |Varint.Encode(n)|)
  }

  lemma {:induction false} SuffixIsShorter(q: seq<Item>, r: seq<Item>)
    requires |r| <= |q| && r == q[|q| - |r|..]
    ensures EncodeAll(q) == EncodeAll(q[..|q| - |r|]) + EncodeAll(r)
  {
    EncodeAllConcat(q[..|q| - |r|], r);
    assert q == q[..|q| - |r|] + r;
  }

  function KeptBytes(r: Ring, n: nat): (s: seq<byte>)
    requires r.Valid() && !Rejected(n, r.Capacity())
    ensures |s| <= r.length && s == r.View()[r.length - |s|..]
    ensures |s| + |Varint.Encode(n)| + n <= r.Capacity()
  {
    SuffixIsShorter(r.Items(), Kept(r, n));
    EncodeAll(Kept(r, n))
  }

  function AfterPush(r: Ring, x: Item): (r': Ring)
    requires r.Valid()
    ensures r'.InBounds() && r'.Capacity() == r.Capacity()
  {
    var cap := r.Capacity();
    if Rejected(|x|, cap) then r
    else
      var kept := |KeptBytes(r, |x|)|;
      var s := Stored(x, cap);
      Ring(WriteAt(r.data, r.writeOffset, s),
           Wrap(r.offset + (r.length - kept), cap),
           kept + |EncodeItem(x)|,
           Wrap(r.writeOffset + |s|, cap))
  }

  lemma UnrolledSkip(data: seq<byte>, offset: nat, length: nat, skip: nat)
    requires offset < |data| && skip <= length <= |data|
    ensures var start := Wrap(offset + skip, |data|);
            && Unrolled(data, start)[..length - skip] == Unrolled(data, offset)[..length][skip..]
            && Wrap(start + (length - skip), |data|) == Wrap(offset + length, |data|)
  {
    UnrolledRotates(data, offset, skip);
  }

  lemma WriteBehind(data: seq<byte>, start: nat, k: nat, s: seq<byte>)
    requires start < |data| && k + |s| <= |data|
    ensures var d := WriteAt(data, Wrap(start + k, |data|), s);
            && Unrolled(d, start)[..k] == Unrolled(data, start)[..k]
            && Unrolled(d, start)[k..k + |s|] == s
  {
    var w := Wrap(start + k, |data|);
    var d := WriteAt(data, w, s);
    UnrolledWriteAt(data, w, s);
    UnrolledRotates(data, start, k);
    UnrolledRotates(d, start, k);
    var u, v := Unrolled(data, start), Unrolled(d, start);
    assert v[k..] + v[..k] == s + (u[k..] + u[..k])[|s|..];
    assert v[..k] == (v[k..] + v[..k])[|data| - k..];
    assert v[k..k + |s|] == (v[k..] + v[..k])[..|s|];
  }

  lemma KeptStays(data: seq<byte>, offset: nat, length: nat, kept: seq<byte>, s: seq<byte>)
    requires offset < |data| && |kept| <= length <= |data| && |kept| + |s| <= |data|
    requires kept == Unrolled(data, offset)[..length][length - |kept|..]
    ensures var start := Wrap(offset + (length - |kept|), |data|);
            && Wrap(start + |kept|, |data|) == Wrap(offset + length, |data|)
            && Unrolled(data, start)[..|kept|] == kept
    ensures var start := Wrap(offset + (length - |kept|), |data|);
            var u := Unrolled(WriteAt(data, Wrap(offset + length, |data|), s), start);
            u[..|kept|] == kept && u[|kept|..|kept| + |s|] == s
  {
    UnrolledSkip(data, offset, length, length - |kept|);
    WriteBehind(data, Wrap(offset + (length - |kept|), |data|), |kept|, s);
  }

  /** The items that stay are where they were, followed by whatever was stored of the new one. */
  lemma {:induction false} RetainedUntouched(r: Ring, x: Item)
      returns (kept: seq<byte>, s: seq<byte>, r': Ring)
    requires r.Valid() && !Rejected(|x|, r.Capacity())
    ensures kept == KeptBytes(r, |x|) && s == Stored(x, r.Capacity()) && r' == AfterPush(r, x)
    ensures |kept| + |s| <= r.Capacity()
    ensures Unrolled(r.data, r'.offset)[..|kept|] == kept
    ensures Unrolled(r'.data, r'.offset)[..|kept|] == kept
    ensures Unrolled(r'.data, r'.offset)[|kept|..|kept| + |s|] == s
    ensures Wrap(r'.offset + |kept|, r.Capacity()) == r.writeOffset
    ensures r'.length == |kept| + |EncodeItem(x)|
    ensures r'.writeOffset == Wrap(r.writeOffset + |s|, r.Capacity())
  {
    var cap := r.Capacity();
    hide Unrolled, WriteAt, Wrap, KeptBytes, EncodeItem, Whole;
    kept, s, r' := KeptBytes(r, |x|), Stored(x, cap), AfterPush(r, x);
    KeptStays(r.data, r.offset, r.length, kept, s);
  }

  lemma {:induction false} AppendEncoded(all: seq<Item>, q: seq<Item>, x: Item)
    requires AllProper(all) && Proper(x)
    requires |q| <= |all| && q == all[|all| - |q|..]
    ensures Whole(EncodeAll(q) + EncodeItem(x))
    ensures Drain(EncodeAll(q) + EncodeItem(x)) == q + [x]
  {
    EncodeAllConcat(q, [x]);
    EncodeAllOne(x);
    DrainEncoded(q + [x]);
  }

  lemma {:induction false} StoredWhole(x: Item, cap: nat)
    requires Storable(|x|, cap) && !Rejected(|x|, cap)
    ensures Stored(x, cap) == EncodeItem(x)
  {
    StorableFits(|x|, cap);
  }

  lemma {:induction false} PushStoresAccepted(r: Ring, x: Item)
    requires r.Valid() && Storable(|x|, r.Capacity()) && !Rejected(|x|, r.Capacity())
    ensures AfterPush(r, x).Valid()
    ensures AfterPush(r, x).Items() == Evict(r.Items() + [x], r.Capacity())
  {
    hide AfterPush, Unrolled, WriteAt, Evict, Drain, EncodeAll, Stored;
    var kept, s, r' := RetainedUntouched(r, x);
    StoredWhole(x, r.Capacity());
    assert r'.View() == kept + s;
    AppendEncoded(r.Items(), Kept(r, |x|), x);
    EvictThenAppend(r.Items(), x, r.Capacity());
  }

  /** An item of a storable length is appended, and only as many old items go as must. */
  lemma {:induction false} PushStores(r: Ring, x: Item)
    requires r.Valid() && (Rejected(|x|, r.Capacity()) || Storable(|x|, r.Capacity()))
    ensures AfterPush(r, x).Valid()
    ensures AfterPush(r, x).Items() == Push(r.Items(), x, r.Capacity())
  {
    hide Evict, Drain, EncodeAll, Whole;
    if !Rejected(|x|, r.Capacity()) {
      PushStoresAccepted(r, x);
    }
  }

  /** Pushing either of two items of a length that is not storable has the same effect. */
  lemma {:induction false} UnstoredIndistinct(r: Ring, x: Item, y: Item)
    requires r.Valid() && |x| == |y| && !Rejected(|x|, r.Capacity()) && !Storable(|x|, r.Capacity())
    ensures AfterPush(r, x) == AfterPush(r, y)
  {
    hide Unrolled, WriteAt, Wrap, Evict, Drain, EncodeAll, KeptBytes;
    assert Stored(x, r.Capacity()) == Stored(y, r.Capacity());
  }

  /** A push stores every item of a length, on any valid ring, exactly if the length is storable.
      Otherwise the bytes of the item never reach the array, although the push succeeds. */
  lemma {:induction false} PushStoresExactly(r: Ring, n: nat)
    requires r.Valid() && !Rejected(n, r.Capacity())
    ensures Storable(n, r.Capacity()) <==>
            forall x: Item | |x| == n :: AfterPush(r, x).Items() == Push(r.Items(), x, r.Capacity())
  {
    hide AfterPush, Unrolled, WriteAt, Wrap, Evict, Drain, EncodeAll, Whole;
    var cap := r.Capacity();
    if Storable(n, cap) {
      forall x: Item | |x| == n
        ensures AfterPush(r, x).Items() == Push(r.Items(), x, cap)
      {
        PushStores(r, x);
      }
    } else {
      var x: Item := seq(n, i => 0);
      var y: Item := seq(n, i => 1);
      UnstoredIndistinct(r, x, y);
      EvictThenAppend(r.Items(), x, cap);
      EvictThenAppend(r.Items(), y, cap);
      assert x[0] != y[0];
      var q := Evict(r.Items(), cap - |EncodeItem(x)|);
      assert (q + [x])[|q|] != (q + [y])[|q|];
    }
  }
}
