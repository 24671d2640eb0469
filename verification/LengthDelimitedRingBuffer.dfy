/** The ring buffer storage with its writer and its reader, as objects. */
module LengthDelimitedRingBuffer {
  import opened Bytes
  import opened Fifo
  import opened RingModel
  import opened RingBuffer
  import opened AnyRing
  import Varint

  /** The header's readable range, and the bytes. */
  class RingBufferData {
    var range: Range
    const data: array<byte>

    constructor (capacity: nat)
      requires 0 < capacity <= MAX_CAPACITY
      ensures range == Range(0, 0) && data.Length == capacity && fresh(data)
    {
      range := Range(0, 0);
      data := new byte[capacity];
    }
  }

  /** Skips the entry at the front of a range, including its delimiter; says how long it was. */
  method SkipFront(data: array<byte>, readable: Range) returns (freed: Option<nat>, rest: Range)
    requires readable.In(data.Length)
    ensures var found := Varint.Read(Seen(data[..], readable));
            && freed.Some? == found.Some?
            && (found.Some? ==> freed.value == found.value.1 + found.value.0 && found.value.0 < TWO_32
                                && rest == Behind(readable, found.value.1, found.value.0, data.Length))
  {
    hide Unrolled, Wrap, Advance, U32;
    Varint.ReadFits(Seen(data[..], readable));
    var length;
    length, rest := ReadVarint(data, readable);
    if length.None? {
      return None, rest;
    }
    var skip := length.value.0;
    rest := Range(Advance(rest.offset, skip, data.Length), U32(rest.length - skip));
    freed := Some(length.value.1 + skip);
  }

  /** Moves a range past entries until the needed bytes are free; fails at a delimiter that cannot be
      read. */
  method MakeRoom(data: array<byte>, range: Range, needed: nat) returns (ok: bool, readable: Range)
    requires range.Starts(data.Length) && needed <= data.Length && !MakeRoomOn(data[..], range, needed).Around?
    ensures var room := MakeRoomOn(data[..], range, needed);
            if room.Room? then ok && readable == room.range else !ok
  {
    hide Unrolled, Wrap, Behind, U32;
    readable := range;
    AvailableIsU32(readable, data.Length);
    var available := U32(data.Length - readable.length);
    while available < needed
      invariant readable.Starts(data.Length) && available == Available(readable, data.Length)
      invariant MakeRoomOn(data[..], readable, needed) == MakeRoomOn(data[..], range, needed)
      decreases if available < needed then 1 + readable.length else 0
    {
      RoomStep(data[..], readable, needed);
      var freed, rest := SkipFront(data, readable);
      if freed.None? {
        return false, readable;
      }
      readable := rest;
      available := U32(available + freed.value);
    }
    ok := true;
  }

  /** What one entry does to the bytes that are available, and to making room. */
  lemma {:induction false} RoomStep(data: seq<byte>, range: Range, needed: nat)
    requires range.Starts(|data|) && Available(range, |data|) < needed <= |data|
    requires !MakeRoomOn(data, range, needed).Around?
    ensures range.In(|data|)
    ensures Varint.Read(Seen(data, range)).None? ==> MakeRoomOn(data, range, needed).Malformed?
    ensures Varint.Read(Seen(data, range)).Some? ==>
              var (n, k) := Varint.Read(Seen(data, range)).value;
              && 0 < k <= range.length && n < TWO_32
              && var rest := Behind(range, k, n, |data|);
              && Available(rest, |data|) == U32(Available(range, |data|) + (k + n))
              && MakeRoomOn(data, rest, needed) == MakeRoomOn(data, range, needed)
              && (rest.length < range.length || needed <= Available(rest, |data|))
  {
    hide Unrolled, Wrap, Advance, U32, Behind;
    Varint.ReadFits(Seen(data, range));
    var found := Varint.Read(Seen(data, range));
    if found.Some? {
      var n, k := found.value.0, found.value.1;
      AvailableBehind(range, k, n, |data|);
      if k + n <= range.length {
        BehindIsDrop(range, k, n, |data|);
      }
    }
  }

  lemma AvailableBehind(range: Range, k: nat, n: nat, cap: nat)
    requires range.In(cap) && k <= range.length && n < TWO_32
    ensures Available(Behind(range, k, n, cap), cap) == U32(Available(range, cap) + (k + n))
    ensures Behind(range, k, n, cap).length > cap ==> Available(Behind(range, k, n, cap), cap) > cap
  {
    hide Wrap, Advance;
    var rest := Behind(range, k, n, cap);
    assert rest.length == U32(range.length - k - n);
    AvailableIsU32(rest, cap);
    DifferenceModulo(cap, range.length - k - n);
  }

  lemma DifferenceModulo(a: int, b: int)
    ensures U32(a - U32(b)) == U32(a - b)
  {
    var q := b / TWO_32;
    assert b == q * TWO_32 + U32(b);
    assert a - U32(b) == a - b + q * TWO_32;
  }

  /** Writes the delimiter and the payload of an item, ignoring whether either write succeeded. */
  method WriteItem(x: Item, data: array<byte>, offset: nat) returns (rest: Range)
    requires 0 < data.Length <= MAX_CAPACITY && offset < data.Length
    requires |x| < TWO_32 - 5 && !Rejected(|x|, data.Length)
    modifies data
    ensures Written(old(data[..]), Range(offset, |EncodeItem(x)|), Stored(x, data.Length), data[..], rest)
  {
    hide Unrolled, WriteAt, Written, Varint.Encode;
    var range := Range(offset, |EncodeItem(x)|);
    var length, middle := WriteVarint(|x|, data, range);
    ghost var mid := data[..];
    assert middle.In(data.Length) && (length.Some? ==> middle.length == |x|) by {
      WrittenBounds(old(data[..]), range, Varint.Encode(|x|), mid, middle);
    }
    var ok;
    ok, rest := WriteBytes(x, data, middle);
    if length.None? {
      NothingWritten(mid, range);
    } else if ok {
      WrittenTwice(old(data[..]), range, Varint.Encode(|x|), mid, middle, x, data[..], rest);
    }
  }

  lemma WrittenBounds(was: seq<byte>, range: Range, s: seq<byte>, now: seq<byte>, rest: Range)
    requires range.In(|was|) && |s| <= range.length
    ensures Written(was, range, s, now, rest) ==> rest.In(|now|) && rest.length == range.length - |s|
  {
  }

  class Writer {
    const ring: RingBufferData
    var writeOffset: nat

    /** The writer starts at offset 0 whatever the header says, which is right for an empty ring. */
    constructor (ring: RingBufferData)
      requires ring.range.Starts(ring.data.Length)
      ensures this.ring == ring && Model().Plausible() && writeOffset == 0
      ensures ring.range == Range(0, 0) ==> Model().Valid() && Model().Items() == []
    {
      this.ring := ring;
      writeOffset := 0;
    }

    ghost function Model(): Ring
      reads this, ring, ring.data
    {
      Ring(ring.data[..], ring.range.offset, ring.range.length, writeOffset)
    }

    /** The part of a push behind the rejections: makes room, writes, and updates the header last. */
    method Append(x: Item, needed: nat) returns (ok: bool)
      requires Model().Plausible() && |x| < TWO_32 - 5 && !PushOn(Model(), x).Astray?
      requires !Rejected(|x|, ring.data.Length) && needed == |EncodeItem(x)|
      modifies this`writeOffset, ring`range, ring.data
      ensures var o := PushOn(old(Model()), x);
              if o.Pushed? then ok && Model() == o.ring else !ok && Model() == old(Model())
    {
      hide Unrolled, Wrap, Stored, WriteAt, MakeRoomOn, Varint.Encode;
      ghost var r := Model();
      assert ring.range == Range(r.offset, r.length);
      var readable;
      ok, readable := MakeRoom(ring.data, ring.range, needed);
      if !ok {
        return;
      }
      var rest := WriteItem(x, ring.data, writeOffset);
      writeOffset := rest.offset;
      ring.range := Range(readable.offset, U32(readable.length + needed));
    }

    /** Appends an item, evicting entries from the front until there is room. On a ring of whole items,
        these are the fewest oldest items; and only storable lengths are stored, see PushStoresExactly. */
    method Push(x: Item) returns (ok: bool)
      requires Model().Plausible() && |x| < TWO_32 - 5 && !PushOn(Model(), x).Astray?
      modifies this`writeOffset, ring`range, ring.data
      ensures var o := PushOn(old(Model()), x);
              if o.Pushed? then ok && Model() == o.ring else !ok && Model() == old(Model())
      ensures old(Model()).Valid() ==>
                && (ok <==> 0 < |x| && |EncodeItem(x)| <= ring.data.Length)
                && Model() == AfterPush(old(Model()), x)
      ensures old(Model()).Valid() && (Rejected(|x|, ring.data.Length) || Storable(|x|, ring.data.Length)) ==>
                && Model().Valid()
                && Model().Items() == Fifo.Push(old(Model()).Items(), x, ring.data.Length)
    {
      hide Drain, Evict, EncodeAll, Whole, Stored, KeptBytes, MakeRoomOn, PushOn, AfterPush;
      PushMeets(Model(), x);
      RejectedExactly(x, ring.data.Length);
      if |x| == 0 {
        return false;
      }
      var delimiter := Varint.EncodedLength(|x|);
      var needed := delimiter + |x|;
      if needed > ring.data.Length {
        return false;
      }
      ok := Append(x, needed);
    }
  }

  /** What a push comes to on the rings that are known to be in order. */
  lemma PushMeets(r: Ring, x: Item)
    requires r.Plausible() && |x| < TWO_32 - 5
    ensures Rejected(|x|, r.Capacity()) ==> PushOn(r, x).Refused?
    ensures r.Valid() ==>
              PushOn(r, x) == if Rejected(|x|, r.Capacity()) then Refused else Pushed(AfterPush(r, x))
    ensures r.Valid() && Rejected(|x|, r.Capacity()) ==> AfterPush(r, x) == r
    ensures r.Valid() && (Rejected(|x|, r.Capacity()) || Storable(|x|, r.Capacity())) ==>
              AfterPush(r, x).Valid() && AfterPush(r, x).Items() == Fifo.Push(r.Items(), x, r.Capacity())
  {
    hide Drain, Evict, EncodeAll, Whole, Stored, KeptBytes, MakeRoomOn;
    if r.Valid() {
      PushOnValid(r, x);
      if Rejected(|x|, r.Capacity()) || Storable(|x|, r.Capacity()) {
        PushStores(r, x);
      }
    }
  }

  class Reader {
    const ring: RingBufferData
    var range: Range

    constructor (ring: RingBufferData)
      ensures this.ring == ring && range == ring.range
    {
      this.ring := ring;
      range := ring.range;
    }

    /** Appends the next item to target. If there is none, the bytes read as its delimiter are gone; and if
        fewer bytes follow than the delimiter announces, target has been resized all the same. */
    method Pop(target: seq<byte>) returns (ok: bool, target': seq<byte>)
      requires range.In(ring.data.Length)
      modifies this`range
      ensures range.In(ring.data.Length)
      ensures var front := PopFront(Seen(ring.data[..], old(range)));
              && ok == front.Some?
              && (ok ==> target' == target + front.value.0 && range == old(range).Drop(front.value.1, ring.data.Length))
              && (!ok ==> range == old(range).Drop(Varint.Consumed(Seen(ring.data[..], old(range))), ring.data.Length))
      ensures var length := Varint.Read(Seen(ring.data[..], old(range)));
              !ok ==> target' == target + if length.Some? then seq(length.value.0, i => 0) else []
    {
      hide Unrolled, Wrap;
      target' := target;
      ghost var before, s := range, Seen(ring.data[..], range);
      var length;
      length, range := ReadVarint(ring.data, range);
      assert target + [] == target;
      if length.None? {
        return false, target';
      }
      var n := length.value.0;
      if n == 0 {
        assert seq(0, i => 0 as byte) == [];
        return false, target';
      }
      SeenDrop(ring.data[..], before, length.value.1);
      if length.value.1 + n <= before.length {
        DropTwice(before, length.value.1, n, ring.data.Length);
        assert s[length.value.1..][..n] == s[length.value.1..length.value.1 + n];
      }
      var bytes;
      ok, range, bytes := ReadBytes(ring.data, range, n);
      target' := target + if ok then bytes else seq(n, i => 0);
    }

    /** Pops until a pop fails. */
    method PopAll() returns (items: seq<Item>)
      requires range.In(ring.data.Length)
      modifies this`range
      ensures items == Drain(Seen(ring.data[..], old(range)))
    {
      hide Unrolled, Wrap, Drain;
      items := [];
      ghost var s := Seen(ring.data[..], range);
      var more := true;
      while more
        invariant range.In(ring.data.Length)
        invariant more ==> Drain(s) == items + Drain(Seen(ring.data[..], range))
        invariant !more ==> Drain(s) == items
        decreases more, range.length
      {
        ghost var before := range;
        DrainOne(Seen(ring.data[..], range));
        var x;
        more, x := Pop([]);
        if more {
          SeenDrop(ring.data[..], before, before.length - range.length);
          ghost var front := PopFront(Seen(ring.data[..], before)).value.0;
          assert x == [] + front == front;
          assert items + ([x] + Drain(Seen(ring.data[..], range))) == items + [x] + Drain(Seen(ring.data[..], range));
          items := items + [x];
        }
      }
    }
  }

  /** A ring of the given capacity, all items pushed to it in turn, and then read back. */
  method PushAllThenPopAll(capacity: nat, items: seq<Item>) returns (popped: seq<Item>)
    requires 0 < capacity <= MAX_CAPACITY
    requires forall i :: 0 <= i < |items| ==>
               |items[i]| < TWO_32 - 5 && (Rejected(|items[i]|, capacity) || Storable(|items[i]|, capacity))
    ensures IsReadBack(popped, items, capacity)
  {
    hide Drain, Unrolled, Wrap, Whole, PushOn, AfterPush, PushAll, IsReadBack;
    var ring := new RingBufferData(capacity);
    var writer := new Writer(ring);
    PushNone(items, capacity);
    for i := 0 to |items|
      invariant writer.Model().Valid()
      invariant writer.Model().Items() == PushAll(items[..i], capacity)
    {
      PushOneMore(items, i, capacity);
      PushMeets(writer.Model(), items[i]);
      var _ := writer.Push(items[i]);
    }
    assert items[..|items|] == items;
    PushAllIsReadBack(items, capacity);
    var reader := new Reader(ring);
    popped := reader.PopAll();
  }
}
