/** A push on any ring, whatever bytes it holds, in the code's 32-bit arithmetic: what becomes of the
    header, and that on a ring of whole items this is what RingModel says. */
module AnyRing {
  import opened Bytes
  import opened Fifo
  import opened RingModel
  import opened RingBuffer
  import opened Runs
  import Varint

  /** How making room ends: with a range; at a delimiter that cannot be read; or at an entry so long that
      the length, taken modulo 2^32, is back within the capacity. That is not followed further, as the
      range need not get shorter then. */
  datatype Room = Room(range: Range) | Malformed | Around

  /** The range behind an entry with a delimiter of k bytes that announces n bytes. */
  function Behind(range: Range, k: nat, n: nat, cap: nat): (r: Range)
    requires range.In(cap) && k <= range.length && n < TWO_32
    ensures r.Starts(cap)
  {
    Range(Advance(Wrap(range.offset + k, cap), n, cap), U32(range.length - k - n))
  }

  lemma SmallIsU32(x: nat)
    requires x < TWO_32
    ensures U32(x) == x
  {
  }

  lemma BehindIsDrop(range: Range, k: nat, n: nat, cap: nat)
    requires range.In(cap) && k + n <= range.length
    ensures Behind(range, k, n, cap) == range.Drop(k + n, cap)
  {
    hide Advance, U32;
    AdvanceWraps(Wrap(range.offset + k, cap), n, cap);
    SmallIsU32(range.length - k - n);
  }

  /** The bytes outside of a range, in 32-bit arithmetic. */
  function Available(range: Range, cap: nat): nat
    requires range.Starts(cap)
  {
    if range.length <= cap then cap - range.length else TWO_32 + cap - range.length
  }

  lemma AvailableIsU32(range: Range, cap: nat)
    requires range.Starts(cap)
    ensures Available(range, cap) == U32(cap - range.length)
  {
  }

  /** While bytes are needed, a range of items is moved past the entry at its front. */
  function MakeRoomOn(data: seq<byte>, range: Range, needed: nat): (room: Room)
    requires range.Starts(|data|) && needed <= |data|
    ensures room.Room? ==> room.range.Starts(|data|)
    decreases range.length
  {
    if needed <= Available(range, |data|) then Room(range)
    else
      match Varint.Read(Seen(data, range))
      case None => Malformed
      case Some((n, k)) =>
        Varint.ReadFits(Seen(data, range));
        if k + n <= range.length then MakeRoomOn(data, range.Drop(k + n, |data|), needed)
        else
          var rest := Behind(range, k, n, |data|);
          if rest.length > |data| then Room(rest) else Around
  }

  /** How a push ends. */
  datatype Outcome = Pushed(ring: Ring) | Refused | Astray

  function PushOn(r: Ring, x: Item): (o: Outcome)
    requires r.Plausible() && |x| < TWO_32 - 5
    ensures o.Pushed? ==> o.ring.Plausible() && o.ring.Capacity() == r.Capacity()
  {
    if Rejected(|x|, r.Capacity()) then Refused
    else
      match MakeRoomOn(r.data, Range(r.offset, r.length), |EncodeItem(x)|)
      case Malformed => Refused
      case Around => Astray
      case Room(range) =>
        var s := Stored(x, r.Capacity());
        Pushed(Ring(WriteAt(r.data, r.writeOffset, s), range.offset, U32(range.length + |EncodeItem(x)|),
                    Wrap(r.writeOffset + |s|, r.Capacity())))
  }

  /** A push that needs room is refused, and nothing changes, if the delimiter at the front is not one. */
  lemma UnreadableRefuses(r: Ring, x: Item)
    requires r.InBounds() && |x| < TWO_32 - 5 && r.Capacity() - r.length < |EncodeItem(x)|
    requires Varint.Read(r.View()) == None
    ensures PushOn(r, x) == Refused
  {
    hide Unrolled, Stored, WriteAt;
    assert Seen(r.data, Range(r.offset, r.length)) == r.View();
  }

  // Rings of whole items

  lemma {:induction false} EvictOne(q: seq<Item>, room: nat)
    requires |EncodeAll(q)| > room
    ensures q != [] && Evict(q, room) == Evict(q[1..], room)
  {
  }

  lemma {:induction false} EvictNone(q: seq<Item>, room: nat)
    requires |EncodeAll(q)| <= room
    ensures Evict(q, room) == q
  {
  }

  lemma ReadDelimiter(x: Item, rest: seq<byte>)
    requires Proper(x)
    ensures Varint.Read(EncodeItem(x) + rest) == Some((|x|, |Varint.Encode(|x|)|))
  {
    Varint.RoundTrip(|x|, x + rest);
    assert EncodeItem(x) + rest == Varint.Encode(|x|) + (x + rest);
  }

  /** The entry at the front of whole items is the first item, and behind it are the others. */
  lemma {:induction false} FrontItem(data: seq<byte>, range: Range, q: seq<Item>)
    requires range.In(|data|) && q != [] && AllProper(q) && Seen(data, range) == EncodeAll(q)
    ensures Varint.Read(Seen(data, range)) == Some((|q[0]|, |Varint.Encode(|q[0]|)|))
    ensures |EncodeItem(q[0])| == |Varint.Encode(|q[0]|)| + |q[0]| <= range.length
    ensures Seen(data, range.Drop(|EncodeItem(q[0])|, |data|)) == EncodeAll(q[1..])
  {
    hide Unrolled, Wrap;
    ReadDelimiter(q[0], EncodeAll(q[1..]));
    SeenDrop(data, range, |EncodeItem(q[0])|);
  }

  /** On whole items, making room moves the range past the fewest items that leave the needed bytes free. */
  lemma {:induction false} MakeRoomOnItems(data: seq<byte>, range: Range, needed: nat, q: seq<Item>)
    requires range.In(|data|) && needed <= |data| && AllProper(q) && Seen(data, range) == EncodeAll(q)
    ensures var kept := |EncodeAll(Evict(q, |data| - needed))|;
            kept <= range.length && MakeRoomOn(data, range, needed) == Room(range.Drop(range.length - kept, |data|))
    decreases |q|
  {
    hide Unrolled, Wrap, Evict, EncodeItem, EncodeAll, MakeRoomOn, AllProper;
    var room := |data| - needed;
    if |EncodeAll(q)| <= room {
      EvictNone(q, room);
      DropNone(range, |data|);
      RoomAlready(data, range, needed);
    } else {
      EvictOne(q, room);
      var rest := PastFront(data, range, needed, q);
      MakeRoomOnItems(data, rest, needed, q[1..]);
      DropTwice(range, range.length - rest.length, rest.length - |EncodeAll(Evict(q, room))|, |data|);
    }
  }

  lemma {:induction false} RoomAlready(data: seq<byte>, range: Range, needed: nat)
    requires range.In(|data|) && needed <= |data| - range.length
    ensures MakeRoomOn(data, range, needed) == Room(range)
  {
  }

  lemma {:induction false} PastFront(data: seq<byte>, range: Range, needed: nat, q: seq<Item>) returns (rest: Range)
    requires range.In(|data|) && needed <= |data| < range.length + needed
    requires q != [] && AllProper(q) && Seen(data, range) == EncodeAll(q)
    ensures rest.In(|data|) && rest.length <= range.length && rest == range.Drop(range.length - rest.length, |data|)
    ensures AllProper(q[1..]) && Seen(data, rest) == EncodeAll(q[1..])
    ensures MakeRoomOn(data, range, needed) == MakeRoomOn(data, rest, needed)
  {
    hide Unrolled, Wrap, EncodeItem, EncodeAll;
    FrontItem(data, range, q);
    rest := range.Drop(|EncodeItem(q[0])|, |data|);
  }

  lemma RangeShowsItems(r: Ring)
    requires r.Valid()
    ensures Range(r.offset, r.length).In(r.Capacity())
    ensures AllProper(r.Items()) && Seen(r.data, Range(r.offset, r.length)) == EncodeAll(r.Items())
  {
  }

  /** On a ring of whole items a push ends as RingModel says. */
  lemma {:induction false} PushOnValid(r: Ring, x: Item)
    requires r.Valid() && |x| < TWO_32 - 5
    ensures PushOn(r, x) == if Rejected(|x|, r.Capacity()) then Refused else Pushed(AfterPush(r, x))
  {
    hide Unrolled, Wrap, Drain, Whole, Evict, EncodeAll, WriteAt, Stored, MakeRoomOn, Seen;
    if !Rejected(|x|, r.Capacity()) {
      RangeShowsItems(r);
      MakeRoomOnItems(r.data, Range(r.offset, r.length), |EncodeItem(x)|, r.Items());
    }
  }

  // The header

  /** No entry that is skipped to make room announces more bytes than are readable. */
  predicate StaysInside(data: seq<byte>, range: Range, needed: nat)
    requires range.Starts(|data|) && needed <= |data|
    decreases range.length
  {
    needed <= Available(range, |data|) ||
    match Varint.Read(Seen(data, range))
    case None => true
    case Some((n, k)) => k + n <= range.length && StaysInside(data, range.Drop(k + n, |data|), needed)
  }

  lemma {:induction false} RoomInsideExactly(data: seq<byte>, range: Range, needed: nat)
    requires range.In(|data|) && needed <= |data| && MakeRoomOn(data, range, needed).Room?
    ensures var rest := MakeRoomOn(data, range, needed).range;
            if StaysInside(data, range, needed) then rest.length + needed <= |data| else rest.length > |data|
    decreases range.length
  {
    hide Unrolled, Wrap, Behind;
    if needed > Available(range, |data|) {
      var found := Varint.Read(Seen(data, range)).value;
      if found.1 + found.0 <= range.length {
        RoomInsideExactly(data, range.Drop(found.1 + found.0, |data|), needed);
      }
    }
  }

  /** After a push on any ring in bounds, the header's range is again within the capacity, and as long
      as the item, exactly if making room has stayed inside of the readable region. */
  lemma {:induction false} HeaderSoundExactly(r: Ring, x: Item)
    requires r.InBounds() && |x| < TWO_32 - 5 && PushOn(r, x).Pushed?
    ensures |EncodeItem(x)| <= PushOn(r, x).ring.length <= r.Capacity()
       <==> StaysInside(r.data, Range(r.offset, r.length), |EncodeItem(x)|)
  {
    hide Unrolled, Wrap, WriteAt, Stored, MakeRoomOn, StaysInside;
    RoomInsideExactly(r.data, Range(r.offset, r.length), |EncodeItem(x)|);
  }

  // Runs

  /** The ring after pushing items in turn; none if a push goes astray. */
  function RunOn(r: Ring, items: seq<Item>): (r': Option<Ring>)
    requires r.Plausible() && forall i :: 0 <= i < |items| ==> |items[i]| < TWO_32 - 5
    ensures r'.Some? ==> r'.value.Plausible() && r'.value.Capacity() == r.Capacity()
  {
    if items == [] then Some(r)
    else
      match RunOn(r, Before(items))
      case None => None
      case Some(before) =>
        match PushOn(before, Last(items))
        case Pushed(after) => Some(after)
        case Refused => Some(before)
        case Astray => None
  }

  predicate AllManageable(items: seq<Item>, cap: nat) {
    forall i :: 0 <= i < |items| ==>
      |items[i]| < TWO_32 - 5 && (Rejected(|items[i]|, cap) || Storable(|items[i]|, cap))
  }

  /** Runs of storable lengths keep the ring in bounds, with whole items in it. */
  lemma {:induction false} StorableRunsStayWhole(r: Ring, items: seq<Item>)
    requires r.Valid() && AllManageable(items, r.Capacity())
    ensures RunOn(r, items).Some? && RunOn(r, items).value.Valid()
    ensures r.Items() == [] ==> RunOn(r, items).value.Items() == PushAll(items, r.Capacity())
  {
    hide Unrolled, Wrap, Drain, Whole, Push, AfterPush, PushOn, Rejected, Storable;
    if items != [] {
      StorableRunsStayWhole(r, Before(items));
      var before := RunOn(r, Before(items)).value;
      assert AllManageable([Last(items)], r.Capacity());
      OneStorable(before, Last(items));
    }
  }

  lemma OneStorable(r: Ring, x: Item)
    requires r.Valid() && |x| < TWO_32 - 5 && (Rejected(|x|, r.Capacity()) || Storable(|x|, r.Capacity()))
    ensures !PushOn(r, x).Astray?
    ensures var r' := if PushOn(r, x).Pushed? then PushOn(r, x).ring else r;
            r'.Valid() && r'.Items() == Push(r.Items(), x, r.Capacity())
  {
    hide Unrolled, Wrap, Drain, Whole, Evict;
    PushStores(r, x);
    PushOnValid(r, x);
  }

  // A run that is not of storable lengths

  const EMPTY: Ring := Ring([0, 0, 0], 0, 0, 0)
  const FIRST: Ring := Ring([1, 255, 0], 0, 2, 2)
  const SECOND: Ring := Ring([0, 255, 1], 2, 2, 1)
  const THIRD: Ring := Ring([0, 255, 1], 1, 3, 1)

  lemma ShortItem(x: Item)
    requires 0 < |x| < 0x80
    ensures EncodeItem(x) == [|x|] + x && |EncodeItem(x)| == 1 + |x|
  {
  }

  lemma WriteTwo(data: seq<byte>, offset: nat, a: byte, b: byte)
    requires |data| == 3 && offset < 3
    ensures WriteAt(data, offset, [a, b])
         == if offset == 0 then [a, b, data[2]] else if offset == 1 then [data[0], a, b] else [b, data[1], a]
  {
    var last := Unrolled(data, offset)[2];
    assert last == if offset == 0 then data[2] else data[offset - 1];
    assert [a, b] + Unrolled(data, offset)[2..] == [a, b, last];
    assert WriteAt(data, offset, [a, b]) == [a, b, last][3 - offset..] + [a, b, last][..3 - offset];
  }

  lemma PushFirst()
    ensures PushOn(EMPTY, [255]) == Pushed(FIRST)
  {
    ShortItem([255]);
    assert MakeRoomOn(EMPTY.data, Range(0, 0), 2) == Room(Range(0, 0));
    assert Stored([255], 3) == [1, 255];
    WriteTwo([0, 0, 0], 0, 1, 255);
  }

  lemma PushSecond()
    ensures PushOn(FIRST, [0]) == Pushed(SECOND)
  {
    ShortItem([0]);
    assert Seen(FIRST.data, Range(0, 2)) == [1, 255];
    assert Varint.Read([1, 255]) == Some((1, 1));
    assert MakeRoomOn(FIRST.data, Range(0, 2), 2) == Room(Range(2, 0));
    assert Stored([0], 3) == [1, 0];
    WriteTwo([1, 255, 0], 2, 1, 0);
  }

  lemma PushThird()
    ensures PushOn(SECOND, [100, 255]) == Pushed(THIRD)
  {
    ShortItem([100, 255]);
    assert Seen(SECOND.data, Range(2, 2)) == [1, 0];
    assert Varint.Read([1, 0]) == Some((1, 1));
    assert MakeRoomOn(SECOND.data, Range(2, 2), 3) == Room(Range(1, 0));
    assert Stored([100, 255], 3) == [];
    WriteAtNothing(SECOND.data, 1);
  }

  lemma PushFourth()
    ensures PushOn(THIRD, [9]).Pushed? && PushOn(THIRD, [9]).ring.length == TWO_32 - 252
    ensures !StaysInside(THIRD.data, Range(1, 3), 2)
  {
    ShortItem([9]);
    assert Seen(THIRD.data, Range(1, 3)) == [255, 1, 0];
    ReadLeftOver();
    assert Behind(Range(1, 3), 2, 255, 3).length == TWO_32 - 254;
    assert MakeRoomOn(THIRD.data, Range(1, 3), 2) == Room(Behind(Range(1, 3), 2, 255, 3));
  }

  lemma ReadLeftOver()
    ensures Varint.Read([255, 1, 0]) == Some((255, 2))
  {
    var s: seq<byte> := [255, 1, 0];
    assert s[1..] == [1, 0] && Varint.Weight(1) == 0x80;
    assert Varint.ReadFrom(s[1..], 1, 127) == Some((255, 2));
  }

  /** Four pushes succeed on a ring of three bytes. The third item is not stored, so that the fourth push
      takes bytes of an earlier item for a delimiter, and leaves a header far beyond the capacity. */
  lemma HeaderLeavesBounds()
    ensures var r := RunOn(EMPTY, [[255], [0], [100, 255], [9]]); r.Some? && r.value.length > r.value.Capacity() == 3
  {
    hide PushOn, RunOn;
    PushFirst();
    PushSecond();
    PushThird();
    PushFourth();
    var none: seq<Item> := [];
    var one := none + [[255]];
    var two := one + [[0]];
    var three := two + [[100, 255]];
    RunNone(EMPTY);
    RunOne(EMPTY, none, [255], EMPTY);
    RunOne(EMPTY, one, [0], FIRST);
    RunOne(EMPTY, two, [100, 255], SECOND);
    RunOne(EMPTY, three, [9], THIRD);
    assert three + [[9]] == [[255], [0], [100, 255], [9]];
  }

  lemma RunNone(r: Ring)
    requires r.Plausible()
    ensures RunOn(r, []) == Some(r)
  {
  }

  lemma RunOne(r: Ring, items: seq<Item>, x: Item, before: Ring)
    requires r.Plausible() && (forall i :: 0 <= i < |items| ==> |items[i]| < TWO_32 - 5) && |x| < TWO_32 - 5
    requires RunOn(r, items) == Some(before) && PushOn(before, x).Pushed?
    ensures RunOn(r, items + [x]) == Some(PushOn(before, x).ring)
  {
    assert Before(items + [x]) == items && Last(items + [x]) == x;
  }

  /** An item of two bytes in a ring of three is accepted and lost. */
  lemma AcceptedButLost()
    ensures EMPTY.Valid() && !Rejected(2, 3) && !Storable(2, 3)
    ensures PushOn(EMPTY, [7, 8]).Pushed? && PushOn(EMPTY, [7, 8]).ring.data == EMPTY.data
  {
    ShortItem([7, 8]);
    assert EMPTY.View() == [] && EncodeAll([]) == [];
    assert MakeRoomOn(EMPTY.data, Range(0, 0), 3) == Room(Range(0, 0));
    WriteAtNothing(EMPTY.data, 0);
  }
}
