/** The ring buffer as bytes in memory and on disk, and the annotation that publishes them. */
module RingBufferAnnotation {
  import opened Bytes
  import opened Fifo
  import opened RingModel
  import opened RingBuffer
  import opened LengthDelimitedRingBuffer
  import opened AnyRing

  const MAGIC: nat := 0xcab00d1e
  const VERSION: nat := 1
  const HEADER_SIZE: nat := 16

  function Header(range: Range): (s: seq<byte>)
    ensures |s| == HEADER_SIZE
  {
    ToBytes(MAGIC, 4) + ToBytes(VERSION, 4) + ToBytes(range.offset, 4) + ToBytes(range.length, 4)
  }

  /** The bytes of the structure: magic, version, readable range, data. */
  function Serialized(data: seq<byte>, range: Range): seq<byte> {
    Header(range) + data
  }

  /** The length of the part of the structure that has been written to. */
  function RingBufferLength(cap: nat, range: Range): nat {
    var end := U32(range.offset + range.length);
    HEADER_SIZE + if end < cap then end else cap
  }

  /** The range and the data that result from deserializing buffer over the given data. */
  function Deserialize(buffer: seq<byte>, data: seq<byte>): (r: Option<(Range, seq<byte>)>)
    ensures r.Some? ==> |r.value.1| == |data|
  {
    if |buffer| < HEADER_SIZE || |buffer| > HEADER_SIZE + |data| then None
    else if FromBytes(buffer[..4]) != MAGIC || FromBytes(buffer[4..8]) != VERSION then None
    else
      Some((Range(FromBytes(buffer[8..12]), FromBytes(buffer[12..16])),
            buffer[HEADER_SIZE..] + data[|buffer| - HEADER_SIZE..]))
  }

  method DeserializeFromBuffer(ring: RingBufferData, buffer: seq<byte>) returns (ok: bool)
    modifies ring`range, ring.data
    ensures var r := Deserialize(buffer, old(ring.data[..]));
            && ok == r.Some?
            && ring.data[..] == (if ok then r.value.1 else old(ring.data[..]))
            && ring.range == (if ok then r.value.0 else old(ring.range))
  {
    if |buffer| < HEADER_SIZE || |buffer| > HEADER_SIZE + ring.data.Length {
      return false;
    }
    if FromBytes(buffer[..4]) != MAGIC || FromBytes(buffer[4..8]) != VERSION {
      return false;
    }
    ring.range := Range(FromBytes(buffer[8..12]), FromBytes(buffer[12..16]));
    CopyTo(ring.data, 0, buffer[HEADER_SIZE..]);
    ok := true;
  }

  /** The bytes that a structure begins with. */
  const PREAMBLE: seq<byte> := [0x1e, 0x0d, 0xb0, 0xca, 1, 0, 0, 0]

  lemma PreambleBytes()
    ensures ToBytes(MAGIC, 4) + ToBytes(VERSION, 4) == PREAMBLE
  {
    FourBytes(0x1e, 0x0d, 0xb0, 0xca);
    FourBytes(1, 0, 0, 0);
  }

  /** The layout: magic and version, then the offset, then the length, then the data. */
  lemma SerializedLayout(data: seq<byte>, a: byte, b: byte, c: byte, d: byte, x: byte, y: byte, z: byte, w: byte)
    ensures Serialized(data, Range(a + 0x100 * b + 0x1_0000 * c + 0x100_0000 * d,
                                   x + 0x100 * y + 0x1_0000 * z + 0x100_0000 * w))
         == PREAMBLE + [a, b, c, d] + [x, y, z, w] + data
  {
    PreambleBytes();
    FourBytes(a, b, c, d);
    FourBytes(x, y, z, w);
  }

  /** A buffer is taken exactly if it begins as a structure does, and its data fits. */
  lemma DeserializeExactly(buffer: seq<byte>, data: seq<byte>)
    ensures Deserialize(buffer, data).Some?
       <==> HEADER_SIZE <= |buffer| <= HEADER_SIZE + |data| && buffer[..8] == PREAMBLE
  {
    hide ToBytes, FromBytes;
    if HEADER_SIZE <= |buffer| {
      Pow256Values();
      PreambleBytes();
      FromBytesExactly(buffer[..4], MAGIC);
      FromBytesExactly(buffer[4..8], VERSION);
      assert buffer[..8] == buffer[..4] + buffer[4..8];
      assert PREAMBLE[..4] == ToBytes(MAGIC, 4) && PREAMBLE[4..] == ToBytes(VERSION, 4);
    }
  }

  lemma HeaderReadsBack(range: Range)
    requires range.offset < TWO_32 && range.length < TWO_32
    ensures FromBytes(Header(range)[..4]) == MAGIC && FromBytes(Header(range)[4..8]) == VERSION
    ensures FromBytes(Header(range)[8..12]) == range.offset && FromBytes(Header(range)[12..16]) == range.length
  {
    Pow256Values();
    hide ToBytes, FromBytes, Pow256;
    assert Header(range)[..4] == ToBytes(MAGIC, 4) && Header(range)[4..8] == ToBytes(VERSION, 4);
    assert Header(range)[8..12] == ToBytes(range.offset, 4) && Header(range)[12..16] == ToBytes(range.length, 4);
    LittleEndianRoundTrip(MAGIC, 4);
    LittleEndianRoundTrip(VERSION, 4);
    LittleEndianRoundTrip(range.offset, 4);
    LittleEndianRoundTrip(range.length, 4);
  }

  lemma SeenFromWritten(data: seq<byte>, range: Range, target: seq<byte>, n: nat)
    requires range.In(|data|) && |target| == |data|
    requires n == |data| || range.offset + range.length <= n < |data|
    ensures Seen(data[..n] + target[n..], range) == Seen(data, range)
  {
    var d := data[..n] + target[n..];
    if n == |data| {
      assert d == data;
    } else {
      assert d[range.offset..range.offset + range.length] == data[range.offset..range.offset + range.length];
      UnrolledPrefix(d, range.offset, range.length);
      UnrolledPrefix(data, range.offset, range.length);
    }
  }

  lemma WrittenLength(cap: nat, range: Range)
    requires range.In(cap)
    ensures RingBufferLength(cap, range) == HEADER_SIZE + if range.offset + range.length < cap then range.offset + range.length else cap
  {
  }

  lemma PrefixSlices(header: seq<byte>, data: seq<byte>, b: seq<byte>, k: nat)
    requires |header| == HEADER_SIZE && k <= |data| && b == (header + data)[..HEADER_SIZE + k]
    ensures b[..4] == header[..4] && b[4..8] == header[4..8]
    ensures b[8..12] == header[8..12] && b[12..16] == header[12..16]
    ensures b[HEADER_SIZE..] == data[..k]
  {
    assert b == header + data[..k];
  }

  /** The first RingBufferLength bytes of a ring, deserialized over any data of the same capacity,
      show the same readable bytes, whether they wrap or not. */
  lemma PrefixReadsBack(data: seq<byte>, range: Range, target: seq<byte>)
      returns (n: nat, r: Option<(Range, seq<byte>)>)
    requires range.In(|data|) && |target| == |data|
    ensures n == RingBufferLength(|data|, range) && HEADER_SIZE <= n <= |Serialized(data, range)|
    ensures r == Deserialize(Serialized(data, range)[..n], target)
    ensures r.Some? && r.value.0 == range && Seen(r.value.1, range) == Seen(data, range)
  {
    n := RingBufferLength(|data|, range);
    WrittenLength(|data|, range);
    var k := n - HEADER_SIZE;
    var b := Serialized(data, range)[..n];
    r := Deserialize(b, target);
    hide ToBytes, FromBytes, Unrolled, Header, RingBufferLength;
    HeaderReadsBack(range);
    PrefixSlices(Header(range), data, b, k);
    SeenFromWritten(data, range, target, k);
  }

  /** An annotation whose value is a ring buffer; size says how much of it is published. */
  class Annotation {
    const writer: Writer
    var size: nat
    var guarded: bool

    constructor (capacity: nat)
      requires 0 < capacity <= MAX_CAPACITY
      ensures Valid() && writer.Model().Items() == [] && !guarded
      ensures fresh(writer) && fresh(writer.ring) && fresh(writer.ring.data) && writer.ring.data.Length == capacity
    {
      var ring := new RingBufferData(capacity);
      writer := new Writer(ring);
      size, guarded := 0, false;
    }

    /** Nothing was pushed yet, or the published size covers all that was written. */
    ghost predicate Valid()
      reads this, writer, writer.ring, writer.ring.data
    {
      && writer.Model().Valid()
      && (size == 0 ==> writer.Model().length == 0)
      && (size != 0 ==> size == RingBufferLength(writer.ring.data.Length, writer.ring.range))
    }

    /** Fails at once while someone holds the guard. */
    method Push(x: Item) returns (ok: bool)
      requires writer.Model().Plausible() && |x| < TWO_32 - 5 && !PushOn(writer.Model(), x).Astray?
      modifies this`size, writer`writeOffset, writer.ring`range, writer.ring.data
      ensures var o := PushOn(old(writer.Model()), x);
              && (ok <==> !guarded && o.Pushed?)
              && writer.Model() == if ok then o.ring else old(writer.Model())
      ensures size == if ok then RingBufferLength(writer.ring.data.Length, writer.ring.range) else old(size)
      ensures old(Valid()) ==> (ok <==> !guarded && !Rejected(|x|, writer.ring.data.Length))
      ensures old(Valid()) && (!ok || Storable(|x|, writer.ring.data.Length)) ==> Valid()
      ensures old(Valid()) && ok && Storable(|x|, writer.ring.data.Length) ==>
                writer.Model().Items() == Fifo.Push(old(writer.Model()).Items(), x, writer.ring.data.Length)
    {
      hide Drain, Whole, Unrolled, Stored, KeptBytes, PushOn, AfterPush;
      PushMeets(writer.Model(), x);
      if guarded {
        return false;
      }
      ok := writer.Push(x);
      if ok {
        size := RingBufferLength(writer.ring.data.Length, writer.ring.range);
      }
    }

    /** What a reader finds that copies the published bytes into a ring of its own. */
    method ReadPublished(ring: RingBufferData) returns (ok: bool, items: seq<Item>)
      requires Valid() && ring.data.Length == writer.ring.data.Length
      requires ring != writer.ring && ring.data != writer.ring.data
      modifies ring`range, ring.data
      ensures ok <==> size != 0
      ensures ok ==> items == writer.Model().Items()
    {
      ghost var n, r := PrefixReadsBack(writer.ring.data[..], writer.ring.range, ring.data[..]);
      hide Unrolled, Wrap, Drain, Whole;
      var published := Serialized(writer.ring.data[..], writer.ring.range)[..size];
      ok := DeserializeFromBuffer(ring, published);
      items := [];
      if ok {
        var reader := new Reader(ring);
        items := reader.PopAll();
      }
    }
  }
}
