/** Reads and writes around the end of a ring buffer's array, of bytes and of varints. */
module RingBuffer {
  import opened Bytes
  import opened RingModel
  import Varint

  datatype Range = Range(offset: nat, length: nat) {
    predicate In(cap: nat) {
      offset < cap && length <= cap <= MAX_CAPACITY
    }

    /** The range without its first n bytes. */
    function Drop(n: nat, cap: nat): (r: Range)
      requires In(cap) && n <= length
      ensures r.In(cap)
    {
      Range(Wrap(offset + n, cap), length - n)
    }

    /** The range can be written to: its length is any 32-bit number, as nothing compares it with cap. */
    predicate Starts(cap: nat) {
      offset < cap <= MAX_CAPACITY && length < TWO_32
    }

    /** The range behind n bytes that were written at its start, with its length in 32-bit arithmetic. */
    function Past(n: nat, cap: nat): (r: Range)
      requires Starts(cap) && n <= cap
      ensures r.Starts(cap)
    {
      Range(Wrap(offset + n, cap), U32(length - n))
    }
  }

  /** The bytes of a range, unwrapped. */
  function Seen(data: seq<byte>, range: Range): (s: seq<byte>)
    requires range.In(|data|)
    ensures |s| == range.length
  {
    Unrolled(data, range.offset)[..range.length]
  }

  lemma SeenDrop(data: seq<byte>, range: Range, n: nat)
    requires range.In(|data|) && n <= range.length
    ensures Seen(data, range.Drop(n, |data|)) == Seen(data, range)[n..]
  {
    UnrolledSkip(data, range.offset, range.length, n);
  }

  lemma DropNone(range: Range, cap: nat)
    requires range.In(cap)
    ensures range.Drop(0, cap) == range
  {
  }

  lemma DropTwice(range: Range, m: nat, n: nat, cap: nat)
    requires range.In(cap) && m + n <= range.length
    ensures range.Drop(m, cap).Drop(n, cap) == range.Drop(m + n, cap)
  {
  }

  lemma PastTwice(range: Range, m: nat, n: nat, cap: nat)
    requires range.Starts(cap) && m + n <= cap
    ensures range.Past(m, cap).Past(n, cap) == range.Past(m + n, cap)
  {
  }

  /** The array after s was copied to a place in it. */
  function Spliced(data: seq<byte>, at: nat, s: seq<byte>): (d: seq<byte>)
    requires at + |s| <= |data|
    ensures |d| == |data|
  {
    data[..at] + s + data[at + |s|..]
  }

  method CopyTo(data: array<byte>, at: nat, source: seq<byte>)
    requires at + |source| <= data.Length
    modifies data
    ensures data[..] == Spliced(old(data[..]), at, source)
  {
    forall i | 0 <= i < |source| {
      data[at + i] := source[i];
    }
  }

  lemma UnrolledPrefix(data: seq<byte>, offset: nat, n: nat)
    requires offset < |data| && n <= |data|
    ensures Unrolled(data, offset)[..n]
         == if n < |data| - offset then data[offset..offset + n] else data[offset..] + data[..n - (|data| - offset)]
  {
  }

  method ReadBytes(data: array<byte>, range: Range, n: nat)
      returns (ok: bool, rest: Range, target: seq<byte>)
    requires range.In(data.Length)
    ensures ok <==> n <= range.length
    ensures !ok ==> rest == range
    ensures ok ==> rest == range.Drop(n, data.Length) && target == Seen(data[..], range)[..n]
  {
    if n > range.length {
      return false, range, [];
    }
    if n == 0 {
      return true, range, [];
    }
    var cap := data.Length;
    var initial := if n < cap - range.offset then n else cap - range.offset;
    target := data[range.offset..range.offset + initial];
    if initial < n {
      target := target + data[..n - initial];
    }
    UnrolledPrefix(data[..], range.offset, n);
    hide Unrolled, Wrap;
    assert target == Unrolled(data[..], range.offset)[..n];
    AdvanceWraps(range.offset, n, cap);
    ok, rest := true, Range(Advance(range.offset, n, cap), range.length - n);
  }

  method ReadVarint(data: array<byte>, range: Range)
      returns (result: Option<(nat, nat)>, rest: Range)
    requires range.In(data.Length)
    ensures result == Varint.Read(Seen(data[..], range))
    ensures rest == range.Drop(Varint.Consumed(Seen(data[..], range)), data.Length)
    ensures result.Some? ==> rest == range.Drop(result.value.1, data.Length)
  {
    ghost var s := Seen(data[..], range);
    Varint.ConsumedIsTaken(s, 0, 0);
    var value: nat, k: nat := 0, 0;
    var more := true;
    rest := range;
    hide Unrolled, Wrap, Varint.ReadFrom, Varint.ConsumedFrom, Varint.Weight;
    DropNone(range, data.Length);
    while more
      invariant 0 <= k <= range.length && k <= 5
      invariant rest == range.Drop(k, data.Length)
      invariant Varint.Consumed(s) == if more then Varint.ConsumedFrom(s[k..], k) else k
      invariant Varint.Read(s) == if more then Varint.ReadFrom(s[k..], k, value) else Some((value, k))
      decreases more, range.length - k
    {
      SeenDrop(data[..], range, k);
      Varint.ReadStep(s, k, value);
      DropTwice(range, k, if k < range.length then 1 else 0, data.Length);
      var ok, rest', bytes := ReadBytes(data, rest, 1);
      if !ok {
        return None, rest;
      }
      assert bytes[0] == s[k];
      if 7 * k >= 32 || bytes[0] % 0x80 * Varint.Weight(k) >= TWO_32 {
        return None, rest';
      }
      value := value + bytes[0] % 0x80 * Varint.Weight(k);
      k, rest := k + 1, rest';
      more := bytes[0] >= 0x80;
    }
    result := Some((value, k));
  }

  /** A write in one piece. */
  lemma WriteAtWhole(data: seq<byte>, offset: nat, s: seq<byte>)
    requires offset < |data| && |s| <= |data| - offset
    ensures WriteAt(data, offset, s) == Spliced(data, offset, s)
  {
    var d := Spliced(data, offset, s);
    assert d[offset..] == s + data[offset + |s|..] && d[..offset] == data[..offset];
    assert Unrolled(data, offset)[|s|..] == data[offset + |s|..] + data[..offset];
    UnrolledWriteAt(data, offset, s);
    UnrolledInjective(d, WriteAt(data, offset, s), offset);
  }

  /** A write in two pieces, past the end of the array. */
  lemma WriteAtWrapped(data: seq<byte>, offset: nat, s: seq<byte>, k: nat)
    requires offset < |data| && k == |data| - offset <= |s| <= |data|
    ensures WriteAt(data, offset, s) == Spliced(Spliced(data, offset, s[..k]), 0, s[k..])
  {
    var d := s[k..] + data[|s| - k..offset] + s[..k];
    assert Spliced(data, offset, s[..k]) == data[..offset] + s[..k];
    assert Spliced(Spliced(data, offset, s[..k]), 0, s[k..]) == d;
    assert d[offset..] == s[..k] && d[..offset] == s[k..] + data[|s| - k..offset];
    assert Unrolled(data, offset)[|s|..] == data[|s| - k..offset];
    assert s[..k] + (s[k..] + data[|s| - k..offset]) == s + data[|s| - k..offset];
    UnrolledWriteAt(data, offset, s);
    UnrolledInjective(d, WriteAt(data, offset, s), offset);
  }

  lemma WriteAtNothing(data: seq<byte>, offset: nat)
    requires offset < |data|
    ensures WriteAt(data, offset, []) == data
  {
    UnrolledWriteAt(data, offset, []);
    UnrolledInjective(data, WriteAt(data, offset, []), offset);
  }

  /** s was written to the front of a range, which turned the array was into now and left rest. */
  ghost predicate Written(was: seq<byte>, range: Range, s: seq<byte>, now: seq<byte>, rest: Range) {
    && range.Starts(|was|)
    && |s| <= |was|
    && now == WriteAt(was, range.offset, s)
    && rest == range.Past(|s|, |was|)
  }

  lemma NothingWritten(was: seq<byte>, range: Range)
    requires range.Starts(|was|)
    ensures Written(was, range, [], was, range)
  {
    WriteAtNothing(was, range.offset);
  }

  lemma WrittenTwice(was: seq<byte>, range: Range, a: seq<byte>, mid: seq<byte>, rest: Range, b: seq<byte>,
                     now: seq<byte>, rest': Range)
    requires Written(was, range, a, mid, rest) && Written(mid, rest, b, now, rest') && |a| + |b| <= |was|
    ensures Written(was, range, a + b, now, rest')
  {
    PastTwice(range, |a|, |b|, |was|);
    hide Unrolled, WriteAt;
    WriteAtTwice(was, range.offset, a, b);
  }

  /** The comparison is with the capacity without the range, not with the range. Sources longer than
      the whole array would be copied past its end. */
  method WriteBytes(source: seq<byte>, data: array<byte>, range: Range) returns (ok: bool, rest: Range)
    requires range.Starts(data.Length) && |source| <= data.Length
    modifies data
    ensures ok <==> |source| <= U32(data.Length - range.length)
    ensures if ok then Written(old(data[..]), range, source, data[..], rest)
            else rest == range && data[..] == old(data[..])
  {
    hide Unrolled, WriteAt, Wrap, Spliced;
    var cap, n := data.Length, |source|;
    if n > U32(cap - range.length) {
      return false, range;
    }
    var initial := if n < cap - range.offset then n else cap - range.offset;
    if initial < n {
      WriteAtWrapped(data[..], range.offset, source, initial);
    } else {
      WriteAtWhole(data[..], range.offset, source);
      assert source[..initial] == source;
    }
    CopyTo(data, range.offset, source[..initial]);
    if initial < n {
      CopyTo(data, 0, source[initial..]);
    }
    AdvanceWraps(range.offset, n, cap);
    ok, rest := true, Range(Advance(range.offset, n, cap), U32(range.length - n));
  }

  /** Writes the byte behind those already written to a range. */
  method WriteNext(b: byte, data: array<byte>, range: Range, rest: Range, ghost was: seq<byte>, ghost done: seq<byte>)
      returns (ok: bool, rest': Range)
    requires Written(was, range, done, data[..], rest) && |done| < data.Length
    modifies data
    ensures ok <==> rest.length != data.Length
    ensures if ok then Written(was, range, done + [b], data[..], rest')
            else rest' == rest && data[..] == old(data[..])
  {
    ok, rest' := WriteBytes([b], data, rest);
    if ok {
      WrittenTwice(was, range, done, old(data[..]), rest, [b], data[..], rest');
    }
  }

  lemma {:induction false} EncodeStep(done: seq<byte>, v: nat)
    ensures v > 0x7f ==> done + Varint.Encode(v) == done + [v % 0x80 + 0x80] + Varint.Encode(v / 0x80)
    ensures v <= 0x7f ==> Varint.Encode(v) == [v]
  {
  }

  lemma RoomAfter(was: seq<byte>, range: Range, done: seq<byte>, now: seq<byte>, rest: Range)
    requires range.In(|was|) && Written(was, range, done, now, rest) && |done| < 5
    ensures rest.length == |was| <==> done == [] && range.length == |was|
  {
  }

  /** Fails at once on a range of the whole capacity; otherwise writes all bytes. */
  method WriteVarint(value: nat, data: array<byte>, range: Range) returns (length: Option<nat>, rest: Range)
    requires value < TWO_32
    requires range.In(data.Length) && |Varint.Encode(value)| <= data.Length
    modifies data
    ensures length == if range.length == data.Length then None else Some(|Varint.Encode(value)|)
    ensures if length.Some? then Written(old(data[..]), range, Varint.Encode(value), data[..], rest)
            else rest == range && data[..] == old(data[..])
  {
    hide Unrolled, WriteAt, Wrap, Written, Varint.Encode;
    var v, n := value, 1;
    rest := range;
    ghost var was, done: seq<byte> := data[..], [];
    NothingWritten(was, range);
    Varint.LengthAtMostFive(value);
    while v > 0x7f
      invariant |done| == n - 1 && done + Varint.Encode(v) == Varint.Encode(value)
      invariant Written(was, range, done, data[..], rest)
      invariant if n == 1 then rest == range && data[..] == was else range.length < data.Length
      invariant |Varint.Encode(v)| + n - 1 <= 5 && n - 1 < data.Length
    {
      EncodeStep(done, v);
      RoomAfter(was, range, done, data[..], rest);
      var ok;
      ok, rest := WriteNext(v % 0x80 + 0x80, data, range, rest, was, done);
      if !ok {
        return None, rest;
      }
      done := done + [v % 0x80 + 0x80];
      v := v / 0x80;
      n := n + 1;
    }
    EncodeStep(done, v);
    RoomAfter(was, range, done, data[..], rest);
    var ok;
    ok, rest := WriteNext(v, data, range, rest, was, done);
    length := if ok then Some(n) else None;
  }

  /** A varint written at any offset reads back from there, around the end or not. */
  lemma VarintAcrossWrap(data: seq<byte>, offset: nat, value: nat, length: nat)
    requires value < TWO_32
    requires Range(offset, length).In(|data|) && |Varint.Encode(value)| <= length
    ensures Varint.Read(Seen(WriteAt(data, offset, Varint.Encode(value)), Range(offset, length)))
         == Some((value, |Varint.Encode(value)|))
  {
    var e := Varint.Encode(value);
    var s := Seen(WriteAt(data, offset, e), Range(offset, length));
    UnrolledWriteAt(data, offset, e);
    assert s == e + s[|e|..];
    Varint.RoundTrip(value, s[|e|..]);
  }
}
