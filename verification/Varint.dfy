/** Little-endian Base 128 varints of 32-bit values, as byte strings: the encoding, and the
    reader with its overflow checks. */
module Varint {
  import opened Bytes

  function Encode(value: nat): (s: seq<byte>)
    ensures s != []
  {
    if value < 0x80 then [value] else [value % 0x80 + 0x80] + Encode(value / 0x80)
  }

  /** The value of groups of seven bits, the least significant group first. */
  function ValueOf(s: seq<byte>): nat {
    if s == [] then 0 else s[0] % 0x80 + 0x80 * ValueOf(s[1..])
  }

  /** The form of a varint: the top bit is set in all bytes but the last; the other bits, in groups of
      seven from the least significant on, are the value; and no group of zeros ends it but that of 0. */
  lemma {:induction false} EncodeIsBase128(value: nat)
    ensures var s := Encode(value);
            && ValueOf(s) == value
            && (forall i :: 0 <= i < |s| ==> (s[i] >= 0x80 <==> i < |s| - 1))
            && (|s| > 1 ==> s[|s| - 1] != 0)
  {
    if value >= 0x80 {
      var s, q := Encode(value), Encode(value / 0x80);
      EncodeIsBase128(value / 0x80);
      assert s[1..] == q;
      assert forall i :: 0 < i < |s| ==> s[i] == q[i - 1];
    }
  }

  /** What a byte in position k of a varint counts for: 1 shifted left by 7 * k. */
  function Weight(k: nat): (w: nat)
    ensures 1 <= w
  {
    if k == 0 then 1 else 0x80 * Weight(k - 1)
  }

  /** Reads the rest of a varint of which k bytes, worth acc, were consumed already. A shift by
      32 bits or more, or one that loses bits, makes the read fail. Since acc lies below the
      weight of position k, adding the shifted bits is the same as or-ing them in. */
  function ReadFrom(s: seq<byte>, k: nat, acc: nat): (r: Option<(nat, nat)>)
    ensures r.Some? ==> k < r.value.1 <= 5 && r.value.1 - k <= |s|
    decreases |s|
  {
    if s == [] then None
    else if 7 * k >= 32 then None
    else
      var bits := s[0] % 0x80 * Weight(k);
      if bits >= TWO_32 then None
      else if s[0] >= 0x80 then ReadFrom(s[1..], k + 1, acc + bits)
      else Some((acc + bits, k + 1))
  }

  /** The value read from the front of s and the number of bytes it took. */
  function Read(s: seq<byte>): (r: Option<(nat, nat)>)
    ensures r.Some? ==> 1 <= r.value.1 <= 5 && r.value.1 <= |s|
  {
    ReadFrom(s, 0, 0)
  }

  /** How many bytes a read that began with k takes, whether it succeeds or fails. */
  function ConsumedFrom(s: seq<byte>, k: nat): (n: nat)
    ensures k <= n <= k + |s|
    decreases |s|
  {
    if s == [] then k
    else if 7 * k >= 32 || s[0] % 0x80 * Weight(k) >= TWO_32 || s[0] < 0x80 then k + 1
    else ConsumedFrom(s[1..], k + 1)
  }

  function Consumed(s: seq<byte>): (n: nat)
    ensures n <= |s|
  {
    ConsumedFrom(s, 0)
  }

  /** A successful read takes the bytes it says; a failed one at most the whole of s and six bytes. */
  lemma {:induction false} ConsumedIsTaken(s: seq<byte>, k: nat, acc: nat)
    requires k <= 5
    ensures ReadFrom(s, k, acc).Some? ==> ConsumedFrom(s, k) == ReadFrom(s, k, acc).value.1
    ensures ConsumedFrom(s, k) <= 6
    decreases |s|
  {
    if s != [] && 7 * k < 32 && s[0] % 0x80 * Weight(k) < TWO_32 && s[0] >= 0x80 {
      ConsumedIsTaken(s[1..], k + 1, acc + s[0] % 0x80 * Weight(k));
    }
  }

  /** One byte of a read that is in the middle of s. */
  lemma {:induction false} ReadStep(s: seq<byte>, k: nat, acc: nat)
    requires k <= |s|
    ensures k == |s| ==> ReadFrom(s[k..], k, acc) == None && ConsumedFrom(s[k..], k) == k
    ensures k < |s| ==>
              var bits := s[k] % 0x80 * Weight(k);
              if 7 * k >= 32 || bits >= TWO_32 then
                ReadFrom(s[k..], k, acc) == None && ConsumedFrom(s[k..], k) == k + 1
              else if s[k] >= 0x80 then
                ReadFrom(s[k..], k, acc) == ReadFrom(s[k + 1..], k + 1, acc + bits)
                && ConsumedFrom(s[k..], k) == ConsumedFrom(s[k + 1..], k + 1)
              else
                ReadFrom(s[k..], k, acc) == Some((acc + bits, k + 1)) && ConsumedFrom(s[k..], k) == k + 1
  {
    if k < |s| {
      assert s[k..][1..] == s[k + 1..];
    }
  }

  lemma {:induction false} WeightBound(k: nat)
    ensures Weight(k) < TWO_32 <==> k < 5
  {
    assert Weight(2) == 0x4000 && Weight(4) == 0x1000_0000 && Weight(5) == 0x8_0000_0000;
    if k > 5 {
      WeightBound(k - 1);
    }
  }

  lemma SplitDigit(value: nat, w: nat)
    ensures value * w == value % 0x80 * w + value / 0x80 * (0x80 * w)
    ensures value % 0x80 * w <= value * w
    ensures value / 0x80 * (0x80 * w) <= value * w
  {
    var q, d := value / 0x80, value % 0x80;
    calc {
      value * w;
      (0x80 * q + d) * w;
      d * w + q * (0x80 * w);
    }
  }

  lemma AtLeastOnce(value: nat, w: nat)
    requires 1 <= value
    ensures w <= value * w
  {
  }

  lemma {:induction false} PositionInRange(value: nat, k: nat)
    requires value * Weight(k) < TWO_32
    requires k == 0 || value != 0
    ensures 7 * k < 32
  {
    WeightBound(k);
    if value != 0 {
      AtLeastOnce(value, Weight(k));
    }
  }

  lemma {:induction false} ReadFromEncode(value: nat, k: nat, acc: nat, rest: seq<byte>)
    requires value * Weight(k) < TWO_32
    requires k == 0 || value != 0
    ensures ReadFrom(Encode(value) + rest, k, acc)
         == Some((acc + value * Weight(k), k + |Encode(value)|))
    decreases value
  {
    var s := Encode(value) + rest;
    PositionInRange(value, k);
    if value < 0x80 {
      assert s[0] == value;
    } else {
      var q, bits := value / 0x80, value % 0x80 * Weight(k);
      assert s[0] == value % 0x80 + 0x80 && s[1..] == Encode(q) + rest;
      assert Weight(k + 1) == 0x80 * Weight(k);
      SplitDigit(value, Weight(k));
      ReadFromEncode(q, k + 1, acc + bits, rest);
    }
  }

  /** Every 32-bit value reads back, whatever follows it, and takes exactly its encoded length. */
  lemma RoundTrip(value: nat, rest: seq<byte>)
    requires value < TWO_32
    ensures Read(Encode(value) + rest) == Some((value, |Encode(value)|))
  {
    ReadFromEncode(value, 0, 0, rest);
  }

  /** A varint that is cut off does not read as anything. */
  lemma {:induction false} CutVarintFails(value: nat, k: nat, acc: nat, m: nat)
    requires m < |Encode(value)|
    ensures ReadFrom(Encode(value)[..m], k, acc) == None
    decreases value
  {
    if m > 0 {
      var s, q := Encode(value)[..m], value / 0x80;
      assert s[0] >= 0x80 && s[1..] == Encode(q)[..m - 1];
      CutVarintFails(q, k + 1, acc + s[0] % 0x80 * Weight(k), m - 1);
    }
  }

  /** Bits at position k on top of a value below that position still make a 32-bit value. */
  lemma BitsFit(k: nat, digit: nat, acc: nat)
    requires 7 * k < 32 && acc < Weight(k) && digit < 0x80 && digit * Weight(k) < TWO_32
    ensures acc + digit * Weight(k) < TWO_32
    ensures acc + digit * Weight(k) < Weight(k + 1)
  {
    assert Weight(1) == 0x80 && Weight(2) == 0x4000 && Weight(3) == 0x20_0000 && Weight(4) == 0x1000_0000;
    assert Weight(5) == 0x8_0000_0000;
    assert k == 0 || k == 1 || k == 2 || k == 3 || k == 4;
  }

  lemma {:induction false} ReadFromFits(s: seq<byte>, k: nat, acc: nat)
    requires acc < Weight(k) && acc < TWO_32
    ensures ReadFrom(s, k, acc).Some? ==> ReadFrom(s, k, acc).value.0 < TWO_32
    decreases |s|
  {
    if s != [] && 7 * k < 32 {
      var bits := s[0] % 0x80 * Weight(k);
      if bits < TWO_32 {
        BitsFit(k, s[0] % 0x80, acc);
        if s[0] >= 0x80 {
          ReadFromFits(s[1..], k + 1, acc + bits);
        }
      }
    }
  }

  /** Whatever the bytes, a value that was read is a 32-bit value. */
  lemma ReadFits(s: seq<byte>)
    ensures Read(s).Some? ==> Read(s).value.0 < TWO_32
  {
    ReadFromFits(s, 0, 0);
  }

  lemma LengthAtMostFive(value: nat)
    requires value < TWO_32
    ensures |Encode(value)| <= 5
  {
    RoundTrip(value, []);
  }

  /** An encoding grows slowly: this is what lets every item of half the capacity fit. */
  lemma LengthBelowValue(value: nat)
    ensures 0 < value ==> |Encode(value)| <= value
    ensures 2 < value ==> |Encode(value)| < value
  {
  }

  method EncodedLength(value: nat) returns (size: nat)
    requires value < TWO_32
    ensures size == |Encode(value)|
  {
    size := 1;
    var v := value;
    while v >= 0x80
      invariant size + |Encode(v)| == 1 + |Encode(value)|
    {
      v := v / 0x80;
      size := size + 1;
    }
  }

  /** The first m bytes are a varint by their top bits. */
  predicate IsVarint(s: seq<byte>, m: nat) {
    1 <= m <= |s| && s[m - 1] < 0x80 && forall i :: 0 <= i < m - 1 ==> s[i] >= 0x80
  }

  /** The bytes from position j on complete acc to a varint of k bytes with value v. */
  predicate Completes(s: seq<byte>, j: nat, acc: nat, v: nat, k: nat) {
    j < k <= 5 && IsVarint(s, k - j) && v == acc + ValueOf(s[..k - j]) * Weight(j) < TWO_32
  }

  lemma {:induction false} CompletesFurther(s: seq<byte>, j: nat, acc: nat, v: nat, k: nat)
    requires s != [] && s[0] >= 0x80
    ensures Completes(s, j, acc, v, k) <==> Completes(s[1..], j + 1, acc + s[0] % 0x80 * Weight(j), v, k)
  {
    hide ValueOf, IsVarint;
    if j < k {
      VarintMore(s, k - j);
      if IsVarint(s, k - j) {
        VarintFits(s, k - j);
        ValueOfMore(s, k - j, Weight(j));
        assert Weight(j + 1) == 0x80 * Weight(j);
      }
    }
  }

  lemma VarintFits(s: seq<byte>, m: nat)
    requires IsVarint(s, m)
    ensures 1 <= m <= |s|
  {
  }

  lemma {:induction false} CompletesHere(s: seq<byte>, j: nat, acc: nat, v: nat, k: nat)
    requires s != [] && s[0] < 0x80 && j < 5
    ensures Completes(s, j, acc, v, k) <==> k == j + 1 && v == acc + s[0] % 0x80 * Weight(j) < TWO_32
  {
    assert IsVarint(s, 1) && s[..1] == [s[0]] && ValueOf(s[..1]) == s[0] % 0x80;
    hide Weight, ValueOf;
  }

  lemma {:induction false} CompletesNever(s: seq<byte>, j: nat, acc: nat, v: nat, k: nat)
    requires s == [] || j >= 5 || s[0] % 0x80 * Weight(j) >= TWO_32
    ensures !Completes(s, j, acc, v, k)
  {
    if s != [] && j < k && IsVarint(s, k - j) {
      ValueOfMore(s, k - j, Weight(j));
    }
    hide ValueOf, Weight;
  }

  lemma {:induction false} ReadFromExactly(s: seq<byte>, j: nat, acc: nat, v: nat, k: nat)
    requires acc < Weight(j) && acc < TWO_32
    ensures ReadFrom(s, j, acc) == Some((v, k)) <==> Completes(s, j, acc, v, k)
    decreases |s|
  {
    hide Completes, Weight;
    if s == [] || 7 * j >= 32 || s[0] % 0x80 * Weight(j) >= TWO_32 {
      CompletesNever(s, j, acc, v, k);
    } else {
      BitsFit(j, s[0] % 0x80, acc);
      if s[0] >= 0x80 {
        ReadFromExactly(s[1..], j + 1, acc + s[0] % 0x80 * Weight(j), v, k);
        CompletesFurther(s, j, acc, v, k);
      } else {
        CompletesHere(s, j, acc, v, k);
      }
    }
  }

  lemma VarintMore(s: seq<byte>, m: int)
    requires s != [] && s[0] >= 0x80
    ensures m > 1 ==> (IsVarint(s, m) <==> IsVarint(s[1..], m - 1))
    ensures m == 1 ==> !IsVarint(s, 1)
  {
    if m > 1 && IsVarint(s[1..], m - 1) {
      assert forall i :: 1 <= i < m ==> s[i] == s[1..][i - 1];
    }
  }

  lemma ValueOfMore(s: seq<byte>, m: nat, w: nat)
    requires 1 <= m <= |s|
    ensures ValueOf(s[..m]) * w == s[0] % 0x80 * w + ValueOf(s[1..][..m - 1]) * (0x80 * w)
    ensures ValueOf(s[..m]) * w >= s[0] % 0x80 * w
  {
    assert s[..m][1..] == s[1..][..m - 1];
    var d, q := s[0] % 0x80, ValueOf(s[1..][..m - 1]);
    calc {
      ValueOf(s[..m]) * w;
      (d + 0x80 * q) * w;
      d * w + q * (0x80 * w);
    }
  }

  /** What is read from any bytes: the value of the first up to five bytes that are a varint by their top
      bits, minimal or not, if it is a 32-bit value; and else nothing. */
  lemma ReadExactly(s: seq<byte>, v: nat, k: nat)
    ensures Read(s) == Some((v, k)) <==> k <= 5 && IsVarint(s, k) && v == ValueOf(s[..k]) < TWO_32
  {
    ReadFromExactly(s, 0, 0, v, k);
  }
}
