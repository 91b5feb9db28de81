/** The memcomparable key codec: groups of eight bytes, each closed by a marker
    byte that counts the padding, followed by the inverted timestamp. */
module Codec {
  import opened ByteStrings

  const ENC_GROUP_SIZE: nat := 8
  const ENC_MARKER: Byte := 0xFF
  const ENC_PAD: Byte := 0x00
  const U64_MAX: nat := 0xFFFF_FFFF_FFFF_FFFF

  type U64 = x: int | 0 <= x <= 0xFFFF_FFFF_FFFF_FFFF

  datatype Decoded = Decoded(data: Bytes, size: nat) | Insufficient | InvalidMarker | InvalidPadding

  datatype DecodedTs = DecodedTs(ts: U64) | NoTimestamp

  function Zeros(n: nat): (z: Bytes)
    ensures |z| == n && forall i :: 0 <= i < n ==> z[i] == ENC_PAD
  {
    seq(n, _ => ENC_PAD)
  }

  /** The group that opens the encoding of `d`. */
  function Group(d: Bytes): (g: Bytes)
    ensures |g| == ENC_GROUP_SIZE + 1
  {
    if |d| >= ENC_GROUP_SIZE then d[..ENC_GROUP_SIZE] + [ENC_MARKER]
    else d + Zeros(ENC_GROUP_SIZE - |d|) + [ENC_MARKER - (ENC_GROUP_SIZE - |d|)]
  }

  function EncodeBytes(d: Bytes): Bytes {
    if |d| >= ENC_GROUP_SIZE then Group(d) + EncodeBytes(d[ENC_GROUP_SIZE..]) else Group(d)
  }

  function DecodeBytes(b: Bytes): Decoded {
    if |b| < ENC_GROUP_SIZE + 1 then Insufficient
    else
      var marker := b[ENC_GROUP_SIZE];
      var padCount := ENC_MARKER - marker;
      if padCount > ENC_GROUP_SIZE then InvalidMarker
      else
        var kept := ENC_GROUP_SIZE - padCount;
        if padCount == 0 then
          match DecodeBytes(b[ENC_GROUP_SIZE + 1..])
          case Decoded(data, size) => Decoded(b[..ENC_GROUP_SIZE] + data, size + ENC_GROUP_SIZE + 1)
          case e => e
        else if b[kept..ENC_GROUP_SIZE] == Zeros(padCount) then Decoded(b[..kept], ENC_GROUP_SIZE + 1)
        else InvalidPadding
  }

  /** Bitwise complement of a 64-bit word. */
  function Invert(ts: U64): U64 {
    U64_MAX - ts
  }

  function EncodeKey(userKey: Bytes, ts: U64): Bytes {
    EncodeBytes(userKey) + ToBigEndian(Invert(ts), 8)
  }

  function DecodeUserKey(encoded: Bytes): Decoded {
    DecodeBytes(encoded)
  }

  function DecodeTimestamp(encoded: Bytes): DecodedTs {
    match DecodeBytes(encoded)
    case Decoded(_, size) =>
      if |encoded| < size + 8 then NoTimestamp
      else
        DecodedBounds(encoded);
        TimestampBound(encoded[size..size + 8]);
        DecodedTs(Invert(FromBigEndian(encoded[size..size + 8])))
    case _ => NoTimestamp
  }

  /** The upper 48 bits of a timestamp. */
  function PhysicalTime(ts: U64): U64 {
    ts / 65536
  }

  lemma {:induction false} TimestampBound(b: Bytes)
    requires |b| == 8
    ensures FromBigEndian(b) <= U64_MAX
  {
    BigEndianBound(b);
    assert Pow256(8) == 0x1_0000_0000_0000_0000;
  }

  // ---- The loops of the codec ----

  /** One turn of the encoding loop: a group is emitted, the rest is still to come. */
  lemma {:induction false} GroupEmitted(done: Bytes, d: Bytes, whole: Bytes)
    requires done + EncodeBytes(d) == whole
    ensures |d| < ENC_GROUP_SIZE ==> done + Group(d) == whole
    ensures |d| >= ENC_GROUP_SIZE ==> (done + Group(d)) + EncodeBytes(d[ENC_GROUP_SIZE..]) == whole
  {
    if |d| >= ENC_GROUP_SIZE {
      var g, rest := Group(d), EncodeBytes(d[ENC_GROUP_SIZE..]);
      assert EncodeBytes(d) == g + rest;
      assert (done + g) + rest == done + (g + rest);
    }
  }

  /** The bytes the loop appends at `idx`. */
  method EmitGroup(data: Bytes, idx: nat) returns (group: Bytes)
    requires idx <= |data|
    ensures group == Group(data[idx..])
  {
    var remain := |data| - idx;
    var padCount := 0;
    if remain >= ENC_GROUP_SIZE {
      group := data[idx..idx + ENC_GROUP_SIZE];
    } else {
      padCount := ENC_GROUP_SIZE - remain;
      group := data[idx..] + Zeros(padCount);
    }
    group := group + [ENC_MARKER - padCount];
  }

  method EncodeBytesLoop(data: Bytes) returns (result: Bytes)
    ensures result == EncodeBytes(data)
  {
    result := [];
    var idx := 0;
    assert data[0..] == data;
    while idx <= |data|
      invariant 0 <= idx
      invariant idx <= |data| ==> result + EncodeBytes(data[idx..]) == EncodeBytes(data)
      invariant idx > |data| ==> result == EncodeBytes(data)
    {
      GroupEmitted(result, data[idx..], EncodeBytes(data));
      var group := EmitGroup(data, idx);
      result := result + group;
      if |data| - idx >= ENC_GROUP_SIZE {
        assert data[idx..][ENC_GROUP_SIZE..] == data[idx + ENC_GROUP_SIZE..];
      }
      idx := idx + ENC_GROUP_SIZE;
    }
  }

  /** Decoding that has already taken `data` from the first `offset` bytes. */
  function Resume(data: Bytes, offset: nat, r: Decoded): Decoded {
    match r
    case Decoded(d, n) => Decoded(data + d, offset + n)
    case e => e
  }

  lemma {:induction false} GroupTaken(data: Bytes, offset: nat, rest: Bytes)
    requires |rest| >= ENC_GROUP_SIZE + 1 && rest[ENC_GROUP_SIZE] == ENC_MARKER
    ensures Resume(data, offset, DecodeBytes(rest)) ==
            Resume(data + rest[..ENC_GROUP_SIZE], offset + ENC_GROUP_SIZE + 1, DecodeBytes(rest[ENC_GROUP_SIZE + 1..]))
  {
    var next := DecodeBytes(rest[ENC_GROUP_SIZE + 1..]);
    if next.Decoded? {
      assert (data + rest[..ENC_GROUP_SIZE]) + next.data == data + (rest[..ENC_GROUP_SIZE] + next.data);
    }
  }

  method CheckPadding(padding: Bytes) returns (ok: bool)
    ensures ok <==> padding == Zeros(|padding|)
  {
    for i := 0 to |padding|
      invariant forall j :: 0 <= j < i ==> padding[j] == ENC_PAD
    {
      if padding[i] != ENC_PAD {
        assert padding[i] != Zeros(|padding|)[i];
        return false;
      }
    }
    return true;
  }

  method DecodeBytesLoop(b: Bytes) returns (r: Decoded)
    ensures r == DecodeBytes(b)
  {
    var data: Bytes := [];
    var offset := 0;
    assert b[0..] == b;
    while true
      invariant 0 <= offset <= |b|
      invariant DecodeBytes(b) == Resume(data, offset, DecodeBytes(b[offset..]))
      decreases |b| - offset
    {
      var rest := b[offset..];
      if |b| - offset < ENC_GROUP_SIZE + 1 { return Insufficient; }
      var group := rest[..ENC_GROUP_SIZE];
      var marker := rest[ENC_GROUP_SIZE];
      var padCount := ENC_MARKER - marker;
      if padCount > ENC_GROUP_SIZE { return InvalidMarker; }
      var kept := ENC_GROUP_SIZE - padCount;
      if padCount != 0 {
        assert group[kept..] == rest[kept..ENC_GROUP_SIZE] && group[..kept] == rest[..kept];
        var ok := CheckPadding(group[kept..]);
        if !ok { return InvalidPadding; }
        return Decoded(data + group[..kept], offset + ENC_GROUP_SIZE + 1);
      }
      GroupTaken(data, offset, rest);
      assert rest[ENC_GROUP_SIZE + 1..] == b[offset + ENC_GROUP_SIZE + 1..];
      data := data + group;
      offset := offset + ENC_GROUP_SIZE + 1;
    }
  }

  // ---- Exact inverse ----

  lemma {:induction false} DecodedBounds(b: Bytes)
    ensures DecodeBytes(b).Decoded? ==> DecodeBytes(b).size <= |b|
  {
    if |b| >= ENC_GROUP_SIZE + 1 { DecodedBounds(b[ENC_GROUP_SIZE + 1..]); }
  }

  /** Decoding an encoding gives back the data and exactly the encoded length,
      whatever bytes follow. */
  lemma {:induction false} DecodeAfterEncode(d: Bytes, rest: Bytes)
    ensures DecodeBytes(EncodeBytes(d) + rest) == Decoded(d, |EncodeBytes(d)|)
  {
    var b := EncodeBytes(d) + rest;
    var g := Group(d);
    assert b[..ENC_GROUP_SIZE + 1] == g;
    assert b[ENC_GROUP_SIZE] == g[ENC_GROUP_SIZE] && b[..ENC_GROUP_SIZE] == g[..ENC_GROUP_SIZE];
    if |d| >= ENC_GROUP_SIZE {
      DecodeAfterEncode(d[ENC_GROUP_SIZE..], rest);
      assert b[ENC_GROUP_SIZE + 1..] == EncodeBytes(d[ENC_GROUP_SIZE..]) + rest;
      assert d == d[..ENC_GROUP_SIZE] + d[ENC_GROUP_SIZE..];
    } else {
      assert b[|d|..ENC_GROUP_SIZE] == g[|d|..ENC_GROUP_SIZE] == Zeros(ENC_GROUP_SIZE - |d|);
      assert b[..|d|] == g[..|d|] == d;
    }
  }

  /** Whatever decodes was an encoding: the decoder accepts one form of each key. */
  lemma {:induction false} EncodeAfterDecode(b: Bytes)
    requires DecodeBytes(b).Decoded?
    ensures var Decoded(d, n) := DecodeBytes(b); n <= |b| && EncodeBytes(d) == b[..n]
  {
    var Decoded(d, n) := DecodeBytes(b);
    var padCount := ENC_MARKER - b[ENC_GROUP_SIZE];
    if padCount == 0 {
      var tail := b[ENC_GROUP_SIZE + 1..];
      EncodeAfterDecode(tail);
      var Decoded(d', n') := DecodeBytes(tail);
      assert d[ENC_GROUP_SIZE..] == d' && d[..ENC_GROUP_SIZE] == b[..ENC_GROUP_SIZE];
      assert b[..n] == b[..ENC_GROUP_SIZE] + [ENC_MARKER] + tail[..n'];
    } else {
      var kept := ENC_GROUP_SIZE - padCount;
      assert b[..n] == b[..kept] + b[kept..ENC_GROUP_SIZE] + [b[ENC_GROUP_SIZE]];
    }
  }

  /** No encoding is a prefix of another. */
  lemma {:induction false} PrefixFree(a: Bytes, b: Bytes)
    requires EncodeBytes(a) <= EncodeBytes(b)
    ensures a == b
  {
    var rest := EncodeBytes(b)[|EncodeBytes(a)|..];
    assert EncodeBytes(b) == EncodeBytes(a) + rest;
    assert EncodeBytes(b) == EncodeBytes(b) + [];
    DecodeAfterEncode(a, rest);
    DecodeAfterEncode(b, []);
  }

  lemma {:induction false} KeyRoundTrip(k: Bytes, ts: U64)
    ensures DecodeUserKey(EncodeKey(k, ts)).Decoded? && DecodeUserKey(EncodeKey(k, ts)).data == k
    ensures DecodeTimestamp(EncodeKey(k, ts)) == DecodedTs(ts)
  {
    var tail := ToBigEndian(Invert(ts), 8);
    DecodeAfterEncode(k, tail);
    var e, n := EncodeKey(k, ts), |EncodeBytes(k)|;
    assert e[n..n + 8] == tail;
    assert Pow256(8) == 0x1_0000_0000_0000_0000;
    BigEndianRoundTrip(Invert(ts), 8);
  }

  lemma {:induction false} EncodeKeyInjective(a: Bytes, s: U64, b: Bytes, t: U64)
    requires EncodeKey(a, s) == EncodeKey(b, t)
    ensures a == b && s == t
  {
    KeyRoundTrip(a, s);
    KeyRoundTrip(b, t);
  }

  // ---- Order embedding ----

  /** Two keys that open with the same full group differ, if at all, after it. */
  lemma {:induction false} GroupDecides(a: Bytes, b: Bytes)
    requires Less(a, b)
    ensures Less(Group(a), Group(b)) ||
            (|a| >= ENC_GROUP_SIZE && |b| >= ENC_GROUP_SIZE && Group(a) == Group(b) &&
             Less(a[ENC_GROUP_SIZE..], b[ENC_GROUP_SIZE..]))
  {
    var i := PartsAtFromLess(a, b);
    var ga, gb := Group(a), Group(b);
    if i >= ENC_GROUP_SIZE {
      assert a[..ENC_GROUP_SIZE] == a[..i][..ENC_GROUP_SIZE] == b[..i][..ENC_GROUP_SIZE] == b[..ENC_GROUP_SIZE];
      assert a == a[..ENC_GROUP_SIZE] + a[ENC_GROUP_SIZE..] && b == b[..ENC_GROUP_SIZE] + b[ENC_GROUP_SIZE..];
      LessUnderPrefix(a[..ENC_GROUP_SIZE], a[ENC_GROUP_SIZE..], b[ENC_GROUP_SIZE..]);
    } else {
      assert ga[..i] == a[..i] == b[..i] == gb[..i];
      if i < |a| {
        assert PartsAt(ga, gb, i);
        LessFromPartsAt(ga, gb, i);
      } else {
        var j := PaddingParts(a, b);
        LessFromPartsAt(ga, gb, j);
      }
    }
  }

  /** A proper prefix shorter than a group loses to the longer key at its first
      non-zero extra byte, or else at the marker. */
  lemma {:induction false} PaddingParts(a: Bytes, b: Bytes) returns (j: nat)
    requires |a| < |b| && |a| < ENC_GROUP_SIZE && b[..|a|] == a
    ensures PartsAt(Group(a), Group(b), j)
  {
    var ga, gb := Group(a), Group(b);
    assert forall k :: 0 <= k < |a| ==> ga[k] == a[k] == b[..|a|][k] == gb[k];
    j := |a|;
    while j < ENC_GROUP_SIZE && gb[j] == ENC_PAD
      invariant |a| <= j <= ENC_GROUP_SIZE
      invariant forall k :: 0 <= k < j ==> ga[k] == gb[k]
    {
      assert ga[j] == ENC_PAD;
      j := j + 1;
    }
    assert ga[..j] == gb[..j];
  }

  /** Encodings of different keys are ordered before anything that follows them. */
  lemma {:induction false} EncodeBytesOrder(a: Bytes, b: Bytes, x: Bytes, y: Bytes)
    requires Less(a, b)
    ensures Less(EncodeBytes(a) + x, EncodeBytes(b) + y)
    decreases |a|
  {
    var ra := if |a| >= ENC_GROUP_SIZE then EncodeBytes(a[ENC_GROUP_SIZE..]) + x else x;
    var rb := if |b| >= ENC_GROUP_SIZE then EncodeBytes(b[ENC_GROUP_SIZE..]) + y else y;
    assert EncodeBytes(a) + x == Group(a) + ra && EncodeBytes(b) + y == Group(b) + rb;
    GroupDecides(a, b);
    if Less(Group(a), Group(b)) {
      LessBeforeSuffix(Group(a), Group(b), ra, rb);
    } else {
      EncodeBytesOrder(a[ENC_GROUP_SIZE..], b[ENC_GROUP_SIZE..], x, y);
      LessUnderPrefix(Group(a), ra, rb);
    }
  }

  lemma {:induction false} TimestampOrder(s: U64, t: U64)
    ensures Less(ToBigEndian(Invert(s), 8), ToBigEndian(Invert(t), 8)) <==> s > t
  {
    assert Pow256(8) == 0x1_0000_0000_0000_0000;
    BigEndianRoundTrip(Invert(s), 8);
    BigEndianRoundTrip(Invert(t), 8);
    BigEndianOrder(ToBigEndian(Invert(s), 8), ToBigEndian(Invert(t), 8));
  }

  /** Stored keys sort by user key ascending and, within a key, newest first. */
  lemma {:induction false} OrderEmbedding(a: Bytes, s: U64, b: Bytes, t: U64)
    ensures Less(EncodeKey(a, s), EncodeKey(b, t)) <==> Less(a, b) || (a == b && s > t)
  {
    var x, y := ToBigEndian(Invert(s), 8), ToBigEndian(Invert(t), 8);
    LessTotal(a, b);
    if a == b {
      LessIrreflexive(a);
      LessUnderPrefix(EncodeBytes(a), x, y);
      TimestampOrder(s, t);
    } else if Less(a, b) {
      EncodeBytesOrder(a, b, x, y);
    } else {
      EncodeBytesOrder(b, a, y, x);
      LessAsymmetric(EncodeKey(b, t), EncodeKey(a, s));
      LessAsymmetric(b, a);
    }
  }
}
