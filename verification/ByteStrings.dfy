/** Byte strings and the bytewise lexicographic order in which the key-value
    store keeps its keys. */
module ByteStrings {

  type Byte = x: int | 0 <= x < 256

  type Bytes = seq<Byte>

  /** `a` comes strictly before `b` (the order of Rust's `[u8]`). */
  predicate Less(a: Bytes, b: Bytes) {
    |b| > 0 && (|a| == 0 || a[0] < b[0] || (a[0] == b[0] && Less(a[1..], b[1..])))
  }

  predicate AtMost(a: Bytes, b: Bytes) {
    a == b || Less(a, b)
  }

  /** `i` is the first place where `a` and `b` part, and `a` is the smaller there. */
  ghost predicate PartsAt(a: Bytes, b: Bytes, i: nat) {
    i <= |a| && i < |b| && a[..i] == b[..i] && (i == |a| || a[i] < b[i])
  }

  lemma {:induction false} LessFromPartsAt(a: Bytes, b: Bytes, i: nat)
    requires PartsAt(a, b, i)
    ensures Less(a, b)
    decreases i
  {
    if i > 0 {
      assert a[0] == a[..i][0] == b[..i][0] == b[0];
      assert a[1..][..i - 1] == a[..i][1..];
      assert b[1..][..i - 1] == b[..i][1..];
      LessFromPartsAt(a[1..], b[1..], i - 1);
    }
  }

  lemma {:induction false} PartsAtFromLess(a: Bytes, b: Bytes) returns (i: nat)
    requires Less(a, b)
    ensures PartsAt(a, b, i)
  {
    if |a| == 0 || a[0] < b[0] {
      i := 0;
    } else {
      var j := PartsAtFromLess(a[1..], b[1..]);
      i := j + 1;
      assert a[..i] == [a[0]] + a[1..][..j];
      assert b[..i] == [b[0]] + b[1..][..j];
    }
  }

  lemma {:induction false} LessIrreflexive(a: Bytes)
    ensures !Less(a, a)
  {
    if |a| > 0 { LessIrreflexive(a[1..]); }
  }

  lemma {:induction false} LessTransitive(a: Bytes, b: Bytes, c: Bytes)
    requires Less(a, b) && Less(b, c)
    ensures Less(a, c)
  {
    if |a| > 0 && a[0] == b[0] == c[0] {
      LessTransitive(a[1..], b[1..], c[1..]);
    }
  }

  lemma {:induction false} LessTotal(a: Bytes, b: Bytes)
    ensures a == b || Less(a, b) || Less(b, a)
  {
    if |a| > 0 && |b| > 0 && a[0] == b[0] {
      LessTotal(a[1..], b[1..]);
      if a[1..] == b[1..] {
        assert a == [a[0]] + a[1..] && b == [b[0]] + b[1..];
      }
    }
  }

  lemma {:induction false} LessAsymmetric(a: Bytes, b: Bytes)
    requires Less(a, b)
    ensures !Less(b, a) && a != b
  {
    LessIrreflexive(a);
    if Less(b, a) { LessTransitive(a, b, a); }
  }

  /** A common prefix does not change the order of what follows it. */
  lemma {:induction false} LessUnderPrefix(p: Bytes, x: Bytes, y: Bytes)
    ensures Less(p + x, p + y) <==> Less(x, y)
  {
    if |p| == 0 {
      assert p + x == x && p + y == y;
    } else {
      assert (p + x)[1..] == p[1..] + x && (p + y)[1..] == p[1..] + y;
      LessUnderPrefix(p[1..], x, y);
    }
  }

  /** Between strings of one length the order is decided before any suffix. */
  lemma {:induction false} LessBeforeSuffix(a: Bytes, b: Bytes, x: Bytes, y: Bytes)
    requires |a| == |b| && Less(a, b)
    ensures Less(a + x, b + y)
  {
    assert a + x == [a[0]] + (a[1..] + x) && b + y == [b[0]] + (b[1..] + y);
    if a[0] == b[0] { LessBeforeSuffix(a[1..], b[1..], x, y); }
  }

  // ---- Big-endian numbers ----

  function Pow256(n: nat): nat {
    if n == 0 then 1 else 256 * Pow256(n - 1)
  }

  /** The low `n` bytes of `v`, most significant first. */
  function ToBigEndian(v: nat, n: nat): (b: Bytes)
    ensures |b| == n
  {
    if n == 0 then [] else ToBigEndian(v / 256, n - 1) + [v % 256]
  }

  function FromBigEndian(b: Bytes): nat {
    if |b| == 0 then 0 else FromBigEndian(b[..|b| - 1]) * 256 + b[|b| - 1]
  }

  lemma {:induction false} BigEndianRoundTrip(v: nat, n: nat)
    requires v < Pow256(n)
    ensures FromBigEndian(ToBigEndian(v, n)) == v
  {
    if n > 0 {
      BigEndianRoundTrip(v / 256, n - 1);
      assert ToBigEndian(v, n)[..n - 1] == ToBigEndian(v / 256, n - 1);
    }
  }

  lemma {:induction false} BigEndianBound(b: Bytes)
    ensures FromBigEndian(b) < Pow256(|b|)
  {
    if |b| > 0 { BigEndianBound(b[..|b| - 1]); }
  }

  /** Fixed-width big-endian numbers sort as the numbers they stand for. */
  lemma {:induction false} BigEndianOrder(a: Bytes, b: Bytes)
    requires |a| == |b|
    ensures Less(a, b) <==> FromBigEndian(a) < FromBigEndian(b)
    decreases |a|
  {
    if |a| > 0 {
      var n := |a| - 1;
      BigEndianOrder(a[..n], b[..n]);
      BigEndianOrder(b[..n], a[..n]);
      assert a == a[..n] + [a[n]] && b == b[..n] + [b[n]];
      LessTotal(a[..n], b[..n]);
      if a[..n] == b[..n] {
        LessUnderPrefix(a[..n], [a[n]], [b[n]]);
      } else if Less(a[..n], b[..n]) {
        LessBeforeSuffix(a[..n], b[..n], [a[n]], [b[n]]);
      } else {
        LessBeforeSuffix(b[..n], a[..n], [b[n]], [a[n]]);
        LessAsymmetric(b, a);
      }
    }
  }
}
