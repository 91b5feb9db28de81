/** Column families as sorted byte-keyed maps, and the iterator that walks one. */
module KvIterator {
  import opened ByteStrings
  import opened Codec
  import opened Options
  import opened MvccModel

  /** Order of the encoded versions: keys ascending, newest version first. */
  predicate Before(v: Version, w: Version) {
    Less(v.0, w.0) || (v.0 == w.0 && v.1 > w.1)
  }

  function Encode(v: Version): Bytes {
    EncodeKey(v.0, v.1)
  }

  /** A stored key from which no version can be decoded; readers step over it. */
  predicate Stray(b: Bytes) {
    DecodeTimestamp(b).NoTimestamp?
  }

  /** `cf` holds exactly the versions of `m`, each under its encoded key, and
      perhaps some stray keys. */
  ghost predicate Encodes<V>(m: map<Version, V>, cf: map<Bytes, V>) {
    && (forall v {:trigger Encode(v)} :: v in m ==> Encode(v) in cf && cf[Encode(v)] == m[v])
    && (forall b {:trigger Stray(b)} :: b in cf ==> Stray(b) || exists v :: v in m && Encode(v) == b)
  }

  lemma {:induction false} EncodesGet<V>(m: map<Version, V>, cf: map<Bytes, V>, v: Version)
    requires Encodes(m, cf)
    ensures v in m <==> Encode(v) in cf
    ensures v in m ==> cf[Encode(v)] == m[v]
  {
    if Encode(v) in cf {
      KeyRoundTrip(v.0, v.1);
      assert !Stray(Encode(v));
      var v' :| v' in m && Encode(v') == Encode(v);
      EncodeKeyInjective(v.0, v.1, v'.0, v'.1);
    }
  }

  lemma {:induction false} EncodesPut<V>(m: map<Version, V>, cf: map<Bytes, V>, v: Version, x: V)
    requires Encodes(m, cf)
    ensures Encodes(m[v := x], cf[Encode(v) := x])
  {
    var m', cf' := m[v := x], cf[Encode(v) := x];
    forall w | w in m' ensures Encode(w) in cf' && cf'[Encode(w)] == m'[w] {
      if Encode(w) == Encode(v) { EncodeKeyInjective(w.0, w.1, v.0, v.1); }
    }
    forall b | b in cf' && !Stray(b) ensures exists w :: w in m' && Encode(w) == b {
      if b == Encode(v) {
        assert v in m';
      } else {
        var w :| w in m && Encode(w) == b;
        assert w in m';
      }
    }
  }

  lemma {:induction false} EncodesDelete<V>(m: map<Version, V>, cf: map<Bytes, V>, v: Version)
    requires Encodes(m, cf)
    ensures Encodes(m - {v}, cf - {Encode(v)})
  {
    var m', cf' := m - {v}, cf - {Encode(v)};
    forall w | w in m' ensures Encode(w) in cf' && cf'[Encode(w)] == m'[w] {
      if Encode(w) == Encode(v) { EncodeKeyInjective(w.0, w.1, v.0, v.1); }
    }
    forall b | b in cf' && !Stray(b) ensures exists w :: w in m' && Encode(w) == b {
      var w :| w in m && Encode(w) == b;
      assert w in m';
    }
  }

  // ---- Sorting a set of byte strings ----

  ghost predicate IsLeast(s: set<Bytes>, m: Bytes) {
    m in s && forall x :: x in s ==> AtMost(m, x)
  }

  lemma {:induction false} LeastExists(s: set<Bytes>) returns (m: Bytes)
    requires s != {}
    ensures IsLeast(s, m)
    decreases |s|
  {
    var x :| x in s;
    if s == {x} {
      m := x;
    } else {
      var rest := s - {x};
      assert |rest| < |s|;
      m := LeastExists(rest);
      LessTotal(x, m);
      if Less(x, m) {
        forall y | y in s ensures AtMost(x, y) {
          if y != x {
            assert y in rest && AtMost(m, y);
            if y != m { LessTransitive(x, m, y); }
          }
        }
        m := x;
      }
    }
  }

  function Least(s: set<Bytes>): (m: Bytes)
    requires s != {}
    ensures m in s
    ensures forall x :: x in s ==> AtMost(m, x)
  {
    assert exists m :: m in s && forall x :: x in s ==> AtMost(m, x) by {
      var m := LeastExists(s);
    }
    assert forall m, m' :: IsLeast(s, m) && IsLeast(s, m') ==> m == m' by {
      forall m, m' | IsLeast(s, m) && IsLeast(s, m') ensures m == m' {
        if m != m' { LessAsymmetric(m, m'); }
      }
    }
    assert forall m :: (m in s && forall x :: x in s ==> AtMost(m, x)) ==> IsLeast(s, m);
    var m :| m in s && forall x :: x in s ==> AtMost(m, x);
    m
  }

  ghost predicate StrictlySorted(ks: seq<Bytes>) {
    forall i, j {:trigger Less(ks[i], ks[j])} :: 0 <= i < j < |ks| ==> Less(ks[i], ks[j])
  }

  function SortedKeys(s: set<Bytes>): (ks: seq<Bytes>)
    ensures StrictlySorted(ks)
    ensures forall x :: x in s <==> x in ks
    decreases |s|
  {
    if s == {} then []
    else
      var m := Least(s);
      assert |s - {m}| < |s|;
      var rest := SortedKeys(s - {m});
      assert forall i :: 0 <= i < |rest| ==> Less(m, rest[i]) by {
        forall i | 0 <= i < |rest| ensures Less(m, rest[i]) {
          assert rest[i] in rest && rest[i] in s;
        }
      }
      [m] + rest
  }

  ghost predicate Holds<V>(m: map<Version, V>, b: Bytes, item: Option<Version>) {
    match item
    case Some(v) => v in m && Encode(v) == b
    case None => Stray(b)
  }

  lemma {:induction false} ItemOf<V>(m: map<Version, V>, cf: map<Bytes, V>, b: Bytes) returns (item: Option<Version>)
    requires Encodes(m, cf) && b in cf
    ensures Holds(m, b, item)
  {
    if Stray(b) {
      item := None;
    } else {
      var v :| v in m && Encode(v) == b;
      item := Some(v);
    }
  }

  /** What each sorted byte key stands for. */
  lemma {:induction false} ItemsOf<V>(m: map<Version, V>, cf: map<Bytes, V>, ks: seq<Bytes>)
    returns (items: seq<Option<Version>>)
    requires Encodes(m, cf) && forall i :: 0 <= i < |ks| ==> ks[i] in cf
    ensures |items| == |ks| && forall i :: 0 <= i < |ks| ==> Holds(m, ks[i], items[i])
  {
    if |ks| == 0 {
      items := [];
    } else {
      var n := |ks| - 1;
      var front := ItemsOf(m, cf, ks[..n]);
      var last := ItemOf(m, cf, ks[n]);
      items := front + [last];
    }
  }

  /** A cursor over one column family, taken at the time of its creation. */
  class Iterator<V> {
    const cf: map<Bytes, V>
    const keys: seq<Bytes>
    ghost const items: seq<Option<Version>>
    ghost const model: map<Version, V>
    var pos: nat

    /** The sorted keys and what they stand for; fixed at creation. */
    ghost predicate Sound() {
      && |keys| == |items|
      && StrictlySorted(keys)
      && (forall i {:trigger Holds(model, keys[i], items[i])} :: 0 <= i < |keys| ==>
          keys[i] in cf && Holds(model, keys[i], items[i]))
      && (forall v {:trigger Some(v) in items} :: v in model ==> Some(v) in items)
      && (forall v {:trigger Encode(v)} :: v in model ==> Encode(v) in cf && cf[Encode(v)] == model[v])
    }

    ghost predicate Valid()
      reads this
    {
      Sound() && pos <= |keys|
    }

    constructor (cf: map<Bytes, V>, ghost m: map<Version, V>)
      requires Encodes(m, cf)
      ensures Valid() && model == m && this.cf == cf && pos == 0
    {
      var ks := SortedKeys(cf.Keys);
      ghost var its := ItemsOf(m, cf, ks);
      forall v | v in m ensures Some(v) in its {
        assert Encode(v) in cf.Keys && Encode(v) in ks;
        var i :| 0 <= i < |ks| && ks[i] == Encode(v);
        KeyRoundTrip(v.0, v.1);
        EncodeKeyInjective(v.0, v.1, its[i].value.0, its[i].value.1);
      }
      this.cf := cf;
      keys := ks;
      items := its;
      model := m;
      pos := 0;
    }

    predicate AtItem()
      reads this
    {
      pos < |keys|
    }

    method Next()
      requires Valid()
      modifies this
      ensures Valid() && pos == if old(pos) < |keys| then old(pos) + 1 else old(pos)
    {
      if pos < |keys| { pos := pos + 1; }
    }

    /** Moves to the first key that is not below `target`. */
    method Seek(target: Bytes)
      requires Valid()
      modifies this
      ensures Valid()
      ensures forall i :: 0 <= i < pos ==> Less(keys[i], target)
      ensures forall i :: pos <= i < |keys| ==> !Less(keys[i], target)
    {
      pos := 0;
      while pos < |keys| && Less(keys[pos], target)
        invariant pos <= |keys|
        invariant forall i :: 0 <= i < pos ==> Less(keys[i], target)
      {
        pos := pos + 1;
      }
      forall i | pos < i < |keys| ensures !Less(keys[i], target) {
        if Less(keys[i], target) { LessTransitive(keys[pos], keys[i], target); }
      }
    }
  }

  // ---- What the byte order says about user keys ----

  lemma {:induction false} DecodedSplit(b: Bytes)
    requires DecodeUserKey(b).Decoded?
    ensures DecodeUserKey(b).size <= |b|
    ensures b == EncodeBytes(DecodeUserKey(b).data) + b[DecodeUserKey(b).size..]
  {
    EncodeAfterDecode(b);
  }

  lemma {:induction false} EncodingsSorted(u: Key, x: Bytes, w: Key, y: Bytes)
    requires Less(EncodeBytes(u) + x, EncodeBytes(w) + y)
    ensures AtMost(u, w)
  {
    LessTotal(u, w);
    if Less(w, u) {
      EncodeBytesOrder(w, u, y, x);
      LessAsymmetric(EncodeBytes(u) + x, EncodeBytes(w) + y);
    }
  }

  /** The user key of a decodable stored key follows the order of the bytes. */
  lemma {:induction false} UserKeysSorted(b: Bytes, c: Bytes)
    requires DecodeUserKey(b).Decoded? && DecodeUserKey(c).Decoded? && Less(b, c)
    ensures AtMost(DecodeUserKey(b).data, DecodeUserKey(c).data)
  {
    DecodedSplit(b);
    DecodedSplit(c);
    EncodingsSorted(DecodeUserKey(b).data, b[DecodeUserKey(b).size..],
                    DecodeUserKey(c).data, c[DecodeUserKey(c).size..]);
  }

  /** The bare encoded key sorts below everything that decodes to it and above
      everything that decodes to a smaller key. */
  lemma {:induction false} PrefixOrder(key: Key, b: Bytes)
    requires DecodeUserKey(b).Decoded?
    ensures Less(b, EncodeBytes(key)) <==> Less(DecodeUserKey(b).data, key)
  {
    DecodedSplit(b);
    BareKeyOrder(key, DecodeUserKey(b).data, b[DecodeUserKey(b).size..]);
  }

  lemma {:induction false} BareKeyOrder(key: Key, u: Key, rest: Bytes)
    ensures Less(EncodeBytes(u) + rest, EncodeBytes(key)) <==> Less(u, key)
  {
    assert EncodeBytes(key) == EncodeBytes(key) + [];
    LessTotal(u, key);
    if u == key {
      LessUnderPrefix(EncodeBytes(key), rest, []);
      LessIrreflexive(key);
    } else if Less(u, key) {
      EncodeBytesOrder(u, key, rest, []);
    } else {
      EncodeBytesOrder(key, u, [], rest);
      LessAsymmetric(EncodeBytes(key), EncodeBytes(u) + rest);
      LessAsymmetric(key, u);
    }
  }

  /** Every version of the family has its place under the cursor's path. */
  lemma {:induction false} PlaceOf<V>(it: Iterator<V>, v: Version) returns (i: nat)
    requires it.Valid() && v in it.model
    ensures i < |it.items| && it.items[i] == Some(v) && it.keys[i] == Encode(v)
  {
    assert Some(v) in it.items;
    i :| 0 <= i < |it.items| && it.items[i] == Some(v);
    assert Holds(it.model, it.keys[i], it.items[i]);
  }

  lemma {:induction false} KeysSorted<V>(it: Iterator<V>, i: nat, j: nat)
    requires it.Valid() && i < j < |it.keys|
    ensures Less(it.keys[i], it.keys[j])
  {
  }

  /** Two versions of one key stand newest first. */
  lemma {:induction false} VersionsSorted<V>(it: Iterator<V>, i: nat, j: nat)
    requires it.Valid() && i < j < |it.keys| && it.items[i].Some? && it.items[j].Some?
    ensures Before(it.items[i].value, it.items[j].value)
  {
    var v, w := it.items[i].value, it.items[j].value;
    OrderEmbedding(v.0, v.1, w.0, w.1);
    assert Holds(it.model, it.keys[i], it.items[i]) && Holds(it.model, it.keys[j], it.items[j]);
  }

  /** Reading the item under the cursor: decoding it tells what it stands for. */
  lemma {:induction false} ItemDecodes<V>(it: Iterator<V>, i: nat)
    requires it.Valid() && i < |it.keys|
    ensures it.keys[i] in it.cf
    ensures it.items[i].Some? <==> DecodeTimestamp(it.keys[i]).DecodedTs?
    ensures it.items[i].Some? ==>
              && DecodeUserKey(it.keys[i]).Decoded? && DecodeUserKey(it.keys[i]).data == it.items[i].value.0
              && DecodeTimestamp(it.keys[i]).ts == it.items[i].value.1
              && it.items[i].value in it.model && it.cf[it.keys[i]] == it.model[it.items[i].value]
  {
    assert Holds(it.model, it.keys[i], it.items[i]);
    if it.items[i].Some? { KeyRoundTrip(it.items[i].value.0, it.items[i].value.1); }
  }
}
