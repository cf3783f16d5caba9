/** Byte-lexicographic order on byte strings, the order Rust's `Ord` gives
    `Vec<u8>` and the order in which the encoder emits dictionary keys. */
module ByteOrder {
  import opened Common

  /** `a` sorts strictly before `b`: at the first differing position `a`
      has the smaller byte, or `a` is a proper prefix of `b`. */
  predicate Less(a: seq<Byte>, b: seq<Byte>)
    decreases |a|
  {
    if |b| == 0 then false
    else if |a| == 0 then true
    else if a[0] != b[0] then a[0] < b[0]
    else Less(a[1..], b[1..])
  }

  lemma {:induction false} LessIrreflexive(a: seq<Byte>)
    ensures !Less(a, a)
    decreases |a|
  {
    if |a| > 0 {
      LessIrreflexive(a[1..]);
    }
  }

  lemma {:induction false} LessAsymmetric(a: seq<Byte>, b: seq<Byte>)
    ensures Less(a, b) ==> !Less(b, a)
    decreases |a|
  {
    if |a| > 0 && |b| > 0 && a[0] == b[0] {
      LessAsymmetric(a[1..], b[1..]);
    }
  }

  lemma {:induction false} LessTransitive(a: seq<Byte>, b: seq<Byte>, c: seq<Byte>)
    ensures Less(a, b) && Less(b, c) ==> Less(a, c)
    decreases |a|
  {
    if |a| > 0 && |b| > 0 && |c| > 0 && a[0] == b[0] && b[0] == c[0] {
      LessTransitive(a[1..], b[1..], c[1..]);
    }
  }

  lemma {:induction false} LessConnected(a: seq<Byte>, b: seq<Byte>)
    ensures a != b ==> Less(a, b) || Less(b, a)
    decreases |a|
  {
    if |a| > 0 && |b| > 0 && a[0] == b[0] {
      LessConnected(a[1..], b[1..]);
      if a[1..] == b[1..] {
        assert a == [a[0]] + a[1..] && b == [b[0]] + b[1..];
      }
    }
  }

  /** `k` is the smallest element of `keys`. */
  predicate IsLeast(k: ByteString, keys: set<ByteString>) {
    k in keys && forall x :: x in keys && x != k ==> Less(k, x)
  }

  lemma {:induction false} LeastExists(keys: set<ByteString>)
    requires keys != {}
    ensures exists k :: IsLeast(k, keys)
    decreases |keys|
  {
    var x: ByteString :| x in keys;
    if keys == {x} {
      assert IsLeast(x, keys);
    } else {
      LeastExists(keys - {x});
      var m: ByteString :| IsLeast(m, keys - {x});
      LessConnected(x, m);
      if Less(x, m) {
        forall y | y in keys && y != x
          ensures Less(x, y)
        {
          if y != m {
            LessTransitive(x, m, y);
          }
        }
        assert IsLeast(x, keys);
      } else {
        assert IsLeast(m, keys);
      }
    }
  }

  lemma LeastUnique(keys: set<ByteString>)
    ensures forall k, k' :: IsLeast(k, keys) && IsLeast(k', keys) ==> k == k'
  {
    forall k: ByteString, k': ByteString | IsLeast(k, keys) && IsLeast(k', keys)
      ensures k == k'
    {
      if k != k' {
        LessAsymmetric(k, k');
      }
    }
  }

  /** The smallest key of a non-empty key set. */
  function MinKey(keys: set<ByteString>): (k: ByteString)
    requires keys != {}
    ensures IsLeast(k, keys)
  {
    LeastExists(keys);
    LeastUnique(keys);
    var k :| IsLeast(k, keys); k
  }

  /** The keys of a dictionary in the order the encoder emits them, built by
      repeatedly taking the smallest remaining key: every key exactly once,
      in strictly increasing byte order. */
  function SortedKeys(keys: set<ByteString>): (r: seq<ByteString>)
    ensures |r| == |keys|
    ensures forall i :: 0 <= i < |r| ==> r[i] in keys
    ensures forall k :: k in keys ==> k in r
    ensures forall i, j :: 0 <= i < j < |r| ==> Less(r[i], r[j])
    decreases |keys|
  {
    if keys == {} then []
    else
      var k := MinKey(keys);
      [k] + SortedKeys(keys - {k})
  }

  /** A strictly increasing enumeration of exactly the keys `keys`. */
  predicate SortedEnumeration(r: seq<ByteString>, keys: set<ByteString>) {
    (forall i :: 0 <= i < |r| ==> r[i] in keys)
    && (forall k :: k in keys ==> k in r)
    && (forall i, j :: 0 <= i < j < |r| ==> Less(r[i], r[j]))
  }

  /** There is only one sorted enumeration of a key set, so the order of
      the encoder's output does not depend on how the map is iterated. */
  lemma {:induction false} SortedEnumerationUnique(r: seq<ByteString>, keys: set<ByteString>)
    requires SortedEnumeration(r, keys)
    ensures r == SortedKeys(keys)
    decreases |r|
  {
    if |r| == 0 {
      assert keys == {};
    } else {
      var k := r[0];
      FirstIsLeast(r, keys);
      LeastUnique(keys);
      assert MinKey(keys) == k;
      TailEnumeration(r, keys);
      SortedEnumerationUnique(r[1..], keys - {k});
      assert SortedKeys(keys) == [k] + SortedKeys(keys - {k});
      assert r == [k] + r[1..];
    }
  }

  lemma FirstIsLeast(r: seq<ByteString>, keys: set<ByteString>)
    requires |r| > 0 && SortedEnumeration(r, keys)
    ensures IsLeast(r[0], keys)
  {
    forall x | x in keys && x != r[0]
      ensures Less(r[0], x)
    {
      var j :| 0 <= j < |r| && r[j] == x;
    }
  }

  lemma TailEnumeration(r: seq<ByteString>, keys: set<ByteString>)
    requires |r| > 0 && SortedEnumeration(r, keys)
    ensures SortedEnumeration(r[1..], keys - {r[0]})
  {
    var tail := r[1..];
    forall i | 0 <= i < |tail|
      ensures tail[i] in keys - {r[0]}
    {
      LessIrreflexive(r[0]);
      assert Less(r[0], r[i + 1]);
    }
    forall x | x in keys - {r[0]}
      ensures x in tail
    {
      var j :| 0 <= j < |r| && r[j] == x;
      assert tail[j - 1] == x;
    }
  }
}
