// Prefix ranges from the client option to the keys that the index visits.
module Prefixes {
  import opened Bytes
  import opened TreeIndices
  import opened Transactions

  const NO_PREFIX_END: Key := [0]

  /** The first key after all those with this prefix; {0} when there is none. */
  function PrefixEnd(key: Key): Key {
    if key == [] then NO_PREFIX_END
    else if key[|key| - 1] < 255 then key[..|key| - 1] + [key[|key| - 1] + 1]
    else PrefixEnd(key[..|key| - 1])
  }

  /** getPrefix */
  method GetPrefix(key: Key) returns (r: Key)
    ensures r == PrefixEnd(key)
  {
    var end := new byte[|key|](i requires 0 <= i < |key| => key[i]);
    assert end[..] == key && key[..|key|] == key;
    var i := end.Length - 1;
    while i >= 0
      invariant -1 <= i < end.Length && end[..] == key
      invariant PrefixEnd(key[..i + 1]) == PrefixEnd(key)
    {
      assert key[..i + 1][..i] == key[..i];
      if end[i] < 255 {
        end[i] := end[i] + 1;
        assert end[..i + 1] == key[..i] + [key[i] + 1];
        return end[..i + 1];
      }
      i := i - 1;
    }
    return NO_PREFIX_END;
  }

  /** WithPrefix: the key and the range end of the request. */
  function WithPrefix(key: Key): (Key, Key) {
    if key == [] then ([0], [0]) else (key, PrefixEnd(key))
  }

  predicate AllMax(key: Key) {
    forall i :: 0 <= i < |key| ==> key[i] == 255
  }

  /** An end that bounds the range is never the marker for an open one. */
  lemma {:induction false} MarkerOnlyWhenOpen(key: Key)
    ensures PrefixEnd(key) == NO_PREFIX_END <==> AllMax(key)
    ensures PrefixEnd(key) != []
  {
    if key != [] {
      var n := |key| - 1;
      if key[n] < 255 {
        assert PrefixEnd(key)[n] == key[n] + 1;
      } else {
        MarkerOnlyWhenOpen(key[..n]);
        assert AllMax(key) <==> AllMax(key[..n]) by { assert key == key[..n] + [key[n]]; }
      }
    }
  }

  lemma {:induction false} EndAfterHead(key: Key)
    requires key != [] && !AllMax(key[1..])
    ensures PrefixEnd(key) == [key[0]] + PrefixEnd(key[1..])
  {
    var n := |key| - 1;
    var tail := key[1..];
    assert tail[..n - 1] == key[..n][1..];
    if key[n] == 255 {
      assert !AllMax(key[..n][1..]) by {
        if AllMax(key[..n][1..]) { assert forall i :: 0 <= i < n - 1 ==> tail[i] == key[..n][1..][i]; }
      }
      EndAfterHead(key[..n]);
    }
  }

  lemma {:induction false} EndAtHead(key: Key)
    requires key != [] && AllMax(key[1..]) && key[0] < 255
    ensures PrefixEnd(key) == [key[0] + 1]
  {
    var n := |key| - 1;
    if n > 0 {
      assert key[n] == key[1..][n - 1] == 255;
      assert key[..n][1..] == key[1..][..n - 1];
      EndAtHead(key[..n]);
    }
  }

  lemma {:induction false} AtLeastMax(key: Key, k: Key)
    requires AllMax(key)
    ensures !Less(k, key) <==> key <= k
  {
    if key != [] && k != [] {
      AtLeastMax(key[1..], k[1..]);
      SplitPrefix(key, k);
    }
  }

  lemma SplitPrefix(key: Key, k: Key)
    requires key != [] && k != []
    ensures key <= k <==> key[0] == k[0] && key[1..] <= k[1..]
  {
    if key[0] == k[0] && key[1..] <= k[1..] {
      assert key == [key[0]] + key[1..] && k == [k[0]] + k[1..];
    }
  }

  lemma {:induction false} BoundedExact(key: Key, k: Key)
    requires !AllMax(key)
    ensures !Less(k, key) && Less(k, PrefixEnd(key)) <==> key <= k
  {
    if k != [] {
      SplitPrefix(key, k);
      if AllMax(key[1..]) {
        assert key[0] < 255 by { assert key == [key[0]] + key[1..]; }
        EndAtHead(key);
        AtLeastMax(key[1..], k[1..]);
      } else {
        EndAfterHead(key);
        BoundedExact(key[1..], k[1..]);
      }
    }
  }

  /** The range that a prefix request reaches the index with holds exactly the keys that
      start with the prefix, for every prefix. Stored keys are not empty, and neither is
      the key of the request, which the server would reject. */
  lemma PrefixRangeExact(prefix: Key, k: Key)
    requires k != []
    ensures var (key, rangeEnd) := WithPrefix(prefix);
      key != [] && (InRange(k, key, MkGteRange(rangeEnd)) <==> prefix <= k)
  {
    MarkerOnlyWhenOpen(prefix);
    if prefix == [] {
      assert NO_PREFIX_END[1..] == [];
      assert !Less(k, NO_PREFIX_END);
    } else if AllMax(prefix) {
      AtLeastMax(prefix, k);
    } else {
      BoundedExact(prefix, k);
    }
  }

  /** End to end: what a walk of the index over that range hands out. */
  lemma PrefixVisitsExactly(prefix: Key, keys: set<Key>, ks: seq<Key>)
    requires [] !in keys
    requires var (key, rangeEnd) := WithPrefix(prefix); KeysInRange(keys, key, MkGteRange(rangeEnd), ks)
    ensures Ascending(ks) && forall k :: k in ks <==> k in keys && prefix <= k
  {
    forall k | k in keys
      ensures k in ks <==> prefix <= k
    {
      PrefixRangeExact(prefix, k);
    }
  }
}
