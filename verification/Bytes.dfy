/** Byte strings in the order that Go's bytes.Compare gives them. */
module Bytes {
  newtype byte = x: int | 0 <= x < 256
  type Key = seq<byte>

  /** bytes.Compare(a, b) == -1 */
  predicate Less(a: Key, b: Key) {
    if b == [] then false
    else if a == [] then true
    else a[0] < b[0] || (a[0] == b[0] && Less(a[1..], b[1..]))
  }

  /** The order is lexicographic: the first place where the two differ decides, and a
      proper prefix comes before what it begins. */
  lemma {:induction false} LessMeans(a: Key, b: Key)
    ensures Less(a, b) <==>
      exists i :: 0 <= i <= |a| && i < |b| && a[..i] == b[..i] && (i == |a| || a[i] < b[i])
  {
    if a != [] && b != [] {
      LessMeans(a[1..], b[1..]);
      if a[0] < b[0] {
        assert a[..0] == b[..0];
      } else if Less(a, b) {
        var i :| 0 <= i <= |a[1..]| && i < |b[1..]| && a[1..][..i] == b[1..][..i]
          && (i == |a[1..]| || a[1..][i] < b[1..][i]);
        assert a[..i + 1] == [a[0]] + a[1..][..i] && b[..i + 1] == [b[0]] + b[1..][..i];
      }
      if i :| 0 <= i <= |a| && i < |b| && a[..i] == b[..i] && (i == |a| || a[i] < b[i]) && i > 0 {
        assert a[0] == a[..i][0] == b[..i][0] == b[0];
        assert a[1..][..i - 1] == a[..i][1..] == b[..i][1..] == b[1..][..i - 1];
      }
    } else if b != [] {
      assert a[..0] == b[..0];
    }
  }

  lemma {:induction false} LessTransitive(a: Key, b: Key, c: Key)
    requires Less(a, b) && Less(b, c)
    ensures Less(a, c)
  {
    if a != [] && a[0] == b[0] == c[0] { LessTransitive(a[1..], b[1..], c[1..]); }
  }

  lemma {:induction false} LessTotal(a: Key, b: Key)
    ensures Less(a, b) || a == b || Less(b, a)
    ensures !(Less(a, b) && Less(b, a)) && !Less(a, a)
  {
    if a != [] && b != [] {
      LessTotal(a[1..], b[1..]);
      assert a[0] == b[0] && a[1..] == b[1..] ==> a == [a[0]] + a[1..] == [b[0]] + b[1..] == b;
    }
    if a != [] { LessTotal(a[1..], a[1..]); }
  }

  /** The keys that a key and a range end stand for: without an end the key alone, with
      the end {0} all keys from the key on, else those from the key up to the end. */
  predicate Selects(key: Key, rangeEnd: Key, k: Key) {
    if rangeEnd == [] then k == key
    else if rangeEnd == [0] then !Less(k, key)
    else !Less(k, key) && Less(k, rangeEnd)
  }

  ghost predicate Ascending(ks: seq<Key>) {
    forall i, j :: 0 <= i < j < |ks| ==> Less(ks[i], ks[j])
  }

  /** Sorted lists without duplicates are determined by their members. */
  lemma {:induction false} AscendingUnique(a: seq<Key>, b: seq<Key>)
    requires Ascending(a) && Ascending(b)
    requires forall k :: k in a <==> k in b
    ensures a == b
  {
    HeadMember(a);
    HeadMember(b);
    if a != [] && b != [] {
      assert a[0] in b && b[0] in a;
      var i :| 0 <= i < |a| && a[i] == b[0];
      var j :| 0 <= j < |b| && b[j] == a[0];
      LessTotal(a[0], b[0]);
      forall k
        ensures k in a[1..] <==> k in b[1..]
      {
        LessTotal(k, a[0]);
        TailMembers(a, k);
        TailMembers(b, k);
      }
      AscendingUnique(a[1..], b[1..]);
      assert a == [a[0]] + a[1..] && b == [b[0]] + b[1..];
    }
  }

  lemma HeadMember(a: seq<Key>)
    ensures a != [] ==> a[0] in a
  {
  }

  lemma TailMembers(a: seq<Key>, k: Key)
    requires a != [] && Ascending(a)
    ensures k in a[1..] <==> k in a && k != a[0]
  {
    LessTotal(a[0], a[0]);
    if k in a[1..] {
      var i :| 0 <= i < |a| - 1 && a[1..][i] == k;
      assert a[i + 1] == k && Less(a[0], a[i + 1]);
    }
    if k in a && k != a[0] {
      var i :| 0 <= i < |a| && a[i] == k;
      assert a[1..][i - 1] == k;
    }
  }

  /** The ascending order in which the B-tree hands out its keys. */
  method SortKeys(keys: set<Key>) returns (ks: seq<Key>)
    ensures Ascending(ks)
    ensures forall k :: k in ks <==> k in keys
  {
    ks := [];
    var todo := keys;
    while todo != {}
      invariant Ascending(ks) && todo <= keys
      invariant forall k :: k in ks <==> k in keys && k !in todo
      decreases |todo|
    {
      var k :| k in todo;
      ks := InsertKey(ks, k);
      todo := todo - {k};
    }
  }

  method InsertKey(ks: seq<Key>, k: Key) returns (r: seq<Key>)
    requires Ascending(ks) && k !in ks
    ensures Ascending(r)
    ensures forall x :: x in r <==> x in ks || x == k
  {
    var i := 0;
    while i < |ks| && Less(ks[i], k)
      invariant 0 <= i <= |ks|
      invariant forall j :: 0 <= j < i ==> Less(ks[j], k)
    {
      i := i + 1;
    }
    r := ks[..i] + [k] + ks[i..];
    forall j | i <= j < |ks|
      ensures Less(k, ks[j])
    {
      LessTotal(ks[i], k);
      if i < j { LessTransitive(k, ks[i], ks[j]); }
    }
  }
}
