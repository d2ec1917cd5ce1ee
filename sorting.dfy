/** The stable sort that the views' `sorted(comparing(key).reversed())`
    stages perform, stated once for any key. */
module Sorting {

  /** Non-increasing by `key`: what a comparator reversed with `.reversed()`
      produces. */
  ghost predicate NonIncreasing<T>(s: seq<T>, key: T -> int) {
    forall i, j :: 0 <= i < j < |s| ==> key(s[i]) >= key(s[j])
  }

  /** Puts `x` in front of the first element whose key is not larger, so
      equal keys keep their encounter order. */
  function Insert<T(==)>(x: T, s: seq<T>, key: T -> int): (r: seq<T>)
    requires NonIncreasing(s, key)
    ensures NonIncreasing(r, key)
    ensures |r| == |s| + 1
    ensures multiset(r) == multiset(s) + multiset{x}
  {
    if s == [] || key(x) >= key(s[0]) then
      assert forall i :: 0 <= i < |s| ==> key(s[i]) <= key(x) by {
        forall i | 0 <= i < |s| ensures key(s[i]) <= key(x) {
          assert i == 0 || key(s[0]) >= key(s[i]);
        }
      }
      ConsNonIncreasing(x, s, key);
      [x] + s
    else
      assert s == [s[0]] + s[1..];
      var rest := Insert(x, s[1..], key);
      InsertedBelowHead(x, s, key, rest);
      ConsNonIncreasing(s[0], rest, key);
      assert multiset([s[0]] + rest) == multiset{s[0]} + multiset(rest);
      assert multiset(s) == multiset{s[0]} + multiset(s[1..]);
      [s[0]] + rest
  }

  /** Inserting an element with a smaller key than the head into the tail
      gives a sequence whose keys stay below the head's. */
  lemma InsertedBelowHead<T>(x: T, s: seq<T>, key: T -> int, rest: seq<T>)
    requires NonIncreasing(s, key) && s != [] && key(x) < key(s[0])
    requires multiset(rest) == multiset(s[1..]) + multiset{x}
    ensures forall i :: 0 <= i < |rest| ==> key(rest[i]) <= key(s[0])
  {
    forall i | 0 <= i < |rest| ensures key(rest[i]) <= key(s[0]) {
      assert rest[i] in multiset(rest);
      if rest[i] != x {
        assert rest[i] in multiset(s[1..]);
        var p :| 0 <= p < |s[1..]| && s[1..][p] == rest[i];
        assert s[p + 1] == rest[i];
      }
    }
  }

  /** Prepending an element with a key no smaller than every key of a
      non-increasing sequence keeps it non-increasing. */
  lemma ConsNonIncreasing<T>(h: T, t: seq<T>, key: T -> int)
    requires NonIncreasing(t, key)
    requires forall i :: 0 <= i < |t| ==> key(t[i]) <= key(h)
    ensures NonIncreasing([h] + t, key)
  {
    var r := [h] + t;
    forall i, j | 0 <= i < j < |r| ensures key(r[i]) >= key(r[j]) {
      assert r[j] == t[j - 1];
      if i > 0 {
        assert r[i] == t[i - 1];
      }
    }
  }

  /** Sorts non-increasingly by `key`, keeping the elements. */
  function SortDesc<T(==)>(s: seq<T>, key: T -> int): (r: seq<T>)
    ensures |r| == |s|
    ensures multiset(r) == multiset(s)
    ensures NonIncreasing(r, key)
  {
    if s == [] then []
    else
      assert s == [s[0]] + s[1..];
      Insert(s[0], SortDesc(s[1..], key), key)
  }

  /** In a sequence without repeated elements each element occurs once. */
  lemma OccursOnce<T>(a: seq<T>, p: int)
    requires forall i, j :: 0 <= i < j < |a| ==> a[i] != a[j]
    requires 0 <= p < |a|
    ensures multiset(a)[a[p]] == 1
  {
    var x := a[p];
    assert a == a[..p] + [x] + a[p + 1..];
    assert x !in a[..p];
    assert x !in a[p + 1..];
    assert multiset(a) == multiset(a[..p]) + multiset{x} + multiset(a[p + 1..]);
  }

  /** A permutation of a sequence without repeated elements has none either. */
  lemma DistinctUnderPermutation<T>(a: seq<T>, b: seq<T>)
    requires multiset(a) == multiset(b)
    requires forall i, j :: 0 <= i < j < |a| ==> a[i] != a[j]
    ensures forall i, j :: 0 <= i < j < |b| ==> b[i] != b[j]
  {
    forall i, j | 0 <= i < j < |b| ensures b[i] != b[j] {
      if b[i] == b[j] {
        var x := b[i];
        assert b == b[..j] + b[j..];
        assert x in b[..j] && x in b[j..];
        assert multiset(b)[x] >= 2 by {
          assert multiset(b) == multiset(b[..j]) + multiset(b[j..]);
        }
        assert x in multiset(a);
        var p :| 0 <= p < |a| && a[p] == x;
        OccursOnce(a, p);
        assert false;
      }
    }
  }

  /** In a non-increasing sequence an element outside the first `n` has a key
      no larger than any of them: taking a prefix keeps the top `n`. */
  lemma PrefixDominates<T>(sorted: seq<T>, key: T -> int, n: int, x: T)
    requires NonIncreasing(sorted, key)
    requires 0 <= n <= |sorted| && x in sorted && x !in sorted[..n]
    ensures forall i :: 0 <= i < n ==> key(x) <= key(sorted[i])
  {
    var p :| 0 <= p < |sorted| && sorted[p] == x;
    assert p >= n;
  }
}
