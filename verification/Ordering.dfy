/**
 * Sorting by a lexicographic integer key, the contract of the library sorts the code calls.
 * When keys are distinct the result is determined by the set of elements alone, so any
 * conforming sort (stable or not) produces the same sequence.
 */
module Ordering {

  datatype Key = Key(first: int, second: int, third: int)

  predicate Before(a: Key, b: Key) {
    a.first < b.first || (a.first == b.first && (a.second < b.second || (a.second == b.second && a.third < b.third)))
  }

  ghost predicate Ascending<T>(s: seq<T>, key: T -> Key) {
    forall i, j | 0 <= i < j < |s| :: Before(key(s[i]), key(s[j]))
  }

  ghost predicate DistinctKeys<T>(s: seq<T>, key: T -> Key) {
    forall i, j | 0 <= i < j < |s| :: key(s[i]) != key(s[j])
  }

  /** `r` is the sorted rearrangement of `s`. */
  ghost predicate IsSortOf<T>(r: seq<T>, s: seq<T>, key: T -> Key) {
    Ascending(r, key) && multiset(r) == multiset(s)
  }

  lemma InBoth<T>(r: seq<T>, s: seq<T>, x: T)
    requires multiset(r) == multiset(s) && x in r
    ensures x in s
  {
    assert x in multiset(r);
  }

  lemma SameHead<T>(a: seq<T>, b: seq<T>, key: T -> Key)
    requires a != [] && b != [] && multiset(a) == multiset(b) && Ascending(a, key) && Ascending(b, key)
    ensures a[0] == b[0]
  {
    InBoth(a, b, a[0]);
    InBoth(b, a, b[0]);
    var i :| 0 <= i < |b| && b[i] == a[0];
    var j :| 0 <= j < |a| && a[j] == b[0];
  }

  lemma TailMultiset<T>(a: seq<T>)
    requires a != []
    ensures multiset(a[1..]) == multiset(a) - multiset{a[0]}
  {
    assert a == [a[0]] + a[1..];
  }

  lemma TailAscends<T>(a: seq<T>, key: T -> Key)
    requires a != [] && Ascending(a, key)
    ensures Ascending(a[1..], key)
  {}

  /** Two sorted rearrangements of the same elements are the same sequence. */
  lemma {:induction false} SortUnique<T>(a: seq<T>, b: seq<T>, key: T -> Key)
    requires multiset(a) == multiset(b) && Ascending(a, key) && Ascending(b, key)
    ensures a == b
    decreases |a|
  {
    assert |a| == |multiset(a)| && |b| == |multiset(b)|;
    if a != [] {
      assert a[0] in multiset(b);
      SameHead(a, b, key);
      TailMultiset(a);
      TailMultiset(b);
      TailAscends(a, key);
      TailAscends(b, key);
      SortUnique(a[1..], b[1..], key);
      assert a == [a[0]] + a[1..] && b == [b[0]] + b[1..];
    }
  }

  lemma InsertAscends<T>(r: seq<T>, k: nat, x: T, key: T -> Key)
    requires k <= |r| && Ascending(r, key)
    requires forall i | 0 <= i < k :: Before(key(r[i]), key(x))
    requires forall i | k <= i < |r| :: Before(key(x), key(r[i]))
    ensures Ascending(r[..k] + [x] + r[k..], key)
  {
    var t := r[..k] + [x] + r[k..];
    forall i, j | 0 <= i < j < |t| ensures Before(key(t[i]), key(t[j])) {
      assert i != k ==> t[i] == r[if i < k then i else i - 1];
      assert j != k ==> t[j] == r[if j < k then j else j - 1];
    }
  }

  lemma InsertMultiset<T>(r: seq<T>, k: nat, x: T)
    requires k <= |r|
    ensures multiset(r[..k] + [x] + r[k..]) == multiset(r) + multiset{x}
  {
    assert r == r[..k] + r[k..];
  }

  /** Insertion into a sorted sequence: the executable sort used by the models. */
  method Sort<T>(s: seq<T>, key: T -> Key) returns (r: seq<T>)
    requires DistinctKeys(s, key)
    ensures IsSortOf(r, s, key)
  {
    r := [];
    for n := 0 to |s|
      invariant multiset(r) == multiset(s[..n]) && Ascending(r, key)
    {
      assert s[..n + 1] == s[..n] + [s[n]];
      forall i | 0 <= i < |r| ensures key(r[i]) != key(s[n]) {
        InBoth(r, s[..n], r[i]);
      }
      var k := Position(r, key, key(s[n]));
      InsertAscends(r, k, s[n], key);
      InsertMultiset(r, k, s[n]);
      r := r[..k] + [s[n]] + r[k..];
    }
    assert s[..|s|] == s;
  }

  method Position<T>(r: seq<T>, key: T -> Key, x: Key) returns (k: nat)
    requires Ascending(r, key) && forall i | 0 <= i < |r| :: key(r[i]) != x
    ensures k <= |r|
    ensures forall i | 0 <= i < k :: Before(key(r[i]), x)
    ensures forall i | k <= i < |r| :: Before(x, key(r[i]))
  {
    k := 0;
    while k < |r| && Before(key(r[k]), x)
      invariant 0 <= k <= |r|
      invariant forall i | 0 <= i < k :: Before(key(r[i]), x)
    {
      k := k + 1;
    }
    forall i | k <= i < |r| ensures Before(x, key(r[i])) {
      assert k < i ==> Before(key(r[k]), key(r[i]));
    }
  }
}
