/** Sequence helpers shared by the table models: filtering, counting and a
    stable insertion sort by an integer key (what ORDER BY and List.sort do). */
module Seqs {

  /** The elements of `s` that satisfy `p`, in their original order. */
  function Filter<T>(s: seq<T>, p: T -> bool): (r: seq<T>)
    ensures |r| <= |s|
    ensures forall i :: 0 <= i < |r| ==> p(r[i])
    ensures multiset(r) <= multiset(s)
  {
    if s == [] then []
    else
      var init, last := s[..|s| - 1], s[|s| - 1];
      assert s == init + [last];
      Filter(init, p) + if p(last) then [last] else []
  }

  /** Filter keeps every element that satisfies the predicate. */
  lemma {:induction false} FilterKeeps<T>(s: seq<T>, p: T -> bool, i: int)
    requires 0 <= i < |s| && p(s[i])
    ensures s[i] in Filter(s, p)
  {
    var init, last := s[..|s| - 1], s[|s| - 1];
    assert s == init + [last];
    if i < |s| - 1 {
      FilterKeeps(init, p, i);
    }
  }

  /** Every element of the filtered sequence comes from the original one. */
  lemma FilterFrom<T>(s: seq<T>, p: T -> bool, x: T)
    requires x in Filter(s, p)
    ensures x in s && p(x)
  {
    assert x in multiset(Filter(s, p));
  }

  /** Filter keeps every copy of a selected element and no copy of the others. */
  lemma {:induction false} FilterMultiset<T>(s: seq<T>, p: T -> bool, x: T)
    ensures multiset(Filter(s, p))[x] == if p(x) then multiset(s)[x] else 0
  {
    if s != [] {
      var init, last := s[..|s| - 1], s[|s| - 1];
      assert s == init + [last];
      FilterSnoc(init, last, p);
      FilterMultiset(init, p, x);
    }
  }

  /** Filtering two permutations of each other gives permutations of each other. */
  lemma FilterPermutation<T>(a: seq<T>, b: seq<T>, p: T -> bool)
    requires multiset(a) == multiset(b)
    ensures multiset(Filter(a, p)) == multiset(Filter(b, p))
  {
    forall x ensures multiset(Filter(a, p))[x] == multiset(Filter(b, p))[x] {
      FilterMultiset(a, p, x);
      FilterMultiset(b, p, x);
    }
  }

  /** A property of every element carries over to any sub-multiset. */
  lemma SubMultisetKeeps<T>(a: seq<T>, b: seq<T>, p: T -> bool)
    requires multiset(a) <= multiset(b)
    requires forall i :: 0 <= i < |b| ==> p(b[i])
    ensures forall i :: 0 <= i < |a| ==> p(a[i])
  {
    forall i | 0 <= i < |a| ensures p(a[i]) {
      assert a[i] in multiset(b);
    }
  }

  /** Nothing survives a filter that no element satisfies. */
  lemma {:induction false} FilterNone<T>(s: seq<T>, p: T -> bool)
    requires forall i :: 0 <= i < |s| ==> !p(s[i])
    ensures Filter(s, p) == []
  {
    if s != [] {
      FilterNone(s[..|s| - 1], p);
    }
  }

  /** A filter every element passes keeps the whole sequence. */
  lemma {:induction false} FilterAll<T>(s: seq<T>, p: T -> bool)
    requires forall i :: 0 <= i < |s| ==> p(s[i])
    ensures Filter(s, p) == s
  {
    if s != [] {
      var init, last := s[..|s| - 1], s[|s| - 1];
      assert s == init + [last];
      forall i | 0 <= i < |init| ensures p(init[i]) {
        assert init[i] == s[i];
      }
      FilterAll(init, p);
      FilterSnoc(init, last, p);
    }
  }

  lemma FilterSnoc<T>(s: seq<T>, x: T, p: T -> bool)
    ensures Filter(s + [x], p) == Filter(s, p) + if p(x) then [x] else []
  {
    assert (s + [x])[..|s + [x]| - 1] == s;
  }

  /** Number of elements of `s` that satisfy `p`, i.e. SQL COUNT(*) ... WHERE p. */
  function Count<T>(s: seq<T>, p: T -> bool): (n: nat)
    ensures n == |Filter(s, p)|
    ensures n <= |s|
  {
    if s == [] then 0
    else Count(s[..|s| - 1], p) + if p(s[|s| - 1]) then 1 else 0
  }

  lemma CountSnoc<T>(s: seq<T>, x: T, p: T -> bool)
    ensures Count(s + [x], p) == Count(s, p) + if p(x) then 1 else 0
  {
    assert (s + [x])[..|s + [x]| - 1] == s;
  }

  /** Count is positive exactly when some element satisfies the predicate. */
  lemma {:induction false} CountPositive<T>(s: seq<T>, p: T -> bool)
    ensures Count(s, p) > 0 <==> exists i :: 0 <= i < |s| && p(s[i])
  {
    if Count(s, p) > 0 {
      var f := Filter(s, p);
      FilterFrom(s, p, f[0]);
      var i :| 0 <= i < |s| && s[i] == f[0];
    } else if i :| 0 <= i < |s| && p(s[i]) {
      FilterKeeps(s, p, i);
    }
  }

  /** Two predicates that agree on every element select the same elements. */
  lemma {:induction false} FilterCongruent<T>(s: seq<T>, p: T -> bool, q: T -> bool)
    requires forall i :: 0 <= i < |s| ==> (p(s[i]) <==> q(s[i]))
    ensures Filter(s, p) == Filter(s, q)
  {
    if s != [] {
      FilterCongruent(s[..|s| - 1], p, q);
    }
  }

  /** Counts of two predicates no element satisfies together add up to at most
      the length, and to the length when every element satisfies one of them. */
  lemma {:induction false} CountDisjoint<T>(s: seq<T>, p: T -> bool, q: T -> bool)
    requires forall i :: 0 <= i < |s| ==> !(p(s[i]) && q(s[i]))
    ensures Count(s, p) + Count(s, q) <= |s|
    ensures (forall i :: 0 <= i < |s| ==> p(s[i]) || q(s[i])) ==> Count(s, p) + Count(s, q) == |s|
  {
    if s != [] {
      CountDisjoint(s[..|s| - 1], p, q);
    }
  }

  /** No element occurs twice. */
  predicate NoDuplicates<T(==)>(s: seq<T>) {
    forall i, j :: 0 <= i < j < |s| ==> s[i] != s[j]
  }

  /** The distinct elements of `s` in order of first occurrence. */
  function Distinct<T(==)>(s: seq<T>): (r: seq<T>)
    ensures NoDuplicates(r)
    ensures forall i :: 0 <= i < |s| ==> s[i] in r
    ensures forall i :: 0 <= i < |r| ==> r[i] in s
  {
    if s == [] then []
    else
      var d := Distinct(s[..|s| - 1]);
      assert forall i :: 0 <= i < |s| - 1 ==> s[i] == s[..|s| - 1][i];
      if s[|s| - 1] in d then d else d + [s[|s| - 1]]
  }

  /** In a sequence without duplicates every element occurs once. */
  lemma {:induction false} NoDuplicatesOnce<T>(s: seq<T>, x: T)
    requires NoDuplicates(s)
    ensures multiset(s)[x] <= 1
  {
    if s != [] {
      var init, last := s[..|s| - 1], s[|s| - 1];
      assert s == init + [last];
      NoDuplicatesOnce(init, x);
      if last == x {
        assert x !in init;
      }
    }
  }

  /** A permutation of a sequence without duplicates has none either. */
  lemma PermutationNoDuplicates<T>(a: seq<T>, b: seq<T>)
    requires multiset(a) == multiset(b) && NoDuplicates(b)
    ensures NoDuplicates(a)
  {
    forall i, j | 0 <= i < j < |a| ensures a[i] != a[j] {
      if a[i] == a[j] {
        assert a == a[..j] + a[j..];
        assert a[i] in a[..j] && a[j] in a[j..];
        assert multiset(a)[a[i]] == multiset(a[..j])[a[i]] + multiset(a[j..])[a[i]];
        NoDuplicatesOnce(b, a[i]);
        assert false;
      }
    }
  }

  /** No two elements share a key, as with an identity column. */
  predicate UniqueKeys<T>(s: seq<T>, key: T -> int) {
    forall i, j :: 0 <= i < j < |s| ==> key(s[i]) != key(s[j])
  }

  /** Every key is below `bound`, the next value of the identity counter. */
  predicate KeysBelow<T>(s: seq<T>, key: T -> int, bound: int) {
    forall i :: 0 <= i < |s| ==> key(s[i]) < bound
  }

  /** Some element has key `k`. */
  predicate HasKey<T>(s: seq<T>, key: T -> int, k: int) {
    exists i :: 0 <= i < |s| && key(s[i]) == k
  }

  /** Appending an element with a fresh key keeps keys unique and below the next counter value. */
  lemma AppendFresh<T>(s: seq<T>, x: T, key: T -> int, bound: int)
    requires UniqueKeys(s, key) && KeysBelow(s, key, bound) && key(x) == bound
    ensures UniqueKeys(s + [x], key) && KeysBelow(s + [x], key, bound + 1)
  {
  }

  /** Deleting elements keeps keys below the counter. */
  lemma FilterBelow<T>(s: seq<T>, p: T -> bool, key: T -> int, bound: int)
    requires KeysBelow(s, key, bound)
    ensures KeysBelow(Filter(s, p), key, bound)
  {
    SubMultisetKeeps(Filter(s, p), s, (x: T) => key(x) < bound);
  }

  /** Deleting elements keeps keys unique. */
  lemma {:induction false} FilterUnique<T>(s: seq<T>, p: T -> bool, key: T -> int)
    requires UniqueKeys(s, key)
    ensures UniqueKeys(Filter(s, p), key)
  {
    if s != [] {
      var init, last := s[..|s| - 1], s[|s| - 1];
      assert s == init + [last];
      FilterSnoc(init, last, p);
      FilterUnique(init, p, key);
      var f := Filter(init, p);
      assert forall i :: 0 <= i < |init| ==> key(init[i]) != key(last);
      SubMultisetKeeps(f, init, (x: T) => key(x) != key(last));
      UniqueSnoc(f, last, key);
    }
  }

  lemma UniqueSnoc<T>(s: seq<T>, x: T, key: T -> int)
    requires UniqueKeys(s, key)
    requires forall i :: 0 <= i < |s| ==> key(s[i]) != key(x)
    ensures UniqueKeys(s + [x], key)
  {
  }

  /** Appending an element adds its key to the keys present. */
  lemma HasKeySnoc<T>(s: seq<T>, x: T, key: T -> int, k: int)
    ensures HasKey(s + [x], key, k) <==> HasKey(s, key, k) || key(x) == k
  {
    if HasKey(s, key, k) {
      var i :| 0 <= i < |s| && key(s[i]) == k;
      assert (s + [x])[i] == s[i];
    }
    if key(x) == k {
      assert (s + [x])[|s|] == x;
    }
  }

  /** Filtering by `p` before `q` loses exactly the elements that pass `q`
      and fail `p`. */
  lemma {:induction false} FilterTwiceCount<T>(s: seq<T>, p: T -> bool, q: T -> bool, lost: T -> bool)
    requires forall x :: lost(x) <==> q(x) && !p(x)
    ensures |Filter(Filter(s, p), q)| + Count(s, lost) == |Filter(s, q)|
  {
    if s != [] {
      var init, last := s[..|s| - 1], s[|s| - 1];
      assert s == init + [last];
      FilterTwiceCount(init, p, q, lost);
      FilterSnoc(init, last, p);
      FilterSnoc(init, last, q);
      CountSnoc(init, last, lost);
      var f := Filter(init, p);
      if p(last) {
        FilterSnoc(f, last, q);
      } else {
        assert f + [] == f;
      }
    }
  }

  /** With unique keys, every element occurs exactly once. */
  lemma UniqueKeysOnce<T>(s: seq<T>, key: T -> int, i: int)
    requires UniqueKeys(s, key) && 0 <= i < |s|
    ensures multiset(s)[s[i]] == 1
  {
    assert NoDuplicates(s) by {
      forall a, b | 0 <= a < b < |s| ensures s[a] != s[b] {
        assert key(s[a]) != key(s[b]);
      }
    }
    NoDuplicatesOnce(s, s[i]);
  }

  /** With unique keys, at most one element satisfies a predicate that fixes the key. */
  lemma {:induction false} CountKeyAtMostOne<T>(s: seq<T>, key: T -> int, k: int, p: T -> bool)
    requires UniqueKeys(s, key)
    requires forall x :: p(x) ==> key(x) == k
    ensures Count(s, p) <= 1
  {
    if s != [] {
      var init, last := s[..|s| - 1], s[|s| - 1];
      assert s == init + [last];
      UniqueLast(init, last, key);
      CountSnoc(init, last, p);
      CountKeyAtMostOne(init, key, k, p);
      if p(last) {
        forall i | 0 <= i < |init| ensures !p(init[i]) {
          assert key(init[i]) != key(last);
        }
        CountPositive(init, p);
      }
    }
  }

  /** With unique keys, the front keeps unique keys and the last element's key
      occurs nowhere in it. */
  lemma UniqueLast<T>(s: seq<T>, x: T, key: T -> int)
    requires UniqueKeys(s + [x], key)
    ensures UniqueKeys(s, key) && !HasKey(s, key, key(x))
  {
    forall i, j | 0 <= i < j < |s| ensures key(s[i]) != key(s[j]) {
      assert (s + [x])[i] == s[i] && (s + [x])[j] == s[j];
    }
    forall i | 0 <= i < |s| ensures key(s[i]) != key(x) {
      assert (s + [x])[i] == s[i] && (s + [x])[|s|] == x;
    }
  }

  /** With unique keys, removing one key removes exactly one element when the key is present. */
  lemma {:induction false} FilterOutKey<T>(s: seq<T>, key: T -> int, k: int, p: T -> bool)
    requires UniqueKeys(s, key)
    requires forall x :: p(x) <==> key(x) != k
    ensures |Filter(s, p)| == if HasKey(s, key, k) then |s| - 1 else |s|
  {
    if s != [] {
      var init, last := s[..|s| - 1], s[|s| - 1];
      assert s == init + [last];
      FilterSnoc(init, last, p);
      HasKeySnoc(init, last, key, k);
      UniqueLast(init, last, key);
      FilterOutKey(init, key, k, p);
    }
  }

  predicate SortedBy<T>(s: seq<T>, key: T -> int) {
    forall i, j :: 0 <= i < j < |s| ==> key(s[i]) <= key(s[j])
  }

  /** Filtering keeps a sorted sequence sorted. */
  lemma {:induction false} FilterSorted<T>(s: seq<T>, p: T -> bool, key: T -> int)
    requires SortedBy(s, key)
    ensures SortedBy(Filter(s, p), key)
  {
    if s != [] {
      var init, last := s[..|s| - 1], s[|s| - 1];
      assert s == init + [last];
      SortedLast(init, last, key);
      FilterSnoc(init, last, p);
      FilterSorted(init, p, key);
      var f := Filter(init, p);
      SubMultisetKeeps(f, init, (x: T) => key(x) <= key(last));
      SortedSnoc(f, last, key);
    }
  }

  /** The front of a sorted sequence is sorted and no key in it exceeds the last. */
  lemma SortedLast<T>(s: seq<T>, x: T, key: T -> int)
    requires SortedBy(s + [x], key)
    ensures SortedBy(s, key) && forall i :: 0 <= i < |s| ==> key(s[i]) <= key(x)
  {
    forall i, j | 0 <= i < j < |s| ensures key(s[i]) <= key(s[j]) {
      assert (s + [x])[i] == s[i] && (s + [x])[j] == s[j];
    }
    forall i | 0 <= i < |s| ensures key(s[i]) <= key(x) {
      assert (s + [x])[i] == s[i] && (s + [x])[|s|] == x;
    }
  }

  /** Appending an element no smaller than every key keeps a sequence sorted. */
  lemma SortedSnoc<T>(s: seq<T>, x: T, key: T -> int)
    requires SortedBy(s, key) && forall i :: 0 <= i < |s| ==> key(s[i]) <= key(x)
    ensures SortedBy(s + [x], key)
  {
  }

  /** Inserts `x` after every element whose key is not larger (keeps ties in arrival order). */
  function InsertBy<T>(x: T, s: seq<T>, key: T -> int): (r: seq<T>)
    requires SortedBy(s, key)
    ensures |r| == |s| + 1
    ensures SortedBy(r, key)
    ensures multiset(r) == multiset(s) + multiset{x}
  {
    if s == [] then [x]
    else if key(x) < key(s[0]) then [x] + s
    else
      var rest := InsertBy(x, s[1..], key);
      assert s == [s[0]] + s[1..];
      HeadBound(x, s, rest, key);
      [s[0]] + rest
  }

  lemma HeadBound<T>(x: T, s: seq<T>, rest: seq<T>, key: T -> int)
    requires |s| > 0 && SortedBy(s, key) && key(s[0]) <= key(x)
    requires multiset(rest) == multiset(s[1..]) + multiset{x}
    ensures forall k :: 0 <= k < |rest| ==> key(s[0]) <= key(rest[k])
  {
    forall k | 0 <= k < |rest| ensures key(s[0]) <= key(rest[k]) {
      assert rest[k] in multiset(rest);
      if rest[k] != x {
        assert rest[k] in multiset(s[1..]);
        var m :| 0 <= m < |s[1..]| && s[1..][m] == rest[k];
        assert s[1..][m] == s[m + 1];
      }
    }
  }

  /** Reads a query's result set row by row into a list, as the services'
      `while (rs.next()) list.add(...)` loops do. */
  method ReadAll<T>(resultSet: seq<T>) returns (list: seq<T>)
    ensures list == resultSet
  {
    list := [];
    var i := 0;
    while i < |resultSet|
      invariant 0 <= i <= |resultSet|
      invariant list == resultSet[..i]
    {
      list := list + [resultSet[i]];
      i := i + 1;
    }
  }

  /** Stable sort of `s` by ascending `key`. */
  function SortBy<T>(s: seq<T>, key: T -> int): (r: seq<T>)
    ensures SortedBy(r, key)
    ensures multiset(r) == multiset(s)
    ensures |r| == |s|
  {
    if s == [] then []
    else
      assert s == s[..|s| - 1] + [s[|s| - 1]];
      InsertBy(s[|s| - 1], SortBy(s[..|s| - 1], key), key)
  }

}
