/** The LINQ operators the reports use: `Where`, `Sum`, `Count`,
    `OrderByDescending(..).ThenByDescending(..)`, `Take` and the keys of a
    `GroupBy`, over Dafny sequences. */
module Seqs {
  import opened Common

  // ---------------------------------------------------------------------
  // FirstOrDefault

  /** `s.FirstOrDefault(p)`, as the position of the first match. */
  function FirstIndex<T>(s: seq<T>, p: T -> bool): (r: Option<nat>)
    ensures r.Some? ==> r.value < |s| && p(s[r.value])
    ensures r.Some? ==> forall j :: 0 <= j < r.value ==> !p(s[j])
    ensures r.None? <==> forall j :: 0 <= j < |s| ==> !p(s[j])
  {
    if s == [] then None
    else if p(s[0]) then Some(0)
    else match FirstIndex(s[1..], p)
      case None => None
      case Some(k) => Some(k + 1)
  }

  // ---------------------------------------------------------------------
  // Where

  /** `s.Where(p)`: the elements that satisfy `p`, in their order. */
  function Filter<T(!new)>(s: seq<T>, p: T -> bool): (r: seq<T>)
    ensures |r| <= |s|
    ensures forall x :: x in r <==> x in s && p(x)
    ensures forall i :: 0 <= i < |r| ==> p(r[i])
  {
    if s == [] then []
    else (if p(s[0]) then [s[0]] else []) + Filter(s[1..], p)
  }

  /** `Where` distributes over concatenation. */
  lemma {:induction false} FilterConcat<T(!new)>(a: seq<T>, b: seq<T>, p: T -> bool)
    ensures Filter(a + b, p) == Filter(a, p) + Filter(b, p)
  {
    if a != [] {
      FilterConcat(a[1..], b, p);
      FilterConcatStep(a, b, p);
    } else {
      assert a + b == b;
    }
  }

  /** The step of `FilterConcat`: one more element in front of `a`. */
  lemma FilterConcatStep<T(!new)>(a: seq<T>, b: seq<T>, p: T -> bool)
    requires a != []
    requires Filter(a[1..] + b, p) == Filter(a[1..], p) + Filter(b, p)
    ensures Filter(a + b, p) == Filter(a, p) + Filter(b, p)
  {
    var h := if p(a[0]) then [a[0]] else [];
    var x, y := Filter(a[1..], p), Filter(b, p);
    ConcatTail(a, b);
    FilterCons(a + b, p);
    FilterCons(a, p);
    ConcatAssoc(h, x, y);
  }

  /** One step of `Filter`'s recursion. */
  lemma FilterCons<T(!new)>(s: seq<T>, p: T -> bool)
    requires s != []
    ensures Filter(s, p) == (if p(s[0]) then [s[0]] else []) + Filter(s[1..], p)
  {
  }

  /** A non-empty left operand supplies the head of a concatenation. */
  lemma ConcatTail<T>(a: seq<T>, b: seq<T>)
    requires a != []
    ensures (a + b)[0] == a[0] && (a + b)[1..] == a[1..] + b
  {
  }

  lemma ConcatAssoc<T>(a: seq<T>, b: seq<T>, c: seq<T>)
    ensures a + (b + c) == (a + b) + c
  {
  }

  /** `Where` keeps multiplicities: as a multiset the result is the part of
      the input that satisfies `p`. */
  lemma {:induction false} FilterMultiset<T(!new)>(s: seq<T>, p: T -> bool, x: T)
    ensures multiset(Filter(s, p))[x] == if p(x) then multiset(s)[x] else 0
  {
    if s != [] {
      FilterMultiset(s[1..], p, x);
      FilterMultisetStep(s, p, x);
    }
  }

  /** The step of `FilterMultiset`: one more element in front. */
  lemma FilterMultisetStep<T(!new)>(s: seq<T>, p: T -> bool, x: T)
    requires s != []
    requires multiset(Filter(s[1..], p))[x] == if p(x) then multiset(s[1..])[x] else 0
    ensures multiset(Filter(s, p))[x] == if p(x) then multiset(s)[x] else 0
  {
    var t := Filter(s[1..], p);
    assert multiset(s)[x] == multiset(s[1..])[x] + (if s[0] == x then 1 else 0) by {
      assert s == [s[0]] + s[1..];
    }
    if p(s[0]) {
      assert Filter(s, p) == [s[0]] + t;
      assert multiset(Filter(s, p))[x] == multiset(t)[x] + (if s[0] == x then 1 else 0);
    } else {
      assert Filter(s, p) == t;
    }
  }

  /** No two elements of `s` share a key. */
  ghost predicate UniqueKeys<T, K>(s: seq<T>, key: T -> K)
  {
    forall i, j :: 0 <= i < j < |s| ==> key(s[i]) != key(s[j])
  }

  /** `Where` keeps keys distinct: the kept elements are among the input's,
      in the input's order. */
  lemma {:induction false} FilterUniqueKeys<T(!new), K>(s: seq<T>, p: T -> bool, key: T -> K)
    requires UniqueKeys(s, key)
    ensures UniqueKeys(Filter(s, p), key)
  {
    if s != [] {
      assert UniqueKeys(s[1..], key);
      FilterUniqueKeys(s[1..], p, key);
      FilterUniqueKeysStep(s, p, key);
    }
  }

  /** The step of `FilterUniqueKeys`: one more element in front. */
  lemma FilterUniqueKeysStep<T(!new), K>(s: seq<T>, p: T -> bool, key: T -> K)
    requires s != [] && UniqueKeys(s, key)
    requires UniqueKeys(Filter(s[1..], p), key)
    ensures UniqueKeys(Filter(s, p), key)
  {
    var t := Filter(s[1..], p);
    if p(s[0]) {
      FilterKeysAfterHead(s, p, key);
      ConsUniqueKeys(s[0], t, key);
      assert Filter(s, p) == [s[0]] + t;
    } else {
      assert Filter(s, p) == t;
    }
  }

  /** What `Where` keeps from the tail has keys other than the head's. */
  lemma FilterKeysAfterHead<T(!new), K>(s: seq<T>, p: T -> bool, key: T -> K)
    requires s != [] && UniqueKeys(s, key)
    ensures forall j :: 0 <= j < |Filter(s[1..], p)| ==> key(Filter(s[1..], p)[j]) != key(s[0])
  {
    var t := Filter(s[1..], p);
    forall j | 0 <= j < |t| ensures key(t[j]) != key(s[0]) {
      assert t[j] in s[1..];
      var m :| 0 <= m < |s| - 1 && s[1..][m] == t[j];
      assert s[m + 1] == t[j];
    }
  }

  /** An element whose key is new keeps keys distinct in front of a sequence. */
  lemma ConsUniqueKeys<T, K>(x: T, t: seq<T>, key: T -> K)
    requires UniqueKeys(t, key)
    requires forall j :: 0 <= j < |t| ==> key(t[j]) != key(x)
    ensures UniqueKeys([x] + t, key)
  {
    var r := [x] + t;
    forall i, j | 0 <= i < j < |r| ensures key(r[i]) != key(r[j]) {
      assert r[j] == t[j - 1];
      if i > 0 {
        assert r[i] == t[i - 1];
      }
    }
  }

  // ---------------------------------------------------------------------
  // Sum

  /** `s.Sum(f)`. */
  function SumOf<T>(s: seq<T>, f: T -> int): int
  {
    if s == [] then 0 else f(s[0]) + SumOf(s[1..], f)
  }

  /** `Sum` distributes over concatenation. */
  lemma {:induction false} SumOfConcat<T>(a: seq<T>, b: seq<T>, f: T -> int)
    ensures SumOf(a + b, f) == SumOf(a, f) + SumOf(b, f)
  {
    if a != [] {
      assert (a + b)[1..] == a[1..] + b;
      SumOfConcat(a[1..], b, f);
    } else {
      assert a + b == b;
    }
  }

  /** Replacing one element changes the sum by the difference of the two. */
  lemma SumOfUpdate<T>(s: seq<T>, k: nat, x: T, f: T -> int)
    requires k < |s|
    ensures SumOf(s[k := x], f) == SumOf(s, f) - f(s[k]) + f(x)
  {
    assert s == s[..k] + [s[k]] + s[k + 1..];
    assert s[k := x] == s[..k] + [x] + s[k + 1..];
    SumOfConcat(s[..k] + [s[k]], s[k + 1..], f);
    SumOfConcat(s[..k], [s[k]], f);
    SumOfConcat(s[..k] + [x], s[k + 1..], f);
    SumOfConcat(s[..k], [x], f);
  }

  /** Dropping one element lowers the sum by that element. */
  lemma SumOfRemove<T>(s: seq<T>, k: nat, f: T -> int)
    requires k < |s|
    ensures SumOf(s[..k] + s[k + 1..], f) == SumOf(s, f) - f(s[k])
  {
    var a, b := s[..k], s[k + 1..];
    assert s == a + ([s[k]] + b);
    SumOfConcat(a, [s[k]] + b, f);
    assert ([s[k]] + b)[1..] == b;
    assert SumOf([s[k]] + b, f) == f(s[k]) + SumOf(b, f);
    SumOfConcat(a, b, f);
  }

  /** `Sum` does not depend on the order of the elements. */
  lemma {:induction false} SumOfPermutation<T>(a: seq<T>, b: seq<T>, f: T -> int)
    requires multiset(a) == multiset(b)
    ensures SumOf(a, f) == SumOf(b, f)
    decreases |a|
  {
    if a == [] {
      assert |b| == |multiset(b)| == 0;
    } else {
      assert a[0] in multiset(b);
      var k :| 0 <= k < |b| && b[k] == a[0];
      PermutationTail(a, b, k);
      SumOfPermutation(a[1..], b[..k] + b[k + 1..], f);
      SumOfRemove(b, k, f);
    }
  }

  /** The step of `SumOfPermutation`: without the head of `a` and one
      occurrence of it in `b`, the rests are permutations of each other. */
  lemma PermutationTail<T>(a: seq<T>, b: seq<T>, k: nat)
    requires multiset(a) == multiset(b) && a != []
    requires k < |b| && b[k] == a[0]
    ensures multiset(a[1..]) == multiset(b[..k] + b[k + 1..])
  {
    RemoveAtMultiset(a, 0);
    RemoveAtMultiset(b, k);
    assert a[..0] + a[1..] == a[1..];
  }

  /** Removing position `k` removes one occurrence of its element. */
  lemma RemoveAtMultiset<T>(s: seq<T>, k: nat)
    requires k < |s|
    ensures multiset(s[..k] + s[k + 1..]) == multiset(s) - multiset{s[k]}
  {
    assert s == s[..k] + [s[k]] + s[k + 1..];
  }

  /** The `j`-th element after removing position `k`. */
  lemma RemoveAtIndex<T>(s: seq<T>, k: nat, j: nat)
    requires k < |s| && j < |s| - 1
    ensures (s[..k] + s[k + 1..])[j] == s[if j < k then j else j + 1]
  {
  }

  /** Removing position `k` keeps every other element and takes exactly one
      copy of `s[k]` out of the multiset. */
  lemma RemoveAtKeeps<T>(s: seq<T>, k: nat)
    requires k < |s|
    ensures forall j :: 0 <= j < |s| && j != k ==> s[j] in s[..k] + s[k + 1..]
    ensures multiset(s[..k] + s[k + 1..]) + multiset{s[k]} == multiset(s)
  {
    var r := s[..k] + s[k + 1..];
    forall j | 0 <= j < |s| && j != k ensures s[j] in r {
      RemoveAtIndex(s, k, if j < k then j else j - 1);
    }
    assert s == s[..k] + [s[k]] + s[k + 1..];
    assert multiset(s) == multiset(s[..k]) + multiset{s[k]} + multiset(s[k + 1..]);
  }

  // ---------------------------------------------------------------------
  // OrderByDescending / ThenByDescending

  /** A two-level sort key: compared on `major` first, then on `minor`. */
  datatype Rank = Rank(major: int, minor: int)

  predicate RankGe(a: Rank, b: Rank)
  {
    a.major > b.major || (a.major == b.major && a.minor >= b.minor)
  }

  predicate SortedDesc<T>(s: seq<T>, key: T -> Rank)
  {
    forall i, j :: 0 <= i < j < |s| ==> RankGe(key(s[i]), key(s[j]))
  }

  /** Inserts `x` before the first element it does not rank below, so that
      it stays ahead of elements of equal rank that came after it. */
  function InsertDesc<T(!new)>(x: T, s: seq<T>, key: T -> Rank): (r: seq<T>)
    ensures |r| == |s| + 1
    ensures multiset(r) == multiset(s) + multiset{x}
  {
    if s == [] then [x]
    else if RankGe(key(x), key(s[0])) then [x] + s
    else
      assert s == [s[0]] + s[1..];
      [s[0]] + InsertDesc(x, s[1..], key)
  }

  /** Insertion keeps a descending sequence descending. */
  lemma {:induction false} InsertDescSorted<T(!new)>(x: T, s: seq<T>, key: T -> Rank)
    requires SortedDesc(s, key)
    ensures SortedDesc(InsertDesc(x, s, key), key)
  {
    if s != [] && !RankGe(key(x), key(s[0])) {
      var t := InsertDesc(x, s[1..], key);
      assert SortedDesc(s[1..], key) by {
        forall i, j | 0 <= i < j < |s[1..]| ensures RankGe(key(s[1..][i]), key(s[1..][j])) {
          assert s[1..][i] == s[i + 1] && s[1..][j] == s[j + 1];
        }
      }
      InsertDescSorted(x, s[1..], key);
      forall y | y in t ensures RankGe(key(s[0]), key(y)) {
        assert y in multiset(t);
        if y != x {
          HeadRanksFirst(s, key, y);
        }
      }
      ConsSorted(s[0], t, key);
    }
  }

  /** The head of a descending sequence ranks at least as high as any later element. */
  lemma HeadRanksFirst<T>(s: seq<T>, key: T -> Rank, y: T)
    requires SortedDesc(s, key) && s != []
    requires y in multiset(s[1..])
    ensures RankGe(key(s[0]), key(y))
  {
    var j :| 0 <= j < |s[1..]| && s[1..][j] == y;
    assert s[j + 1] == y;
  }

  /** An element ranking at least as high as all of a descending sequence
      can be put in front of it. */
  lemma ConsSorted<T>(a: T, t: seq<T>, key: T -> Rank)
    requires SortedDesc(t, key)
    requires forall y :: y in t ==> RankGe(key(a), key(y))
    ensures SortedDesc([a] + t, key)
  {
    var r := [a] + t;
    forall i, j | 0 <= i < j < |r| ensures RankGe(key(r[i]), key(r[j])) {
      if i == 0 { assert r[j] == t[j - 1] && t[j - 1] in t; }
      else { assert r[i] == t[i - 1] && r[j] == t[j - 1]; }
    }
  }

  /** A stable insertion sort in descending order of `key`: LINQ's
      `OrderByDescending(major).ThenByDescending(minor)`. */
  function SortDesc<T(!new)>(s: seq<T>, key: T -> Rank): (r: seq<T>)
    ensures |r| == |s|
    ensures multiset(r) == multiset(s)
    ensures SortedDesc(r, key)
  {
    if s == [] then []
    else
      assert s == [s[0]] + s[1..];
      var t := SortDesc(s[1..], key);
      InsertDescSorted(s[0], t, key);
      InsertDesc(s[0], t, key)
  }

  // ---------------------------------------------------------------------
  // Take

  function Min(a: int, b: int): int { if a <= b then a else b }

  /** `s.Take(n)`. */
  function Take<T>(s: seq<T>, n: int): (r: seq<T>)
    ensures |r| == if n <= 0 then 0 else Min(n, |s|)
    ensures forall i :: 0 <= i < |r| ==> r[i] == s[i]
  {
    if n <= 0 then [] else s[..Min(n, |s|)]
  }

  /** The first `n` of a descending sort are the `n` highest-ranked: as a
      multiset they come from the input, and nothing left out ranks above
      anything kept. */
  lemma TopOfSorted<T(!new)>(s: seq<T>, key: T -> Rank, n: int)
    ensures var r := Take(SortDesc(s, key), n);
      && multiset(r) <= multiset(s)
      && SortedDesc(r, key)
      && forall x, y :: x in r && y in multiset(s) - multiset(r) ==> RankGe(key(x), key(y))
  {
    TopOfSortedPermutation(s, SortDesc(s, key), key, n);
  }

  /** `TopOfSorted` for any descending permutation of `s`. */
  lemma TopOfSortedPermutation<T>(s: seq<T>, full: seq<T>, key: T -> Rank, n: int)
    requires multiset(full) == multiset(s) && SortedDesc(full, key)
    ensures multiset(Take(full, n)) <= multiset(s)
    ensures SortedDesc(Take(full, n), key)
    ensures forall x, y :: x in Take(full, n) && y in multiset(s) - multiset(Take(full, n)) ==> RankGe(key(x), key(y))
  {
    var r := Take(full, n);
    var k := |r|;
    var rest := full[k..];
    assert r == full[..k];
    PrefixMultiset(full, k);
    assert multiset(s) - multiset(r) == multiset(rest);
    SortedPrefix(full, key, k);
    forall x, y | x in r && y in multiset(s) - multiset(r) ensures RankGe(key(x), key(y)) {
      assert y in multiset(rest);
    }
  }

  /** A sequence's multiset is that of a prefix plus that of the rest. */
  lemma PrefixMultiset<T>(s: seq<T>, k: nat)
    requires k <= |s|
    ensures multiset(s) == multiset(s[..k]) + multiset(s[k..])
  {
    assert s == s[..k] + s[k..];
  }

  /** A prefix of a descending sequence is descending and ranks above the rest. */
  lemma SortedPrefix<T>(full: seq<T>, key: T -> Rank, k: nat)
    requires SortedDesc(full, key) && k <= |full|
    ensures SortedDesc(full[..k], key)
    ensures forall x, y :: x in full[..k] && y in multiset(full[k..]) ==> RankGe(key(x), key(y))
  {
    var r, rest := full[..k], full[k..];
    forall i, j | 0 <= i < j < |r| ensures RankGe(key(r[i]), key(r[j])) {
      assert r[i] == full[i] && r[j] == full[j];
    }
    forall x, y | x in r && y in multiset(rest)
      ensures RankGe(key(x), key(y))
    {
      assert y in rest;
      var i :| 0 <= i < k && r[i] == x;
      var j :| 0 <= j < |rest| && rest[j] == y;
      assert full[i] == x && full[k + j] == y;
    }
  }

  // ---------------------------------------------------------------------
  // GroupBy keys

  /** One value per distinct key, each carrying its key: the keys stay
      distinct, every value is the one for its key, and exactly the given
      keys occur. */
  lemma GroupsByKey<K, V>(keys: seq<K>, r: seq<V>, f: K -> V, keyOf: V -> K)
    requires forall i, j :: 0 <= i < j < |keys| ==> keys[i] != keys[j]
    requires |r| == |keys|
    requires forall i :: 0 <= i < |r| ==> r[i] == f(keys[i]) && keyOf(r[i]) == keys[i]
    ensures forall i, j :: 0 <= i < j < |r| ==> keyOf(r[i]) != keyOf(r[j])
    ensures forall x :: x in r ==> x == f(keyOf(x))
    ensures forall k :: k in keys <==> exists x :: x in r && keyOf(x) == k
  {
    forall k | k in keys ensures exists x :: x in r && keyOf(x) == k {
      var i :| 0 <= i < |keys| && keys[i] == k;
      assert r[i] in r;
    }
  }

  /** The distinct values of `s` in order of first occurrence: the keys of
      `GroupBy` when it is evaluated in memory. */
  function Distinct<K(==,!new)>(s: seq<K>): (r: seq<K>)
    ensures forall k :: k in r <==> k in s
    ensures forall i, j :: 0 <= i < j < |r| ==> r[i] != r[j]
    ensures |r| <= |s|
  {
    DistinctAfter(s, [])
  }

  function DistinctAfter<K(==,!new)>(s: seq<K>, seen: seq<K>): (r: seq<K>)
    requires forall i, j :: 0 <= i < j < |seen| ==> seen[i] != seen[j]
    ensures forall k :: k in r <==> k in s || k in seen
    ensures forall i, j :: 0 <= i < j < |r| ==> r[i] != r[j]
    ensures |seen| <= |r| <= |s| + |seen|
    ensures r[..|seen|] == seen
    decreases |s|
  {
    if s == [] then seen
    else if s[0] in seen then DistinctAfter(s[1..], seen)
    else DistinctAfter(s[1..], seen + [s[0]])
  }
}
