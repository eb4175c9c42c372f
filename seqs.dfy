/** Sequence primitives used by the pipeline stages: keys of a collection in
    scan order, filtering, duplicate-freedom and slicing. */
module Seqs {
  import opened Common
  import Ordering

  /** A set of keys listed in ascending order: the scan order of a collection. */
  function KeysAsc(keys: set<Id>): (r: seq<Id>)
    ensures forall k :: k in r <==> k in keys
    ensures |r| == |keys|
    ensures forall i, j :: 0 <= i < j < |r| ==> r[i] < r[j]
    decreases |keys|
  {
    if keys == {} then []
    else
      var m := MinKey(keys);
      var rest := KeysAsc(keys - {m});
      KeysAscCons(keys, m, rest);
      [m] + rest
  }

  lemma KeysAscCons(keys: set<Id>, m: Id, rest: seq<Id>)
    requires m in keys && forall k :: k in keys ==> m <= k
    requires forall k :: k in rest <==> k in keys - {m}
    requires |rest| == |keys - {m}|
    requires forall i, j :: 0 <= i < j < |rest| ==> rest[i] < rest[j]
    ensures var r := [m] + rest;
      && (forall k :: k in r <==> k in keys)
      && |r| == |keys|
      && forall i, j :: 0 <= i < j < |r| ==> r[i] < r[j]
  {
    var r := [m] + rest;
    assert |keys - {m}| == |keys| - 1;
    forall i, j | 0 <= i < j < |r|
      ensures r[i] < r[j]
    {
      assert r[j] == rest[j - 1];
      if i > 0 {
        assert r[i] == rest[i - 1];
      } else {
        assert rest[j - 1] in keys - {m};
      }
    }
  }

  function MinKey(keys: set<Id>): (m: Id)
    requires keys != {}
    ensures m in keys
    ensures forall k :: k in keys ==> m <= k
  {
    MinExists(keys);
    var m :| IsMin(m, keys);
    m
  }

  predicate IsMin(w: Id, keys: set<Id>) {
    w in keys && forall k :: k in keys ==> w <= k
  }

  lemma {:induction false} MinExists(keys: set<Id>)
    requires keys != {}
    ensures exists m :: IsMin(m, keys)
    decreases |keys|
  {
    var x :| x in keys;
    if keys == {x} {
      assert IsMin(x, keys);
    } else {
      var rest := keys - {x};
      MinExists(rest);
      var m :| IsMin(m, rest);
      var w := if x < m then x else m;
      forall k | k in keys
        ensures w <= k
      {
        if k != x {
          assert k in rest;
        }
      }
      assert IsMin(w, keys);
    }
  }

  /** The elements of `s` that satisfy `p`, in their original order. */
  function Filter<T>(s: seq<T>, p: T -> bool): (r: seq<T>)
    ensures |r| <= |s|
    ensures forall i :: 0 <= i < |r| ==> r[i] in s && p(r[i])
    ensures forall i :: 0 <= i < |s| && p(s[i]) ==> s[i] in r
    ensures multiset(r) <= multiset(s)
  {
    if s == [] then []
    else
      assert s == [s[0]] + s[1..];
      if p(s[0]) then [s[0]] + Filter(s[1..], p)
      else Filter(s[1..], p)
  }

  /** Filtering distributes over concatenation. */
  lemma {:induction false} FilterAppend<T>(a: seq<T>, b: seq<T>, p: T -> bool)
    ensures Filter(a + b, p) == Filter(a, p) + Filter(b, p)
  {
    if a == [] {
      assert a + b == b;
    } else {
      assert (a + b)[1..] == a[1..] + b;
      FilterAppend(a[1..], b, p);
    }
  }

  /** `sub` is `s` with some elements left out, the others in their order. */
  ghost predicate Subsequence<T>(sub: seq<T>, s: seq<T>)
    decreases |s|
  {
    if sub == [] then true
    else if s == [] then false
    else if sub[0] == s[0] then Subsequence(sub[1..], s[1..])
    else Subsequence(sub, s[1..])
  }

  lemma {:induction false} SubsequenceRefl<T>(s: seq<T>)
    ensures Subsequence(s, s)
  {
    if s != [] {
      SubsequenceRefl(s[1..]);
    }
  }

  lemma {:induction false} FilterIsSubsequence<T>(s: seq<T>, p: T -> bool)
    ensures Subsequence(Filter(s, p), s)
  {
    if s != [] {
      FilterIsSubsequence(s[1..], p);
      if p(s[0]) {
        assert Filter(s, p)[1..] == Filter(s[1..], p);
      } else {
        SubsequenceOfEmptyOrTail(Filter(s, p), s);
      }
    }
  }

  lemma SubsequenceOfEmptyOrTail<T>(sub: seq<T>, s: seq<T>)
    requires s != []
    requires Subsequence(sub, s[1..])
    ensures Subsequence(sub, s)
    decreases |s|, |sub|
  {
    if sub != [] && sub[0] == s[0] {
      SubsequenceDropHead(sub, s[1..]);
    }
  }

  lemma SubsequenceDropHead<T>(sub: seq<T>, s: seq<T>)
    requires sub != []
    requires Subsequence(sub, s)
    ensures Subsequence(sub[1..], s)
    decreases |s|, |sub|
  {
    if s != [] {
      if sub[0] == s[0] {
        SubsequenceOfEmptyOrTail(sub[1..], s);
      } else {
        SubsequenceDropHead(sub, s[1..]);
        SubsequenceOfEmptyOrTail(sub[1..], s);
      }
    }
  }

  /** No element occurs twice. */
  predicate NoDup<T(==)>(s: seq<T>) {
    forall i, j :: 0 <= i < j < |s| ==> s[i] != s[j]
  }

  /** Filtering keeps duplicate-freedom. */
  lemma {:induction false} FilterNoDup<T>(s: seq<T>, p: T -> bool)
    requires NoDup(s)
    ensures NoDup(Filter(s, p))
  {
    if s != [] {
      var t := s[1..];
      NoDupTail(s);
      FilterNoDup(t, p);
      var rest := Filter(t, p);
      if p(s[0]) {
        assert Filter(s, p) == [s[0]] + rest;
        assert s[0] !in rest;
        NoDupCons(s[0], rest);
      } else {
        assert Filter(s, p) == rest;
      }
    }
  }

  lemma NoDupTail<T>(s: seq<T>)
    requires NoDup(s) && s != []
    ensures NoDup(s[1..]) && s[0] !in s[1..]
  {
    var t := s[1..];
    forall i, j | 0 <= i < j < |t|
      ensures t[i] != t[j]
    {
      assert t[i] == s[i + 1] && t[j] == s[j + 1];
    }
    forall j | 0 <= j < |t|
      ensures t[j] != s[0]
    {
      assert t[j] == s[j + 1];
    }
  }

  lemma NoDupCons<T>(x: T, rest: seq<T>)
    requires NoDup(rest) && x !in rest
    ensures NoDup([x] + rest)
  {
    var r := [x] + rest;
    forall i, j | 0 <= i < j < |r|
      ensures r[i] != r[j]
    {
      assert r[j] == rest[j - 1];
      if i > 0 {
        assert r[i] == rest[i - 1];
      }
    }
  }

  lemma {:induction false} NoDupCount<T>(s: seq<T>, x: T)
    requires NoDup(s)
    ensures multiset(s)[x] <= 1
  {
    if s != [] {
      assert s == [s[0]] + s[1..];
      NoDupCount(s[1..], x);
      if s[0] == x {
        assert x !in s[1..];
      }
    }
  }

  lemma RepeatCount<T>(s: seq<T>, i: nat, j: nat)
    requires i < j < |s| && s[i] == s[j]
    ensures multiset(s)[s[i]] >= 2
  {
    assert s == s[..j] + s[j..];
    assert s[i] in s[..j];
    assert s[j] == s[j..][0];
    assert multiset(s) == multiset(s[..j]) + multiset(s[j..]);
  }

  /** A permutation of a duplicate-free sequence is duplicate-free. */
  lemma NoDupPermutation<T>(a: seq<T>, b: seq<T>)
    requires multiset(a) == multiset(b)
    requires NoDup(a)
    ensures NoDup(b)
  {
    forall i, j | 0 <= i < j < |b|
      ensures b[i] != b[j]
    {
      if b[i] == b[j] {
        RepeatCount(b, i, j);
        NoDupCount(a, b[i]);
      }
    }
  }

  /** The keys a sequence lists. */
  function Elems<T>(s: seq<T>): set<T> {
    set x | x in s
  }

  /** A duplicate-free sequence has as many distinct elements as positions. */
  lemma {:induction false} NoDupCard<T>(s: seq<T>)
    requires NoDup(s)
    ensures |Elems(s)| == |s|
  {
    if s != [] {
      var t := s[1..];
      assert NoDup(t) by {
        forall i, j | 0 <= i < j < |t|
          ensures t[i] != t[j]
        {
          assert t[i] == s[i + 1] && t[j] == s[j + 1];
        }
      }
      NoDupCard(t);
      assert s[0] !in t by {
        forall j | 0 <= j < |t|
          ensures t[j] != s[0]
        {
          assert t[j] == s[j + 1];
        }
      }
      assert s == [s[0]] + t;
      assert Elems(s) == Elems(t) + {s[0]};
    }
  }

  /** A sequence has at most as many distinct elements as positions. */
  lemma {:induction false} ElemsCard<T>(s: seq<T>)
    ensures |Elems(s)| <= |s|
  {
    if s != [] {
      ElemsCard(s[1..]);
      assert s == [s[0]] + s[1..];
      assert Elems(s) == Elems(s[1..]) + {s[0]};
    }
  }

  /** A duplicate-free sequence whose elements all occur in `b` is no longer
      than `b`. */
  lemma NoDupWithin<T>(a: seq<T>, b: seq<T>)
    requires NoDup(a)
    requires forall i :: 0 <= i < |a| ==> a[i] in b
    ensures |a| <= |b|
  {
    NoDupCard(a);
    ElemsCard(b);
    var A, B := Elems(a), Elems(b);
    assert A <= B;
    assert B == A + (B - A);
    assert A * (B - A) == {};
  }

  /** A duplicate-free listing of a set has the set's size. */
  lemma ListingCard(r: seq<Id>, s: set<Id>)
    requires NoDup(r)
    requires forall k :: k in r <==> k in s
    ensures |r| == |s|
  {
    NoDupCard(r);
    assert Elems(r) == s;
  }

  /** Leaving elements out of a sorted sequence keeps it sorted. */
  lemma {:induction false} SubsequenceSortedBy<T>(sub: seq<T>, s: seq<T>, le: (T, T) -> bool)
    requires Subsequence(sub, s)
    requires Ordering.SortedBy(s, le)
    ensures Ordering.SortedBy(sub, le)
    ensures forall i :: 0 <= i < |sub| ==> sub[i] in s
    decreases |s|
  {
    if sub != [] && s != [] {
      assert Ordering.SortedBy(s[1..], le) by {
        forall i, j | 0 <= i < j < |s[1..]|
          ensures le(s[1..][i], s[1..][j])
        {
          assert s[1..][i] == s[i + 1] && s[1..][j] == s[j + 1];
        }
      }
      if sub[0] == s[0] {
        SubsequenceSortedBy(sub[1..], s[1..], le);
        forall j | 0 < j < |sub|
          ensures le(sub[0], sub[j])
        {
          assert sub[j] == sub[1..][j - 1];
          var t :| 0 <= t < |s[1..]| && s[1..][t] == sub[j];
          assert s[t + 1] == sub[j];
        }
        forall i, j | 0 <= i < j < |sub|
          ensures le(sub[i], sub[j])
        {
          if i > 0 {
            assert sub[i] == sub[1..][i - 1] && sub[j] == sub[1..][j - 1];
          }
        }
        forall i | 0 <= i < |sub|
          ensures sub[i] in s
        {
          if i > 0 {
            assert sub[i] == sub[1..][i - 1];
          }
        }
      } else {
        SubsequenceSortedBy(sub, s[1..], le);
      }
    }
  }

  /** The keys of the documents a `$lookup` (or a `find`) selects, in scan
      order. */
  function Lookup(keys: set<Id>, p: Id -> bool): (r: seq<Id>)
    ensures forall k :: k in r <==> k in keys && p(k)
    ensures NoDup(r)
  {
    var all := KeysAsc(keys);
    var r := Filter(all, p);
    LookupFacts(keys, p, all, r);
    r
  }

  lemma LookupFacts(keys: set<Id>, p: Id -> bool, all: seq<Id>, r: seq<Id>)
    requires all == KeysAsc(keys) && r == Filter(all, p)
    ensures forall k :: k in r <==> k in keys && p(k)
    ensures NoDup(r)
  {
    assert forall k :: k in keys && p(k) ==> k in r by {
      forall k | k in keys && p(k)
        ensures k in r
      {
        var i :| 0 <= i < |all| && all[i] == k;
        assert p(all[i]);
      }
    }
    FilterIsSubsequence(all, p);
    SubsequenceAscending(r, all);
  }

  lemma {:induction false} SubsequenceAscending(sub: seq<Id>, s: seq<Id>)
    requires Subsequence(sub, s)
    requires forall i, j :: 0 <= i < j < |s| ==> s[i] < s[j]
    ensures forall i, j :: 0 <= i < j < |sub| ==> sub[i] < sub[j]
    ensures forall i :: 0 <= i < |sub| ==> sub[i] in s
    decreases |s|
  {
    if sub != [] && s != [] {
      assert forall i, j :: 0 <= i < j < |s[1..]| ==> s[1..][i] < s[1..][j] by {
        forall i, j | 0 <= i < j < |s[1..]|
          ensures s[1..][i] < s[1..][j]
        {
          assert s[1..][i] == s[i + 1] && s[1..][j] == s[j + 1];
        }
      }
      if sub[0] == s[0] {
        SubsequenceAscending(sub[1..], s[1..]);
        forall j | 0 < j < |sub|
          ensures sub[0] < sub[j]
        {
          assert sub[j] == sub[1..][j - 1];
          var t :| 0 <= t < |s[1..]| && s[1..][t] == sub[j];
          assert s[t + 1] == sub[j];
        }
        forall i, j | 0 <= i < j < |sub|
          ensures sub[i] < sub[j]
        {
          if i > 0 {
            assert sub[i] == sub[1..][i - 1] && sub[j] == sub[1..][j - 1];
          }
        }
        forall i | 0 <= i < |sub|
          ensures sub[i] in s
        {
          if i > 0 {
            assert sub[i] == sub[1..][i - 1];
          }
        }
      } else {
        SubsequenceAscending(sub, s[1..]);
      }
    }
  }

  /** `findOne(filter)`: the first matching document in scan order. */
  function FindFirst(keys: set<Id>, p: Id -> bool): (r: Option<Id>)
    ensures r.Some? ==> r.value in keys && p(r.value)
    ensures r.Some? ==> forall k :: k in keys && p(k) ==> r.value <= k
    ensures r.None? <==> forall k :: k in keys ==> !p(k)
  {
    var ks := set k | k in keys && p(k);
    if ks == {} then
      assert forall k :: k in keys ==> !p(k) by {
        forall k | k in keys
          ensures !p(k)
        {
          assert k !in ks;
        }
      }
      None
    else
      var m := MinKey(ks);
      assert forall k :: k in keys && p(k) ==> m <= k by {
        forall k | k in keys && p(k)
          ensures m <= k
        {
          assert k in ks;
        }
      }
      Some(m)
  }

  function Min(a: nat, b: nat): nat { if a <= b then a else b }

  /** MongoDB's `$slice: [s, skip, limit]` and `.skip(skip).limit(limit)`:
      the elements at positions `skip` up to `skip + limit`. */
  function Slice<T>(s: seq<T>, skip: nat, limit: nat): (r: seq<T>)
    ensures |r| <= limit
    ensures |r| == if skip >= |s| then 0 else Min(limit, |s| - skip)
    ensures forall i :: 0 <= i < |r| ==> r[i] == s[skip + i]
  {
    s[Min(skip, |s|)..Min(skip + limit, |s|)]
  }

  /** A prefix of a sorted sequence is sorted, and holds only its elements. */
  lemma PrefixSortedBy<T>(s: seq<T>, le: (T, T) -> bool, n: nat)
    requires n <= |s|
    requires Ordering.SortedBy(s, le)
    ensures Ordering.SortedBy(s[..n], le)
    ensures multiset(s[..n]) <= multiset(s)
  {
    assert s == s[..n] + s[n..];
    assert multiset(s) == multiset(s[..n]) + multiset(s[n..]);
  }

  /** A window of a sorted sequence is sorted. */
  lemma SliceSortedBy<T>(s: seq<T>, le: (T, T) -> bool, skip: nat, limit: nat)
    requires Ordering.SortedBy(s, le)
    ensures Ordering.SortedBy(Slice(s, skip, limit), le)
  {
    var r := Slice(s, skip, limit);
    forall i, j | 0 <= i < j < |r|
      ensures le(r[i], r[j])
    {
      assert r[i] == s[skip + i] && r[j] == s[skip + j];
    }
  }

  /** An element of a window is an element of the sequence. */
  lemma SliceMember<T>(s: seq<T>, skip: nat, limit: nat, i: nat)
    requires i < |Slice(s, skip, limit)|
    ensures Slice(s, skip, limit)[i] in s
  {
    assert Slice(s, skip, limit)[i] == s[skip + i];
  }

  /** An element of a sorted sequence missing from its first window sorts
      at or after everything in the window. */
  lemma LeftOutSortsAfter<T>(s: seq<T>, le: (T, T) -> bool, limit: nat, x: T)
    requires Ordering.SortedBy(s, le)
    requires x in s && x !in Slice(s, 0, limit)
    ensures forall i :: 0 <= i < |Slice(s, 0, limit)| ==> le(Slice(s, 0, limit)[i], x)
  {
    var r := Slice(s, 0, limit);
    var m :| 0 <= m < |s| && s[m] == x;
    forall i | 0 <= i < |r|
      ensures le(r[i], x)
    {
      assert r[i] == s[i];
      assert le(s[i], s[m]);
    }
  }

  /** A window taken twice at an offset no smaller than its width is empty. */
  lemma SliceTwiceEmpty<T>(s: seq<T>, skip: nat, limit: nat)
    requires skip >= limit
    ensures Slice(Slice(s, skip, limit), skip, limit) == []
  {
    assert |Slice(s, skip, limit)| <= skip;
  }

  /** `$indexOfArray`: the position of the first occurrence, or -1. */
  function IndexOf<T(==)>(s: seq<T>, x: T): (r: int)
    ensures -1 <= r < |s|
    ensures r == -1 <==> x !in s
    ensures r >= 0 ==> s[r] == x && forall i :: 0 <= i < r ==> s[i] != x
  {
    if s == [] then -1
    else if s[0] == x then 0
    else
      var k := IndexOf(s[1..], x);
      if k == -1 then -1 else k + 1
  }
}
