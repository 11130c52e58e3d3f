/** Small building blocks shared by every module of the model. */
module Common {

  /** A value that may be absent: `undefined`/`null` in the application, or an input that did not parse. */
  datatype Option<T> = None | Some(value: T)

  /** A value read from the browser's storage: the key is absent, its text does not parse, or it holds a value. */
  datatype Stored<T> = Absent | Unreadable | Present(value: T)

  /** `Math.max(...s)` of a non-empty list. */
  function SeqMax(s: seq<int>): (m: int)
    requires s != []
    ensures m in s && forall i :: 0 <= i < |s| ==> s[i] <= m
  {
    if |s| == 1 then s[0]
    else
      var rest := SeqMax(s[1..]);
      if s[0] > rest then s[0] else rest
  }

  /** The id handed to the next record of a collection: `Math.max(...ids, 0) + 1`. */
  function NextId(ids: seq<int>): (r: int)
    ensures r >= 1
    ensures forall i :: 0 <= i < |ids| ==> ids[i] < r
    ensures r == 1 || r - 1 in ids
  {
    if ids == [] then 1
    else
      var rest := NextId(ids[1..]);
      if ids[0] + 1 > rest then ids[0] + 1 else rest
  }

  /** Each element of `s` through `f`, in order (`Array.prototype.map`). */
  function MapSeq<T, U>(s: seq<T>, f: T -> U): (r: seq<U>)
    ensures |r| == |s| && forall i :: 0 <= i < |s| ==> r[i] == f(s[i])
  {
    if s == [] then [] else [f(s[0])] + MapSeq(s[1..], f)
  }

  /** The number of elements of `s` that satisfy `p` (`s.filter(p).length`). */
  function CountWhere<T>(s: seq<T>, p: T -> bool): (n: nat)
    ensures n <= |s|
    ensures n == 0 <==> forall i :: 0 <= i < |s| ==> !p(s[i])
  {
    if s == [] then 0 else (if p(s[0]) then 1 else 0) + CountWhere(s[1..], p)
  }

  /** Some element of `s` satisfies `p`, as a flag raised element by element from the first (`changed = true` in a `forEach`). */
  predicate AnyOf<T>(s: seq<T>, p: T -> bool) {
    s != [] && (AnyOf(s[..|s| - 1], p) || p(s[|s| - 1]))
  }

  /** One more element raises the flag exactly when it satisfies `p` itself. */
  lemma AnyOfStep<T>(s: seq<T>, i: nat, p: T -> bool)
    requires i < |s|
    ensures AnyOf(s[..i + 1], p) <==> AnyOf(s[..i], p) || p(s[i])
  {
    assert s[..i + 1][..i] == s[..i];
  }

  /** The flag is the existence of an element satisfying `p`. */
  lemma {:induction false} AnyOfIff<T>(s: seq<T>, p: T -> bool)
    ensures AnyOf(s, p) <==> exists i :: 0 <= i < |s| && p(s[i])
  {
    if s != [] {
      var init := s[..|s| - 1];
      AnyOfIff(init, p);
      if AnyOf(init, p) {
        var i :| 0 <= i < |init| && p(init[i]);
        assert s[i] == init[i];
      }
      if exists i :: 0 <= i < |s| && p(s[i]) {
        var i :| 0 <= i < |s| && p(s[i]);
        if i < |init| { assert init[i] == s[i]; }
      }
    }
  }

  /** The order-preserving subsequence of `s` whose elements satisfy `p` (`Array.prototype.filter`). */
  function Filter<T>(s: seq<T>, p: T -> bool): (r: seq<T>)
    ensures |r| <= |s|
    ensures forall i :: 0 <= i < |r| ==> p(r[i]) && r[i] in s
    ensures forall x :: x in s && p(x) ==> x in r
    ensures |r| == CountWhere(s, p)
  {
    if s == [] then []
    else if p(s[0]) then [s[0]] + Filter(s[1..], p)
    else Filter(s[1..], p)
  }

  /**
   * Filtering works piece by piece: the kept elements of `a + b` are those of `a` followed by
   * those of `b`. With `FilterOne` this fixes the result as the order-preserving subsequence of
   * the satisfying elements.
   */
  lemma {:induction false} FilterConcat<T>(a: seq<T>, b: seq<T>, p: T -> bool)
    ensures Filter(a + b, p) == Filter(a, p) + Filter(b, p)
  {
    if a == [] {
      assert a + b == b;
    } else {
      var t := a[1..];
      assert (a + b)[0] == a[0];
      assert (a + b)[1..] == t + b;
      FilterConcat(t, b, p);
    }
  }

  /** A single element is kept exactly when it satisfies `p`. */
  lemma FilterOne<T>(x: T, p: T -> bool)
    ensures Filter([x], p) == (if p(x) then [x] else [])
  {
    assert [x][1..] == [];
  }

  /** Filtering keeps the multiplicity of every kept element. */
  lemma {:induction false} FilterMultiset<T>(s: seq<T>, p: T -> bool)
    ensures multiset(Filter(s, p)) <= multiset(s)
    ensures forall x :: x in multiset(s) && p(x) ==> multiset(Filter(s, p))[x] == multiset(s)[x]
  {
    if s != [] {
      var t := s[1..];
      FilterMultiset(t, p);
      var f := Filter(t, p);
      FilterMultisetStep(s, p, f);
      assert s == [s[0]] + t;
      var a: multiset<T> := if p(s[0]) then multiset{s[0]} else multiset{};
      assert multiset(Filter(s, p)) == a + multiset(f);
      assert multiset(s) == multiset{s[0]} + multiset(t);
      forall x | x in multiset(s) && p(x)
        ensures multiset(Filter(s, p))[x] == multiset(s)[x]
      {
        if x !in multiset(t) {
          assert multiset(f)[x] == 0;
        }
      }
    }
  }

  /** One step of `FilterMultiset`: the first element is added to both sides or to neither. */
  lemma FilterMultisetStep<T>(s: seq<T>, p: T -> bool, f: seq<T>)
    requires s != [] && f == Filter(s[1..], p)
    ensures multiset(Filter(s, p)) == (if p(s[0]) then multiset{s[0]} else multiset{}) + multiset(f)
  {
    if p(s[0]) {
      assert Filter(s, p) == [s[0]] + f;
    } else {
      assert Filter(s, p) == f;
    }
  }

  /** When every element satisfies `p`, filtering keeps all of `s`. */
  lemma {:induction false} FilterAll<T>(s: seq<T>, p: T -> bool)
    requires forall i :: 0 <= i < |s| ==> p(s[i])
    ensures Filter(s, p) == s
  {
    if s != [] {
      var tail := s[1..];
      assert forall i :: 0 <= i < |tail| ==> tail[i] == s[i + 1];
      FilterAll(tail, p);
      assert p(s[0]);
      assert Filter(s, p) == [s[0]] + Filter(tail, p);
      assert s == [s[0]] + tail;
    }
  }

  /** The first index of `s` whose element satisfies `p` (`Array.prototype.findIndex`), or None. */
  function FindIndex<T>(s: seq<T>, p: T -> bool): (r: Option<nat>)
    ensures r.Some? ==> r.value < |s| && p(s[r.value]) && forall j :: 0 <= j < r.value ==> !p(s[j])
    ensures r.None? ==> forall j :: 0 <= j < |s| ==> !p(s[j])
  {
    if s == [] then None
    else if p(s[0]) then Some(0)
    else match FindIndex(s[1..], p)
      case None => None
      case Some(k) => Some(k + 1)
  }

  /** No element occurs twice. */
  predicate NoDup<T(==)>(s: seq<T>) {
    forall i, j :: 0 <= i < j < |s| ==> s[i] != s[j]
  }

  /** The index of the first occurrence of `x` in `s` (`indexOf`). */
  function FirstIn<T(==)>(s: seq<T>, x: T): (i: nat)
    requires x in s
    ensures i < |s| && s[i] == x && forall j :: 0 <= j < i ==> s[j] != x
  {
    if s[0] == x then 0 else 1 + FirstIn(s[1..], x)
  }

  /** The distinct elements of `s` in the order of their first occurrence (`[...new Set(s)]`). */
  function Distinct<T(==)>(s: seq<T>): (r: seq<T>)
    ensures forall i :: 0 <= i < |r| ==> r[i] in s
    ensures forall i :: 0 <= i < |s| ==> s[i] in r
    ensures NoDup(r)
  {
    if s == [] then []
    else
      var rest := Distinct(s[..|s| - 1]);
      assert forall i :: 0 <= i < |s| - 1 ==> s[i] == s[..|s| - 1][i];
      if s[|s| - 1] in rest then rest else rest + [s[|s| - 1]]
  }

  /** A first occurrence inside a prefix is the first occurrence in the whole sequence. */
  lemma {:induction false} FirstInPrefix<T>(s: seq<T>, n: nat, x: T)
    requires n <= |s| && x in s[..n]
    ensures FirstIn(s, x) == FirstIn(s[..n], x)
  {
    var a, b := FirstIn(s, x), FirstIn(s[..n], x);
    assert s[..n][b] == s[b];
    assert a <= b;
    assert s[..n][a] == s[a];
  }

  /** Elements found in a prefix keep their first positions, and so their order, in the whole sequence. */
  lemma OrderInPrefix<T>(s: seq<T>, n: nat, r: seq<T>)
    requires n <= |s| && forall i :: 0 <= i < |r| ==> r[i] in s[..n]
    requires forall i, j :: 0 <= i < j < |r| ==> FirstIn(s[..n], r[i]) < FirstIn(s[..n], r[j])
    ensures forall i :: 0 <= i < |r| ==> r[i] in s && FirstIn(s, r[i]) == FirstIn(s[..n], r[i]) < n
    ensures forall i, j :: 0 <= i < j < |r| ==> FirstIn(s, r[i]) < FirstIn(s, r[j])
  {
    forall i | 0 <= i < |r|
      ensures r[i] in s && FirstIn(s, r[i]) == FirstIn(s[..n], r[i]) < n
    {
      FirstInPrefix(s, n, r[i]);
    }
  }

  /** `Distinct` lists the elements in the order in which they first occur. */
  lemma {:induction false} DistinctFirstOccurrenceOrder<T>(s: seq<T>)
    ensures forall i, j :: 0 <= i < j < |Distinct(s)| ==> FirstIn(s, Distinct(s)[i]) < FirstIn(s, Distinct(s)[j])
  {
    if s != [] {
      var n := |s| - 1;
      var init := s[..n];
      var rest := Distinct(init);
      DistinctFirstOccurrenceOrder(init);
      OrderInPrefix(s, n, rest);
      if s[n] !in rest {
        var r := rest + [s[n]];
        assert Distinct(s) == r;
        assert s[n] !in init;
        assert FirstIn(s, s[n]) == n;
        forall i, j | 0 <= i < j < |r|
          ensures FirstIn(s, r[i]) < FirstIn(s, r[j])
        {
          assert r[i] == rest[i];
          if j < |rest| {
            assert r[j] == rest[j];
          }
        }
      } else {
        assert Distinct(s) == rest;
      }
    }
  }

  lemma {:induction false} NoDupCounts<T>(s: seq<T>, x: T)
    requires NoDup(s)
    ensures multiset(s)[x] <= 1
  {
    if s != [] {
      assert s == [s[0]] + s[1..];
      assert NoDup(s[1..]) by {
        forall i, j | 0 <= i < j < |s[1..]| ensures s[1..][i] != s[1..][j] {
          assert s[1..][i] == s[i + 1] && s[1..][j] == s[j + 1];
        }
      }
      NoDupCounts(s[1..], x);
      if s[0] == x { assert x !in s[1..]; }
    }
  }

  /** Reordering keeps a list free of duplicates. */
  lemma NoDupPermutation<T>(a: seq<T>, b: seq<T>)
    requires multiset(a) == multiset(b) && NoDup(a)
    ensures NoDup(b)
  {
    forall i, j | 0 <= i < j < |b|
      ensures b[i] != b[j]
    {
      if b[i] == b[j] {
        assert b == b[..j] + b[j..];
        assert b[i] in multiset(b[..j]) && b[j] in multiset(b[j..]);
        assert multiset(b)[b[i]] >= 2;
        NoDupCounts(a, b[i]);
      }
    }
  }
}
