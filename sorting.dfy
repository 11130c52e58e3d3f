/**
 * `Array.prototype.sort` with the comparators the application passes to it: a column is read
 * from each record as a number or a string, compared with `<`, and the direction decides which
 * of the two comes first. The sort is stable, as the language requires: records whose
 * columns compare equal keep the order they had.
 */
module Sorting {
  import opened Common
  import opened Text

  /** The value a comparator reads from a record: a number or a string. */
  datatype Key = Num(n: int) | Str(s: string)

  datatype Direction = Asc | Desc

  /** `a < b` on two values of one column (numbers are placed before strings when a column mixes both). */
  predicate KeyLess(a: Key, b: Key) {
    match (a, b)
    case (Num(x), Num(y)) => x < y
    case (Str(x), Str(y)) => LexLess(x, y)
    case (Num(_), Str(_)) => true
    case (Str(_), Num(_)) => false
  }

  /** The comparator returns a negative number: `a` must come before `b`. */
  predicate Before(a: Key, b: Key, dir: Direction) {
    if dir == Asc then KeyLess(a, b) else KeyLess(b, a)
  }

  lemma KeyLessIrreflexive(a: Key)
    ensures !KeyLess(a, a)
  {
    if a.Str? { LexLessIrreflexive(a.s); }
  }

  lemma KeyLessTransitive(a: Key, b: Key, c: Key)
    requires KeyLess(a, b) && KeyLess(b, c)
    ensures KeyLess(a, c)
  {
    if a.Str? && b.Str? && c.Str? { LexLessTransitive(a.s, b.s, c.s); }
  }

  lemma KeyLessTotal(a: Key, b: Key)
    ensures a == b || KeyLess(a, b) || KeyLess(b, a)
  {
    if a.Str? && b.Str? { LexLessTotal(a.s, b.s); }
  }

  /** Two keys are never each before the other. */
  lemma BeforeAsymmetric(a: Key, b: Key, dir: Direction)
    requires Before(a, b, dir)
    ensures !Before(b, a, dir)
  {
    if Before(b, a, dir) {
      if dir == Asc { KeyLessTransitive(a, b, a); } else { KeyLessTransitive(b, a, b); }
      KeyLessIrreflexive(a);
      KeyLessIrreflexive(b);
    }
  }

  /** "Need not come before" is transitive: the comparator is a total preorder. */
  lemma NotBeforeTransitive(a: Key, b: Key, c: Key, dir: Direction)
    requires !Before(b, a, dir) && !Before(c, b, dir)
    ensures !Before(c, a, dir)
  {
    KeyLessTotal(a, b);
    if Before(c, a, dir) {
      if dir == Asc {
        if KeyLess(a, b) { KeyLessTransitive(c, a, b); }
      } else {
        if KeyLess(b, a) { KeyLessTransitive(b, a, c); }
      }
    }
  }

  /** No record is placed after one that the comparator would put after it. */
  predicate Sorted<T>(s: seq<T>, key: T -> Key, dir: Direction) {
    forall i, j :: 0 <= i < j < |s| ==> !Before(key(s[j]), key(s[i]), dir)
  }

  /** Places `x` in the sorted `s` in front of the first record it does not come after. */
  function Insert<T>(x: T, s: seq<T>, key: T -> Key, dir: Direction): (r: seq<T>)
    ensures multiset(r) == multiset(s) + multiset{x}
  {
    if s == [] then [x]
    else if Before(key(s[0]), key(x), dir) then
      assert s == [s[0]] + s[1..];
      [s[0]] + Insert(x, s[1..], key, dir)
    else [x] + s
  }

  /** The records of `s` ordered by `key` in direction `dir`, stably. */
  function SortBy<T>(s: seq<T>, key: T -> Key, dir: Direction): (r: seq<T>)
    ensures multiset(r) == multiset(s)
  {
    if s == [] then []
    else
      assert s == [s[0]] + s[1..];
      Insert(s[0], SortBy(s[1..], key, dir), key, dir)
  }

  lemma {:induction false} InsertSorted<T>(x: T, s: seq<T>, key: T -> Key, dir: Direction)
    requires Sorted(s, key, dir)
    ensures Sorted(Insert(x, s, key, dir), key, dir)
  {
    if s == [] {
    } else if Before(key(s[0]), key(x), dir) {
      var rest := Insert(x, s[1..], key, dir);
      InsertSorted(x, s[1..], key, dir);
      var r := [s[0]] + rest;
      forall j | 1 <= j < |r|
        ensures !Before(key(r[j]), key(s[0]), dir)
      {
        assert r[j] == rest[j - 1];
        assert r[j] in multiset(rest);
        if r[j] == x {
          BeforeAsymmetric(key(s[0]), key(x), dir);
        } else {
          assert r[j] in multiset(s[1..]);
          var k :| 0 <= k < |s[1..]| && s[1..][k] == r[j];
          assert s[k + 1] == r[j];
        }
      }
    } else {
      var r := [x] + s;
      forall j | 1 <= j < |r|
        ensures !Before(key(r[j]), key(x), dir)
      {
        if j > 1 {
          NotBeforeTransitive(key(x), key(s[0]), key(s[j - 1]), dir);
        }
      }
    }
  }

  /** The result of sorting is sorted. */
  lemma {:induction false} SortBySorted<T>(s: seq<T>, key: T -> Key, dir: Direction)
    ensures Sorted(SortBy(s, key, dir), key, dir)
  {
    if s != [] {
      SortBySorted(s[1..], key, dir);
      InsertSorted(s[0], SortBy(s[1..], key, dir), key, dir);
    }
  }

  /**
   * Sorting changes nothing when no record has to move. In particular a column on which every
   * record compares equal (a comparator that always returns 0) leaves the order as it was.
   */
  lemma {:induction false} SortByKeepsSorted<T>(s: seq<T>, key: T -> Key, dir: Direction)
    requires Sorted(s, key, dir)
    ensures SortBy(s, key, dir) == s
  {
    if s != [] {
      assert Sorted(s[1..], key, dir) by {
        forall i, j | 0 <= i < j < |s[1..]|
          ensures !Before(key(s[1..][j]), key(s[1..][i]), dir)
        {
          assert s[1..][j] == s[j + 1] && s[1..][i] == s[i + 1];
        }
      }
      SortByKeepsSorted(s[1..], key, dir);
      if |s| > 1 {
        assert !Before(key(s[1]), key(s[0]), dir);
      }
      assert [s[0]] + s[1..] == s;
    }
  }

  /** The records whose column reads `k`. */
  function HasKey<T>(key: T -> Key, k: Key): T -> bool {
    x => key(x) == k
  }

  /** A record skipped over while inserting `x` cannot share the filtered key with `x`, so the two never swap. */
  lemma FilterSkip<T>(a: T, x: T, rest: seq<T>, t: seq<T>, p: T -> bool)
    requires !(p(a) && p(x))
    requires Filter(rest, p) == (if p(x) then [x] else []) + Filter(t, p)
    ensures Filter([a] + rest, p) == (if p(x) then [x] else []) + Filter([a] + t, p)
  {
    FilterConcat([a], rest, p);
    FilterConcat([a], t, p);
    FilterOne(a, p);
  }

  /** Inserting `x` adds it in front of the records with its key and disturbs no other key's records. */
  lemma {:induction false} InsertStable<T>(x: T, s: seq<T>, key: T -> Key, dir: Direction, k: Key)
    ensures Filter(Insert(x, s, key, dir), HasKey(key, k)) == (if key(x) == k then [x] else []) + Filter(s, HasKey(key, k))
  {
    var p := HasKey(key, k);
    assert p(x) == (key(x) == k);
    if s == [] {
      FilterFront([x], key, k);
    } else if Before(key(s[0]), key(x), dir) {
      var rest := Insert(x, s[1..], key, dir);
      assert Insert(x, s, key, dir) == [s[0]] + rest;
      InsertStable(x, s[1..], key, dir, k);
      KeyLessIrreflexive(key(x));
      assert [s[0]] + s[1..] == s;
      FilterSkip(s[0], x, rest, s[1..], p);
    } else {
      assert Insert(x, s, key, dir) == [x] + s;
      assert ([x] + s)[1..] == s;
      FilterFront([x] + s, key, k);
    }
  }

  /**
   * Sorting is stable: for every key, the records that read it come out in the order they went
   * in. Together with `SortBySorted` and the multiset of `SortBy` this fixes the result.
   */
  lemma {:induction false} SortByStable<T>(s: seq<T>, key: T -> Key, dir: Direction, k: Key)
    ensures Filter(SortBy(s, key, dir), HasKey(key, k)) == Filter(s, HasKey(key, k))
  {
    if s != [] {
      var p := HasKey(key, k);
      var t := SortBy(s[1..], key, dir);
      assert SortBy(s, key, dir) == Insert(s[0], t, key, dir);
      SortByStable(s[1..], key, dir, k);
      InsertStable(s[0], t, key, dir, k);
      FilterFront(s, key, k);
    }
  }

  /** Filtering `s` by key keeps its first record exactly when that record reads `k`. */
  lemma FilterFront<T>(s: seq<T>, key: T -> Key, k: Key)
    requires s != []
    ensures Filter(s, HasKey(key, k)) == (if key(s[0]) == k then [s[0]] else []) + Filter(s[1..], HasKey(key, k))
  {
  }

  /** A column on which all records agree sorts nothing: the stable sort returns its input. */
  lemma SortByEqualKeys<T>(s: seq<T>, key: T -> Key, dir: Direction)
    requires forall i, j :: 0 <= i < |s| && 0 <= j < |s| ==> key(s[i]) == key(s[j])
    ensures SortBy(s, key, dir) == s
  {
    forall i, j | 0 <= i < j < |s|
      ensures !Before(key(s[j]), key(s[i]), dir)
    {
      KeyLessIrreflexive(key(s[i]));
    }
    SortByKeepsSorted(s, key, dir);
  }
}
