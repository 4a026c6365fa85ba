/** A stable sort by a comparator, as `Array.prototype.sort` performs it (stable since
    ECMAScript 2019). `leq(a, b)` means "the comparator does not put `a` after `b`",
    that is `compare(a, b) <= 0`. */
module Sorting {

  import opened Seqs

  /** A comparator that behaves: every pair is comparable and the order is transitive. */
  ghost predicate TotalPreorder<T(!new)>(leq: (T, T) -> bool) {
    && (forall a, b :: leq(a, b) || leq(b, a))
    && (forall a, b, c :: leq(a, b) && leq(b, c) ==> leq(a, c))
  }

  ghost predicate Sorted<T>(s: seq<T>, leq: (T, T) -> bool) {
    forall i, j :: 0 <= i < j < |s| ==> leq(s[i], s[j])
  }

  /** `a` and `b` compare equal: the comparator returns 0 for them. */
  predicate Equivalent<T>(leq: (T, T) -> bool, a: T, b: T) {
    leq(a, b) && leq(b, a)
  }

  /** Places `x` in front of the first element it does not come after. */
  function Insert<T>(x: T, s: seq<T>, leq: (T, T) -> bool): (r: seq<T>)
    ensures multiset(r) == multiset(s) + multiset{x}
  {
    if |s| == 0 then [x]
    else if leq(x, s[0]) then [x] + s
    else
      assert s == [s[0]] + s[1..];
      [s[0]] + Insert(x, s[1..], leq)
  }

  function InsertionSort<T>(s: seq<T>, leq: (T, T) -> bool): (r: seq<T>)
    ensures multiset(r) == multiset(s)
  {
    if |s| == 0 then []
    else
      assert s == [s[0]] + s[1..];
      Insert(s[0], InsertionSort(s[1..], leq), leq)
  }

  lemma {:induction false} InsertSorted<T(!new)>(x: T, s: seq<T>, leq: (T, T) -> bool)
    requires TotalPreorder(leq)
    requires Sorted(s, leq)
    ensures Sorted(Insert(x, s, leq), leq)
  {
    if |s| > 0 && !leq(x, s[0]) {
      var rest := Insert(x, s[1..], leq);
      InsertSorted(x, s[1..], leq);
      forall k | 0 <= k < |rest|
        ensures leq(s[0], rest[k])
      {
        assert rest[k] in multiset(rest);
        if rest[k] != x {
          assert rest[k] in multiset(s[1..]);
          var j :| 0 <= j < |s[1..]| && s[1..][j] == rest[k];
          assert s[j + 1] == rest[k];
        }
      }
      var r := Insert(x, s, leq);
      assert r == [s[0]] + rest;
      forall i, j | 0 <= i < j < |r|
        ensures leq(r[i], r[j])
      {
        if i > 0 {
          assert r[i] == rest[i - 1] && r[j] == rest[j - 1];
        } else {
          assert r[j] == rest[j - 1];
        }
      }
    }
  }

  /** The sorted output is ordered by the comparator. */
  lemma {:induction false} InsertionSortSorted<T(!new)>(s: seq<T>, leq: (T, T) -> bool)
    requires TotalPreorder(leq)
    ensures Sorted(InsertionSort(s, leq), leq)
  {
    if |s| > 0 {
      InsertionSortSorted(s[1..], leq);
      InsertSorted(s[0], InsertionSort(s[1..], leq), leq);
    }
  }

  lemma Transitive<T(!new)>(leq: (T, T) -> bool, a: T, b: T, c: T)
    requires TotalPreorder(leq)
    ensures leq(a, b) && leq(b, c) ==> leq(a, c)
  {
  }

  lemma FilterSingleton<T>(x: T, keep: T -> bool)
    ensures Filter([x], keep) == if keep(x) then [x] else []
  {
    assert [x][1..] == [];
  }

  /** Inserting a member of a class puts it in front of every other member of that class. */
  lemma {:induction false} InsertStable<T>(x: T, s: seq<T>, leq: (T, T) -> bool, inClass: T -> bool)
    requires inClass(x) ==> forall y :: inClass(y) ==> leq(x, y)
    ensures Filter(Insert(x, s, leq), inClass) == (if inClass(x) then [x] else []) + Filter(s, inClass)
  {
    FilterSingleton(x, inClass);
    if |s| == 0 {
      assert Insert(x, s, leq) == [x];
    } else if leq(x, s[0]) {
      assert Insert(x, s, leq) == [x] + s;
      FilterAppend([x], s, inClass);
    } else {
      InsertStable(x, s[1..], leq, inClass);
      InsertPastHead(x, s, leq, inClass);
    }
  }

  /** The step of `InsertStable` where `x` moves past the head of `s`, which is not in
      the class of `x` when `x` is: the two swap places in the filtered output. */
  lemma InsertPastHead<T>(x: T, s: seq<T>, leq: (T, T) -> bool, inClass: T -> bool)
    requires |s| > 0 && !leq(x, s[0])
    requires !(inClass(x) && inClass(s[0]))
    requires Filter(Insert(x, s[1..], leq), inClass) == (if inClass(x) then [x] else []) + Filter(s[1..], inClass)
    ensures Filter(Insert(x, s, leq), inClass) == (if inClass(x) then [x] else []) + Filter(s, inClass)
  {
    var rest := Insert(x, s[1..], leq);
    var mine := if inClass(x) then [x] else [];
    var head := Filter([s[0]], inClass);
    var tail := Filter(s[1..], inClass);
    assert Insert(x, s, leq) == [s[0]] + rest;
    FilterAppend([s[0]], rest, inClass);
    assert s == [s[0]] + s[1..];
    FilterAppend([s[0]], s[1..], inClass);
    FilterSingleton(s[0], inClass);
    SwapEmpty(head, mine, tail);
  }

  lemma SwapEmpty<T>(a: seq<T>, b: seq<T>, t: seq<T>)
    requires a == [] || b == []
    ensures a + (b + t) == b + (a + t)
  {
  }

  /** Stability: the elements of any one class of equal-comparing elements come out
      in the same relative order they went in. */
  lemma {:induction false} InsertionSortStable<T(!new)>(s: seq<T>, leq: (T, T) -> bool, rep: T, inClass: T -> bool)
    requires TotalPreorder(leq)
    requires forall y :: inClass(y) == Equivalent(leq, rep, y)
    ensures Filter(InsertionSort(s, leq), inClass) == Filter(s, inClass)
  {
    if |s| > 0 {
      InsertionSortStable(s[1..], leq, rep, inClass);
      forall y | inClass(y)
        ensures inClass(s[0]) ==> leq(s[0], y)
      {
        Transitive(leq, s[0], rep, y);
      }
      InsertStable(s[0], InsertionSort(s[1..], leq), leq, inClass);
    }
  }
}
