/** `Array.prototype.sort(compare)`: an in-place, stable sort driven by a
    comparator that returns a negative number, zero or a positive number.
    The engine's algorithm is not visible to the code that calls it; it is
    modelled as insertion sort. For a comparator under which any two elements
    are comparable the result is sorted and stable (`SortSpecSorted`,
    `SortSpecStable`); for a total order it is the only sorted permutation
    (`SortedUnique`), so any correct engine agrees with it. `SortSpec` is the
    same sort as a function on sequences. */
module ArraySort {

  /** Every element in order: no neighbour pair compares greater than zero. */
  ghost predicate Sorted<T>(s: seq<T>, cmp: (T, T) -> int) {
    forall i :: 0 < i < |s| ==> cmp(s[i - 1], s[i]) <= 0
  }

  /** Any two values can be put in some order: they do not both compare greater than each other. */
  ghost predicate Comparable<T(!new)>(cmp: (T, T) -> int) {
    forall a, b :: cmp(a, b) <= 0 || cmp(b, a) <= 0
  }

  /** Comparing equal is transitive, so ties form groups of equivalent values. */
  ghost predicate TiesConsistent<T(!new)>(cmp: (T, T) -> int) {
    forall a, b, c :: cmp(a, c) == 0 && cmp(b, c) == 0 ==> cmp(a, b) == 0
  }

  /** `x` inserted into `t` from the right: it moves left past every element that compares greater than it. */
  function Insert<T>(t: seq<T>, x: T, cmp: (T, T) -> int): (r: seq<T>)
    ensures |r| == |t| + 1
    ensures multiset(r) == multiset(t) + multiset{x}
    ensures r[|r| - 1] == x || (t != [] && r[|r| - 1] == t[|t| - 1])
  {
    if t == [] || cmp(t[|t| - 1], x) <= 0 then t + [x]
    else
      var r := Insert(t[..|t| - 1], x, cmp) + [t[|t| - 1]];
      assert t[..|t| - 1] + [t[|t| - 1]] == t;
      r
  }

  /** The stable sort of `s` under `cmp`, as a function. */
  function SortSpec<T>(s: seq<T>, cmp: (T, T) -> int): (r: seq<T>)
    ensures |r| == |s| && multiset(r) == multiset(s)
  {
    if s == [] then []
    else
      var r := Insert(SortSpec(s[..|s| - 1], cmp), s[|s| - 1], cmp);
      assert s[..|s| - 1] + [s[|s| - 1]] == s;
      r
  }

  /** Sorts `a` in place. */
  method Sort<T>(a: array<T>, cmp: (T, T) -> int)
    modifies a
    ensures a[..] == SortSpec(old(a[..]), cmp)
  {
    ghost var s := a[..];
    var i := 0;
    assert s[..0] == [] && s[0..] == s;
    while i < a.Length
      invariant 0 <= i <= a.Length
      invariant a[..] == SortSpec(s[..i], cmp) + s[i..]
    {
      SortSpecStep(s, i, cmp);
      InsertAt(a, i, cmp);
      i := i + 1;
    }
    assert s[..a.Length] == s && s[a.Length..] == [];
  }

  lemma SortSpecStep<T>(s: seq<T>, i: int, cmp: (T, T) -> int)
    requires 0 <= i < |s|
    ensures var p := SortSpec(s[..i], cmp);
      var u := p + s[i..];
      u[..i] == p && u[i] == s[i] && u[i + 1..] == s[i + 1..] &&
      SortSpec(s[..i + 1], cmp) == Insert(p, s[i], cmp)
  {
    var p := SortSpec(s[..i], cmp);
    var u := p + s[i..];
    assert u[..i] == p;
    assert u[i..] == s[i..];
    assert s[..i + 1][..i] == s[..i] && s[..i + 1][i] == s[i];
  }

  /** One step of `Sort`: moves `a[i]` left into the sorted prefix `a[..i]`. */
  method InsertAt<T>(a: array<T>, i: int, cmp: (T, T) -> int)
    requires 0 <= i < a.Length
    modifies a
    ensures a[..] == Insert(old(a[..i]), old(a[i]), cmp) + old(a[i + 1..])
  {
    ghost var t, x, rest := a[..i], a[i], a[i + 1..];
    var j := i;
    assert a[..] == t[..j] + [x] + t[j..] + rest by {
      assert t[..j] == t && t[j..] == [];
      assert a[..] == a[..i] + [a[i]] + a[i + 1..];
    }
    while j > 0 && cmp(a[j - 1], a[j]) > 0
      invariant 0 <= j <= i
      invariant a[..] == t[..j] + [x] + t[j..] + rest
      invariant Insert(t, x, cmp) == Insert(t[..j], x, cmp) + t[j..]
    {
      SwapShape(t, j, x, rest);
      InsertStep(t, j, x, cmp);
      Swap(a, j);
      j := j - 1;
    }
    SwapShape(t, j, x, rest);
    InsertStop(t, j, x, cmp);
  }

  /** Exchanges `a[j - 1]` and `a[j]`. */
  method Swap<T>(a: array<T>, j: int)
    requires 0 < j < a.Length
    modifies a
    ensures a[..] == old(a[..])[j - 1 := old(a[j])][j := old(a[j - 1])]
  {
    a[j - 1], a[j] := a[j], a[j - 1];
  }

  /** How one swap in `InsertAt` moves `x` one place to the left. */
  lemma SwapShape<T>(t: seq<T>, j: int, x: T, rest: seq<T>)
    requires 0 <= j <= |t|
    ensures var u := t[..j] + [x] + t[j..] + rest;
      |u| == |t| + 1 + |rest| && u[j] == x &&
      (j > 0 ==> u[j - 1] == t[j - 1] && u[j - 1 := x][j := t[j - 1]] == t[..j - 1] + [x] + t[j - 1..] + rest)
  {
    var u := t[..j] + [x] + t[j..] + rest;
    if j > 0 {
      var v := t[..j - 1] + [x] + t[j - 1..] + rest;
      assert forall k :: 0 <= k < |u| ==> u[j - 1 := x][j := t[j - 1]][k] == v[k];
    }
  }

  lemma InsertStop<T>(t: seq<T>, j: int, x: T, cmp: (T, T) -> int)
    requires 0 <= j <= |t| && (j == 0 || cmp(t[j - 1], x) <= 0)
    ensures Insert(t[..j], x, cmp) + t[j..] == t[..j] + [x] + t[j..]
  {
    assert j > 0 ==> t[..j][j - 1] == t[j - 1];
  }

  lemma InsertStep<T>(t: seq<T>, j: int, x: T, cmp: (T, T) -> int)
    requires 0 < j <= |t| && cmp(t[j - 1], x) > 0
    ensures Insert(t[..j], x, cmp) + t[j..] == Insert(t[..j - 1], x, cmp) + t[j - 1..]
  {
    assert t[..j][..j - 1] == t[..j - 1];
    assert [t[j - 1]] + t[j..] == t[j - 1..];
  }

  /** Inserting into a sorted sequence keeps it sorted. */
  lemma {:induction false} InsertSorted<T(!new)>(t: seq<T>, x: T, cmp: (T, T) -> int)
    requires Comparable(cmp) && Sorted(t, cmp)
    ensures Sorted(Insert(t, x, cmp), cmp)
  {
    if t != [] && cmp(t[|t| - 1], x) > 0 {
      var t' := t[..|t| - 1];
      InsertSorted(t', x, cmp);
      var r' := Insert(t', x, cmp);
      assert cmp(r'[|r'| - 1], t[|t| - 1]) <= 0;
    }
  }

  /** With a comparator that orders any two values, the sort's output is sorted. */
  lemma {:induction false} SortSpecSorted<T(!new)>(s: seq<T>, cmp: (T, T) -> int)
    requires Comparable(cmp)
    ensures Sorted(SortSpec(s, cmp), cmp)
  {
    if s != [] {
      SortSpecSorted(s[..|s| - 1], cmp);
      InsertSorted(SortSpec(s[..|s| - 1], cmp), s[|s| - 1], cmp);
    }
  }

  /** The elements of `s` that compare equal to `v`, in the order of `s`. */
  function Ties<T>(s: seq<T>, v: T, cmp: (T, T) -> int): seq<T>
  {
    if s == [] then []
    else Ties(s[..|s| - 1], v, cmp) + (if cmp(s[|s| - 1], v) == 0 then [s[|s| - 1]] else [])
  }

  lemma {:induction false} TiesAppend<T>(t: seq<T>, x: T, v: T, cmp: (T, T) -> int)
    ensures Ties(t + [x], v, cmp) == Ties(t, v, cmp) + (if cmp(x, v) == 0 then [x] else [])
  {
    assert (t + [x])[..|t + [x]| - 1] == t;
  }

  lemma {:induction false} InsertTies<T(!new)>(t: seq<T>, x: T, v: T, cmp: (T, T) -> int)
    requires TiesConsistent(cmp)
    ensures Ties(Insert(t, x, cmp), v, cmp) == Ties(t, v, cmp) + (if cmp(x, v) == 0 then [x] else [])
  {
    if t == [] || cmp(t[|t| - 1], x) <= 0 {
      TiesAppend(t, x, v, cmp);
    } else {
      var t', l := t[..|t| - 1], t[|t| - 1];
      InsertTies(t', x, v, cmp);
      TiesAppend(Insert(t', x, cmp), l, v, cmp);
      assert !(cmp(x, v) == 0 && cmp(l, v) == 0);
    }
  }

  /** Stability: the values that compare equal to any given value keep their input order. */
  lemma {:induction false} SortSpecStable<T(!new)>(s: seq<T>, v: T, cmp: (T, T) -> int)
    requires TiesConsistent(cmp)
    ensures Ties(SortSpec(s, cmp), v, cmp) == Ties(s, v, cmp)
  {
    if s != [] {
      SortSpecStable(s[..|s| - 1], v, cmp);
      InsertTies(SortSpec(s[..|s| - 1], cmp), s[|s| - 1], v, cmp);
    }
  }

  /** `cmp` is a total order on values: reflexive, transitive, and zero only on equal values. */
  ghost predicate TotalOrder<T(!new)>(cmp: (T, T) -> int) {
    && (forall a :: cmp(a, a) <= 0)
    && (forall a, b, c :: cmp(a, b) <= 0 && cmp(b, c) <= 0 ==> cmp(a, c) <= 0)
    && (forall a, b :: cmp(a, b) <= 0 && cmp(b, a) <= 0 ==> a == b)
  }

  /** Neighbour order implies order between any two positions when `cmp` is transitive. */
  lemma {:induction false} SortedPairs<T(!new)>(s: seq<T>, cmp: (T, T) -> int, i: int, j: int)
    requires Sorted(s, cmp) && TotalOrder(cmp)
    requires 0 <= i <= j < |s|
    ensures cmp(s[i], s[j]) <= 0
    decreases j - i
  {
    if i < j {
      SortedPairs(s, cmp, i + 1, j);
    }
  }

  lemma SortedHeads<T(!new)>(s: seq<T>, t: seq<T>, cmp: (T, T) -> int)
    requires TotalOrder(cmp)
    requires Sorted(s, cmp) && Sorted(t, cmp) && multiset(s) == multiset(t) && s != []
    ensures t != [] && s[0] == t[0]
  {
    assert t[0] in multiset(s) by { assert |t| == |multiset(t)| == |s|; }
    var k :| 0 <= k < |s| && s[k] == t[0];
    assert s[0] in multiset(t);
    var m :| 0 <= m < |t| && t[m] == s[0];
    SortedPairs(s, cmp, 0, k);
    SortedPairs(t, cmp, 0, m);
  }

  lemma TailsMultiset<T>(s: seq<T>, t: seq<T>)
    requires s != [] && t != [] && s[0] == t[0] && multiset(s) == multiset(t)
    ensures multiset(s[1..]) == multiset(t[1..])
  {
    assert s == [s[0]] + s[1..] && t == [t[0]] + t[1..];
    assert multiset(s[1..]) == multiset(s) - multiset{s[0]};
    assert multiset(t[1..]) == multiset(t) - multiset{t[0]};
  }

  /** Two sorted arrangements of the same values are the same sequence when
      `cmp` is a total order on values. */
  lemma {:induction false} SortedUnique<T(!new)>(s: seq<T>, t: seq<T>, cmp: (T, T) -> int)
    requires TotalOrder(cmp)
    requires Sorted(s, cmp) && Sorted(t, cmp) && multiset(s) == multiset(t)
    ensures s == t
    decreases |s|
  {
    if s == [] {
      assert |t| == |multiset(t)| == 0;
    } else {
      SortedHeads(s, t, cmp);
      TailsMultiset(s, t);
      assert Sorted(s[1..], cmp) && Sorted(t[1..], cmp);
      SortedUnique(s[1..], t[1..], cmp);
      assert s == [s[0]] + s[1..] && t == [t[0]] + t[1..];
    }
  }
}
