/** Failure types and the sorting facts the other modules share. */
module Prelude {

  datatype Option<+T> = None | Some(value: T)

  datatype Result<+T, +E> = Ok(value: T) | Err(error: E)

  // ---------------------------------------------------------------------
  // Sorting under a caller-supplied order
  // ---------------------------------------------------------------------

  ghost predicate TotalPreorder<T(!new)>(le: (T, T) -> bool) {
    && (forall x, y :: le(x, y) || le(y, x))
    && (forall x, y, z :: le(x, y) && le(y, z) ==> le(x, z))
  }

  ghost predicate SortedBy<T>(s: seq<T>, le: (T, T) -> bool) {
    forall i, j :: 0 <= i < j < |s| ==> le(s[i], s[j])
  }

  /** The order tells the elements of s apart, so sorting s has one outcome. */
  ghost predicate AntisymmetricOn<T>(s: seq<T>, le: (T, T) -> bool) {
    forall x, y :: x in s && y in s && le(x, y) && le(y, x) ==> x == y
  }

  function InsertBy<T>(x: T, s: seq<T>, le: (T, T) -> bool): (r: seq<T>)
    ensures multiset(r) == multiset{x} + multiset(s)
    ensures |r| == |s| + 1
  {
    if s == [] || le(x, s[0]) then
      [x] + s
    else
      assert s == [s[0]] + s[1..];
      [s[0]] + InsertBy(x, s[1..], le)
  }

  function SortBy<T>(s: seq<T>, le: (T, T) -> bool): (r: seq<T>)
    ensures multiset(r) == multiset(s)
    ensures |r| == |s|
  {
    if s == [] then [] else
      assert s == [s[0]] + s[1..];
      InsertBy(s[0], SortBy(s[1..], le), le)
  }

  lemma SameElements<T>(a: seq<T>, b: seq<T>)
    requires multiset(a) == multiset(b)
    ensures forall x :: x in a <==> x in b
  {
    forall x ensures x in a <==> x in b {
      assert x in a <==> x in multiset(a);
      assert x in b <==> x in multiset(b);
    }
  }

  lemma {:induction false} InsertKeepsSorted<T(!new)>(x: T, s: seq<T>, le: (T, T) -> bool)
    requires TotalPreorder(le) && SortedBy(s, le)
    ensures SortedBy(InsertBy(x, s, le), le)
  {
    if s == [] {
    } else if le(x, s[0]) {
      var r := InsertBy(x, s, le);
      assert r == [x] + s;
      forall j | 1 <= j < |r| ensures le(x, r[j]) {
        assert r[j] == s[j - 1];
      }
    } else {
      InsertKeepsSorted(x, s[1..], le);
      var t := InsertBy(x, s[1..], le);
      forall y | y in t ensures le(s[0], y) {
        assert y in multiset(t);
        assert y == x || y in s[1..];
      }
    }
  }

  lemma {:induction false} SortIsSorted<T(!new)>(s: seq<T>, le: (T, T) -> bool)
    requires TotalPreorder(le)
    ensures SortedBy(SortBy(s, le), le)
  {
    if s != [] {
      SortIsSorted(s[1..], le);
      InsertKeepsSorted(s[0], SortBy(s[1..], le), le);
    }
  }

  lemma TailBag<T>(a: seq<T>)
    requires a != []
    ensures multiset(a[1..]) == multiset(a) - multiset{a[0]}
  {
    assert a == [a[0]] + a[1..];
  }

  lemma SameLength<T>(a: seq<T>, b: seq<T>)
    requires multiset(a) == multiset(b)
    ensures |a| == |b|
  {
    assert |a| == |multiset(a)| && |b| == |multiset(b)|;
  }

  lemma SameHead<T(!new)>(a: seq<T>, b: seq<T>, le: (T, T) -> bool)
    requires a != [] && b != [] && multiset(a) == multiset(b)
    requires SortedBy(a, le) && SortedBy(b, le) && AntisymmetricOn(a, le)
    ensures a[0] == b[0]
  {
    SameElements(a, b);
    assert a[0] in a && b[0] in b;
    var i :| 0 <= i < |b| && b[i] == a[0];
    var j :| 0 <= j < |a| && a[j] == b[0];
    if i > 0 && j > 0 {
      assert le(b[0], b[i]) && le(a[0], a[j]);
    }
  }

  /** Two sorted arrangements of the same elements are the same sequence. */
  lemma {:induction false} SortedUnique<T(!new)>(a: seq<T>, b: seq<T>, le: (T, T) -> bool)
    requires multiset(a) == multiset(b)
    requires SortedBy(a, le) && SortedBy(b, le) && AntisymmetricOn(a, le)
    ensures a == b
  {
    SameLength(a, b);
    if a != [] {
      var s, t := a[1..], b[1..];
      SameHead(a, b, le);
      TailBag(a);
      TailBag(b);
      SortedUnique(s, t, le);
    }
  }

  // ---------------------------------------------------------------------
  // Ascending integers
  // ---------------------------------------------------------------------

  predicate IntLe(x: int, y: int) { x <= y }

  ghost predicate StrictlyAscending(s: seq<int>) {
    forall i, j :: 0 <= i < j < |s| ==> s[i] < s[j]
  }

  predicate Distinct<T(==)>(s: seq<T>) {
    forall i, j :: 0 <= i < j < |s| ==> s[i] != s[j]
  }

  lemma {:induction false} DistinctIffSingleCopies<T>(s: seq<T>)
    ensures Distinct(s) <==> forall x :: x in s ==> multiset(s)[x] == 1
  {
    if s != [] {
      var t := s[1..];
      DistinctIffSingleCopies(t);
      assert s == [s[0]] + t;
      assert multiset(s) == multiset{s[0]} + multiset(t);
      if Distinct(s) {
        assert Distinct(t);
        assert s[0] !in t;
        forall x | x in s ensures multiset(s)[x] == 1 {
          if x in t { assert multiset(t)[x] == 1; }
        }
      } else if s[0] in t {
        assert multiset(s)[s[0]] >= 2;
      } else {
        if Distinct(t) {
          forall i, j | 0 <= i < j < |s| ensures s[i] != s[j] {
            if i == 0 { assert s[j] == t[j - 1]; } else { assert s[i] == t[i - 1] && s[j] == t[j - 1]; }
          }
        }
        assert !Distinct(t);
        var x :| x in t && multiset(t)[x] != 1;
        assert x in s;
      }
    }
  }

  /** Two duplicate-free lists of the same elements are permutations of each other. */
  lemma SameMembersSameBag<T>(a: seq<T>, b: seq<T>)
    requires Distinct(a) && Distinct(b) && forall x :: x in a <==> x in b
    ensures multiset(a) == multiset(b)
  {
    DistinctIffSingleCopies(a);
    DistinctIffSingleCopies(b);
    forall x ensures multiset(a)[x] == multiset(b)[x] {
      assert x in a <==> x in multiset(a);
      assert x in b <==> x in multiset(b);
    }
  }

  /** Sorting a duplicate-free list of integers leaves it strictly ascending. */
  lemma SortIntsStrict(s: seq<int>)
    requires Distinct(s)
    ensures StrictlyAscending(SortBy(s, IntLe))
    ensures forall x :: x in SortBy(s, IntLe) <==> x in s
  {
    var r := SortBy(s, IntLe);
    SortIsSorted(s, IntLe);
    SameElements(r, s);
    DistinctIffSingleCopies(s);
    DistinctIffSingleCopies(r);
    assert Distinct(r);
  }

  /** A strictly ascending list is determined by the set of its elements. */
  lemma {:induction false} AscendingUnique(a: seq<int>, b: seq<int>)
    requires StrictlyAscending(a) && StrictlyAscending(b)
    requires forall x :: x in a <==> x in b
    ensures a == b
  {
    if a == [] {
      assert forall i :: 0 <= i < |b| ==> b[i] in b;
    } else {
      assert a[0] in a && a[0] in b;
      assert b[0] in b && b[0] in a;
      assert a[0] == b[0];
      forall x ensures x in a[1..] <==> x in b[1..] {
        if x in a[1..] { assert x in a && x != a[0]; assert x in b; }
        if x in b[1..] { assert x in b && x != b[0]; assert x in a; }
      }
      AscendingUnique(a[1..], b[1..]);
    }
  }

  /** Appending the next element of an ascending list to some of the earlier ones. */
  lemma AppendAscending(out: seq<int>, vs: seq<int>, i: nat)
    requires StrictlyAscending(out) && StrictlyAscending(vs) && i < |vs|
    requires forall x :: x in out ==> x in vs[..i]
    ensures StrictlyAscending(out + [vs[i]])
  {
    forall k | 0 <= k < |out| ensures out[k] < vs[i] {
      assert out[k] in out;
      assert out[k] in vs[..i];
    }
  }

  /** Some element of a non-empty set: the next one a Go `range` over a map yields. */
  method PickElement<T>(s: set<T>) returns (x: T)
    requires s != {}
    ensures x in s
  {
    x :| x in s;
  }

  /** List the elements of a finite set in ascending order: collect them in
      whatever order the set yields them, then sort. */
  method SortedElements(s: set<int>) returns (r: seq<int>)
    ensures StrictlyAscending(r)
    ensures forall x :: x in r <==> x in s
    ensures |r| == |s|
  {
    var rest := s;
    var out: seq<int> := [];
    while rest != {}
      invariant rest <= s
      invariant forall x :: x in out <==> x in s && x !in rest
      invariant Distinct(out)
      invariant |out| + |rest| == |s|
      decreases |rest|
    {
      var v := PickElement(rest);
      out := out + [v];
      rest := rest - {v};
    }
    SortIntsStrict(out);
    r := SortBy(out, IntLe);
  }
}
