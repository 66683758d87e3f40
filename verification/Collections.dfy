/** Facts about finite collections used by several modules. */
module Collections {

  function Elements<T>(s: seq<T>): set<T> {
    set x | x in s
  }

  predicate Distinct<T(==)>(s: seq<T>) {
    forall i, j :: 0 <= i < j < |s| ==> s[i] != s[j]
  }

  lemma SubsetCardinality<T>(small: set<T>, large: set<T>)
    requires small <= large
    ensures |small| <= |large|
    ensures |small| == |large| ==> small == large
  {
    assert large == small + (large - small);
  }

  /** `len(set(s)) == len(s)` says exactly that s repeats nothing. */
  lemma {:induction false} ElementsOfSeq<T>(s: seq<T>)
    ensures |Elements(s)| <= |s|
    ensures |Elements(s)| == |s| <==> Distinct(s)
  {
    if s == [] {
      assert Elements(s) == {};
    } else {
      var init, last := s[..|s| - 1], s[|s| - 1];
      ElementsOfSeq(init);
      assert s == init + [last];
      assert Elements(s) == Elements(init) + {last};
      if last in init {
        assert Elements(s) == Elements(init);
        var i :| 0 <= i < |init| && init[i] == last;
        assert s[i] == s[|s| - 1];
      } else {
        assert |Elements(s)| == |Elements(init)| + 1;
        assert Distinct(s) <==> Distinct(init) by {
          if Distinct(s) {
            forall i, j | 0 <= i < j < |init| ensures init[i] != init[j] { assert s[i] != s[j]; }
          }
          if Distinct(init) {
            forall i, j | 0 <= i < j < |s| ensures s[i] != s[j] {
              if j < |init| { assert init[i] != init[j]; } else { assert init[i] in init; }
            }
          }
        }
      }
    }
  }

  /** `sum(keep(x) for x in s)`. */
  function Count<T>(s: seq<T>, keep: T -> bool): (n: nat)
    ensures n <= |s|
  {
    if s == [] then 0 else Count(s[..|s| - 1], keep) + if keep(s[|s| - 1]) then 1 else 0
  }

  lemma {:induction false} CountExtremes<T>(s: seq<T>, keep: T -> bool)
    ensures Count(s, keep) == 0 <==> forall i :: 0 <= i < |s| ==> !keep(s[i])
    ensures Count(s, keep) == |s| <==> forall i :: 0 <= i < |s| ==> keep(s[i])
  {
    if s != [] { CountExtremes(s[..|s| - 1], keep); }
  }

  lemma ConcatAssociates<T>(a: seq<T>, b: seq<T>, c: seq<T>)
    ensures a + (b + c) == (a + b) + c
  {
  }

  /** The images of the elements, concatenated. */
  function FlatMap<S, T>(s: seq<S>, f: S -> seq<T>): seq<T> {
    if s == [] then [] else f(s[0]) + FlatMap(s[1..], f)
  }

  lemma FlatMapCons<S, T>(x: S, s: seq<S>, f: S -> seq<T>)
    ensures FlatMap([x] + s, f) == f(x) + FlatMap(s, f)
  {
    assert ([x] + s)[1..] == s;
  }

  lemma {:induction false} FlatMapAppend<S, T>(s: seq<S>, t: seq<S>, f: S -> seq<T>)
    ensures FlatMap(s + t, f) == FlatMap(s, f) + FlatMap(t, f)
  {
    if s == [] {
      assert s + t == t;
    } else {
      var first, rest := s[0], s[1..];
      FlatMapAppend(rest, t, f);
      FlatMapCons(first, rest + t, f);
      ConcatAssociates([first], rest, t);
      assert s == [first] + rest;
      ConcatAssociates(f(first), FlatMap(rest, f), FlatMap(t, f));
    }
  }

  lemma {:induction false} FlatMapUnits<T>(s: seq<T>, f: T -> seq<T>)
    requires forall i :: 0 <= i < |s| ==> f(s[i]) == [s[i]]
    ensures FlatMap(s, f) == s
  {
    if s != [] { FlatMapUnits(s[1..], f); }
  }

  lemma FlatMapAt<S, T>(s: seq<S>, n: nat, f: S -> seq<T>)
    requires n < |s|
    ensures FlatMap(s, f) == FlatMap(s[..n], f) + (f(s[n]) + FlatMap(s[n + 1..], f))
  {
    assert s == s[..n] + s[n..];
    FlatMapAppend(s[..n], s[n..], f);
    assert s[n..][1..] == s[n + 1..];
  }

  lemma FlatMapOne<S, T>(x: S, f: S -> seq<T>)
    ensures FlatMap([x], f) == f(x)
  {
    assert [x][1..] == [];
  }

  /** `[x for x in s if keep(x)]`. */
  function Filter<T(!new)>(s: seq<T>, keep: T -> bool): (r: seq<T>)
    ensures forall x :: x in r <==> x in s && keep(x)
  {
    if s == [] then []
    else
      assert s == s[..|s| - 1] + [s[|s| - 1]];
      Filter(s[..|s| - 1], keep) + if keep(s[|s| - 1]) then [s[|s| - 1]] else []
  }

  lemma FilterStep<T(!new)>(s: seq<T>, n: nat, keep: T -> bool)
    requires n < |s|
    ensures Filter(s[..n + 1], keep) == Filter(s[..n], keep) + if keep(s[n]) then [s[n]] else []
  {
    assert s[..n + 1][..n] == s[..n];
  }

  lemma FilterSnoc<T(!new)>(s: seq<T>, x: T, keep: T -> bool)
    ensures Filter(s + [x], keep) == Filter(s, keep) + if keep(x) then [x] else []
  {
    assert (s + [x])[..|s|] == s;
  }

  lemma {:induction false} FilterAppend<T(!new)>(s: seq<T>, t: seq<T>, keep: T -> bool)
    ensures Filter(s + t, keep) == Filter(s, keep) + Filter(t, keep)
  {
    if t == [] {
      assert s + t == s;
    } else {
      var init, last := t[..|t| - 1], t[|t| - 1];
      FilterAppend(s, init, keep);
      FilterSnoc(s + init, last, keep);
      ConcatAssociates(s, init, [last]);
      assert t == init + [last];
      ConcatAssociates(Filter(s, keep), Filter(init, keep), if keep(last) then [last] else []);
    }
  }

  lemma FilterOne<T(!new)>(x: T, keep: T -> bool)
    ensures Filter([x], keep) == if keep(x) then [x] else []
  {
    assert [x][..0] == [];
  }

  lemma FilterTwo<T(!new)>(a: T, b: T, keep: T -> bool)
    ensures Filter([a, b], keep) == (if keep(a) then [a] else []) + (if keep(b) then [b] else [])
  {
    FilterOne(a, keep);
    FilterOne(b, keep);
    FilterAppend([a], [b], keep);
    assert [a, b] == [a] + [b];
  }

  lemma {:induction false} FilterCount<T(!new)>(s: seq<T>, keep: T -> bool, x: T)
    ensures multiset(Filter(s, keep))[x] == if keep(x) then multiset(s)[x] else 0
  {
    if s != [] {
      var init, last := s[..|s| - 1], s[|s| - 1];
      FilterCount(init, keep, x);
      assert s == init + [last];
    }
  }

  /** The distinct elements in the order of their first occurrences, as a dictionary keeps its keys. */
  function FirstOccurrences<T(!new, ==)>(s: seq<T>): (keys: seq<T>)
    ensures Distinct(keys) && forall x :: x in keys <==> x in s
  {
    if s == [] then []
    else
      var keys := FirstOccurrences(s[..|s| - 1]);
      assert s == s[..|s| - 1] + [s[|s| - 1]];
      if s[|s| - 1] in keys then keys else keys + [s[|s| - 1]]
  }

  lemma FirstOccurrencesOfTwo<T(!new)>(a: T, b: T)
    requires a != b
    ensures FirstOccurrences([a]) == [a] && FirstOccurrences([a, b]) == [a, b]
  {
    assert [a][..0] == [];
    assert FirstOccurrences([a][..0]) == [];
    assert [a, b][..1] == [a];
  }
}
