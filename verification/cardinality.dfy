/**
 Counting facts about finite sets, used to state the sizes of the candidate
 universe and of the set of checker-outcome combinations.
 */
module Cardinality {

  /** `f` is one-to-one on `s`. */
  ghost predicate InjectiveOn<A, B>(s: set<A>, f: A -> B) {
    forall x, y :: x in s && y in s && f(x) == f(y) ==> x == y
  }

  /** The image of `s` under `f`. */
  function Image<A, B>(s: set<A>, f: A -> B): (r: set<B>)
    ensures forall x :: x in s ==> f(x) in r
    ensures forall y :: y in r ==> exists x :: x in s && f(x) == y
  {
    set x | x in s :: f(x)
  }

  /** A one-to-one map preserves the size of a finite set. */
  lemma {:induction false} InjectiveImageSize<A, B>(s: set<A>, f: A -> B)
    requires InjectiveOn(s, f)
    ensures |Image(s, f)| == |s|
    decreases |s|
  {
    if s != {} {
      var x :| x in s;
      var rest := s - {x};
      InjectiveImageSize(rest, f);
      assert Image(s, f) == Image(rest, f) + {f(x)};
      assert f(x) !in Image(rest, f);
    } else {
      assert Image(s, f) == {};
    }
  }

  /** The elements of a sequence, as a set. */
  function Elements<T>(xs: seq<T>): (r: set<T>)
    ensures forall i :: 0 <= i < |xs| ==> xs[i] in r
    ensures forall x :: x in r ==> exists i :: 0 <= i < |xs| && xs[i] == x
  {
    set i | 0 <= i < |xs| :: xs[i]
  }

  /** No element occurs twice. */
  predicate Distinct<T(==)>(xs: seq<T>) {
    forall i, j :: 0 <= i < j < |xs| ==> xs[i] != xs[j]
  }

  /** A sequence without repetitions has as many elements as its set. */
  lemma {:induction false} DistinctElementsSize<T>(xs: seq<T>)
    requires Distinct(xs)
    ensures |Elements(xs)| == |xs|
  {
    if xs != [] {
      var init := xs[..|xs| - 1];
      var last := xs[|xs| - 1];
      assert Distinct(init);
      DistinctElementsSize(init);
      assert Elements(xs) == Elements(init) + {last} by {
        forall x | x in Elements(xs) ensures x in Elements(init) + {last} {
          var i :| 0 <= i < |xs| && xs[i] == x;
          if i < |xs| - 1 {
            assert init[i] == x;
          }
        }
      }
      assert last !in Elements(init);
    } else {
      assert Elements(xs) == {};
    }
  }
}
