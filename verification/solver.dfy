/**
 The solver constructor (include/solver.h): choosing the checkers and their
 largest grade, building the candidate set from an enumeration of 3-digit
 words, and `compute_potential_checkers`, which lists every combination of
 branch indices the chosen checkers' grades allow, one character per checker.

 The console reads of the C++ constructor become an input sequence of ids,
 and the `combinatorics::enumerator` words become parameters.
 */
module Solver {
  import opened Wrappers
  import opened Candidates
  import opened Checkers
  import opened Catalog
  import opened PotentialCheckers
  import opened Cardinality

  // ---------------------------------------------------------------------
  // Checker selection
  // ---------------------------------------------------------------------

  /** The chosen checkers, in input order, and the largest of their grades. */
  datatype Selection = Selection(checkers: seq<Checker>, maxGrade: nat)

  /** How many checkers the do-while loop takes: at least one. */
  function SelectionCount(nbCheckers: nat): nat {
    if nbCheckers == 0 then 1 else nbCheckers
  }

  /** The largest grade among `checkers`, folded from the left; 0 when there is none. */
  function MaxGrade(checkers: seq<Checker>): (m: nat)
    ensures forall i :: 0 <= i < |checkers| ==> checkers[i].Grade() <= m
    ensures |checkers| > 0 ==> exists i :: 0 <= i < |checkers| && checkers[i].Grade() == m
    ensures |checkers| == 0 ==> m == 0
  {
    if |checkers| == 0 then 0
    else
      var m := MaxGrade(checkers[..|checkers| - 1]);
      var g := checkers[|checkers| - 1].Grade();
      if m < g then g else m
  }

  /** The input supplies enough ids for the selection loop, and all of them are registered. */
  predicate Selectable(catalog: CheckerMap, input: seq<nat>, nbCheckers: nat) {
    && |input| >= SelectionCount(nbCheckers)
    && forall i :: 0 <= i < SelectionCount(nbCheckers) ==> input[i] in catalog
  }

  /**
   Selection stops at position `k` with error `e`: the ids before `k` are
   registered, and at `k` either the input is exhausted or the id is unknown.
   */
  predicate StopsAt(catalog: CheckerMap, input: seq<nat>, k: nat, e: Error) {
    && k <= |input|
    && (forall j :: 0 <= j < k ==> input[j] in catalog)
    && (if k == |input| then e == InputExhausted else input[k] !in catalog && e == NoChecker(input[k]))
  }

  /**
   The checker-selection loop: reads ids one at a time, looks each up (an
   unknown id throws) and keeps the running maximum grade, until at least
   `nbCheckers` checkers, and never fewer than one, have been taken. An input
   that runs out before that is an error.
   */
  method SelectCheckers(catalog: CheckerMap, input: seq<nat>, nbCheckers: nat) returns (r: Result<Selection>)
    ensures r.Ok? <==> Selectable(catalog, input, nbCheckers)
    ensures r.Ok? ==> |r.value.checkers| == SelectionCount(nbCheckers)
    ensures r.Ok? ==> forall i :: 0 <= i < |r.value.checkers| ==> r.value.checkers[i] == catalog[input[i]]
    ensures r.Ok? ==> r.value.maxGrade == MaxGrade(r.value.checkers)
    ensures r.Err? ==> exists k: nat :: k < SelectionCount(nbCheckers) && StopsAt(catalog, input, k, r.error)
  {
    var checkers: seq<Checker> := [];
    var maxGrade := 0;
    while |checkers| == 0 || |checkers| < nbCheckers
      invariant |checkers| <= SelectionCount(nbCheckers)
      invariant |checkers| <= |input|
      invariant forall i :: 0 <= i < |checkers| ==> input[i] in catalog && checkers[i] == catalog[input[i]]
      invariant maxGrade == MaxGrade(checkers)
      decreases SelectionCount(nbCheckers) - |checkers|
    {
      var k := |checkers|;
      if k == |input| {
        assert StopsAt(catalog, input, k, InputExhausted);
        return Err(InputExhausted);
      }
      var found := GetChecker(catalog, input[k]);
      if found.Err? {
        assert StopsAt(catalog, input, k, found.error);
        return Err(found.error);
      }
      var ch := found.value;
      assert (checkers + [ch])[..k] == checkers;
      checkers := checkers + [ch];
      if maxGrade < ch.Grade() {
        maxGrade := ch.Grade();
      }
    }
    r := Ok(Selection(checkers, maxGrade));
  }

  // ---------------------------------------------------------------------
  // The candidate set
  // ---------------------------------------------------------------------

  /** The candidate built from a 3-digit enumerator word. */
  function WordCandidate(w: seq<nat>): Result<Candidate>
    requires |w| == 3
  {
    MakeCandidate(w[0], w[1], w[2])
  }

  /**
   Inserts the candidate of every enumerated word, in order; the first word
   with a digit outside [1,5] throws from the candidate constructor.
   */
  function BuildCandidates(words: seq<seq<nat>>): (r: Result<set<Candidate>>)
    requires forall k :: 0 <= k < |words| ==> |words[k]| == 3
    ensures r.Ok? <==> forall k :: 0 <= k < |words| ==> WordCandidate(words[k]).Ok?
    ensures r.Ok? ==> forall c :: c in r.value <==>
              exists k :: 0 <= k < |words| && c == Candidate(words[k][0], words[k][1], words[k][2])
    ensures r.Err? ==> (exists k :: 0 <= k < |words| && WordCandidate(words[k]).Err?
                          && r.error == WordCandidate(words[k]).error
                          && forall j :: 0 <= j < k ==> WordCandidate(words[j]).Ok?)
  {
    if |words| == 0 then Ok({})
    else
      var c :- WordCandidate(words[0]);
      var rest := BuildCandidates(words[1..]);
      if rest.Err? then
        var k :| 0 <= k < |words[1..]| && WordCandidate(words[1..][k]).Err?
                 && rest.error == WordCandidate(words[1..][k]).error
                 && forall j :: 0 <= j < k ==> WordCandidate(words[1..][j]).Ok?;
        assert words[1..][k] == words[k + 1];
        assert forall j :: 0 <= j < k + 1 ==> WordCandidate(words[j]).Ok? by {
          forall j | 0 <= j < k + 1 ensures WordCandidate(words[j]).Ok? {
            if j > 0 {
              assert words[1..][j - 1] == words[j];
            }
          }
        }
        Err(rest.error)
      else
        assert forall k :: 0 <= k < |words| ==> WordCandidate(words[k]).Ok? by {
          forall k | 0 <= k < |words| ensures WordCandidate(words[k]).Ok? {
            if k > 0 {
              assert words[1..][k - 1] == words[k];
            }
          }
        }
        assert forall x :: x in rest.value + {c} <==>
            exists k :: 0 <= k < |words| && x == Candidate(words[k][0], words[k][1], words[k][2]) by {
          forall x ensures x in rest.value + {c} <==>
              exists k :: 0 <= k < |words| && x == Candidate(words[k][0], words[k][1], words[k][2]) {
            if x in rest.value {
              var k :| 0 <= k < |words[1..]| && x == Candidate(words[1..][k][0], words[1..][k][1], words[1..][k][2]);
              assert words[1..][k] == words[k + 1];
            }
            if exists k :: 0 <= k < |words| && x == Candidate(words[k][0], words[k][1], words[k][2]) {
              var k :| 0 <= k < |words| && x == Candidate(words[k][0], words[k][1], words[k][2]);
              if k > 0 {
                assert words[1..][k - 1] == words[k];
              }
            }
          }
        }
        Ok(rest.value + {c})
  }

  /** Every valid candidate: the 125 triples over [1,5]. */
  function Universe(): (u: set<Candidate>)
    ensures forall c :: c in u <==> Valid(c)
  {
    set b: nat, y: nat, p: nat | 1 <= b <= 5 && 1 <= y <= 5 && 1 <= p <= 5 :: Candidate(b, y, p)
  }

  /** The `i`-th valid candidate in increasing order. */
  function CandidateAt(i: nat): Candidate {
    Candidate(i / 25 + 1, (i / 5) % 5 + 1, i % 5 + 1)
  }

  /** The position of a valid candidate in increasing order. */
  function PositionOf(c: Candidate): int {
    25 * (c.blueTriangle - 1) + 5 * (c.yellowSquare - 1) + (c.purpleCircle - 1)
  }

  lemma PositionOfCandidateAt(i: nat)
    requires i < 125
    ensures PositionOf(CandidateAt(i)) == i
  {
    var q := i / 5;
    assert i == 5 * q + i % 5;
    assert q == 5 * (q / 5) + q % 5;
    DivModUnique(i, 25, q / 5, 5 * (q % 5) + i % 5);
  }

  lemma CandidateAtPositionOf(c: Candidate)
    requires Valid(c)
    ensures 0 <= PositionOf(c) < 125 && CandidateAt(PositionOf(c)) == c
  {
    var b, y, p := c.blueTriangle - 1, c.yellowSquare - 1, c.purpleCircle - 1;
    var i := PositionOf(c);
    DivModUnique(i, 25, b, 5 * y + p);
    DivModUnique(i, 5, 5 * b + y, p);
    DivModUnique(5 * b + y, 5, b, y);
  }

  /** The candidate universe has exactly 125 members. */
  lemma UniverseSize()
    ensures |Universe()| == 125
  {
    var all := seq(125, i requires 0 <= i < 125 => CandidateAt(i));
    assert Distinct(all) by {
      forall i, j | 0 <= i < j < 125 ensures all[i] != all[j] {
        PositionOfCandidateAt(i);
        PositionOfCandidateAt(j);
      }
    }
    DistinctElementsSize(all);
    assert Elements(all) == Universe() by {
      forall c ensures c in Elements(all) <==> Valid(c) {
        if Valid(c) {
          CandidateAtPositionOf(c);
          assert all[PositionOf(c)] == c;
        }
      }
    }
  }

  /** A 3-digit word with every digit in [1,5]. */
  predicate IsCandidateWord(w: seq<nat>) {
    |w| == 3 && InRange(w[0]) && InRange(w[1]) && InRange(w[2])
  }

  /**
   When the enumeration yields every 3-digit word over [1,5] and nothing
   else, the candidate set is the whole universe of 125 candidates.
   */
  lemma CandidateEnumerationGivesUniverse(words: seq<seq<nat>>)
    requires forall k :: 0 <= k < |words| ==> |words[k]| == 3
    requires forall k :: 0 <= k < |words| ==> IsCandidateWord(words[k])
    requires forall w :: IsCandidateWord(w) ==> w in words
    ensures BuildCandidates(words) == Ok(Universe())
    ensures |BuildCandidates(words).value| == 125
  {
    var r := BuildCandidates(words);
    assert r.Ok?;
    forall c ensures c in r.value <==> Valid(c) {
      if Valid(c) {
        var w := [c.blueTriangle, c.yellowSquare, c.purpleCircle];
        assert IsCandidateWord(w);
        var k :| 0 <= k < |words| && words[k] == w;
        assert c == Candidate(words[k][0], words[k][1], words[k][2]);
      }
    }
    assert r.value == Universe();
    UniverseSize();
  }

  // ---------------------------------------------------------------------
  // compute_potential_checkers
  // ---------------------------------------------------------------------

  /** `get_word_item(i) - 1` in 32-bit unsigned arithmetic: a 0 item wraps to the largest value. */
  function FuncIndex(item: nat): nat {
    (item + 0xFFFF_FFFF) % 0x1_0000_0000
  }

  /** `static_cast<char>('0' + k)`: the code is truncated to 8 bits. */
  function EncodeIndex(k: nat): char {
    ((48 + k) % 256) as char
  }

  /** A word is kept when each item, less one, is a branch index of its checker. */
  predicate Keeps(checkers: seq<Checker>, w: seq<nat>)
    requires |w| == |checkers|
  {
    forall i :: 0 <= i < |w| ==> FuncIndex(w[i]) < checkers[i].Grade()
  }

  /** The characters of a sequence of branch indices. */
  function IndexString(t: seq<nat>): (s: string)
    ensures |s| == |t|
  {
    seq(|t|, i requires 0 <= i < |t| => EncodeIndex(t[i]))
  }

  /** The branch indices a word stands for. */
  function WordIndices(w: seq<nat>): (t: seq<nat>)
    ensures |t| == |w|
  {
    seq(|w|, i requires 0 <= i < |w| => FuncIndex(w[i]))
  }

  /** The string recorded for a kept word. */
  function Encoding(w: seq<nat>): string {
    IndexString(WordIndices(w))
  }

  /** The strings of the kept words. */
  function Kept(checkers: seq<Checker>, words: seq<seq<nat>>): set<string>
    requires forall k :: 0 <= k < |words| ==> |words[k]| == |checkers|
  {
    set k | 0 <= k < |words| && Keeps(checkers, words[k]) :: Encoding(words[k])
  }

  /**
   The loop over the checkers for one word: stops at the first item that is
   not a branch index of its checker, otherwise appends one character per
   checker.
   */
  method EncodeWord(checkers: seq<Checker>, w: seq<nat>) returns (ok: bool, s: string)
    requires |w| == |checkers|
    ensures ok <==> Keeps(checkers, w)
    ensures ok ==> |s| == |checkers|
    ensures ok ==> forall i :: 0 <= i < |s| ==> s[i] == EncodeIndex(FuncIndex(w[i]))
  {
    ok := true;
    s := "";
    var index := 0;
    while index < |checkers|
      invariant index <= |checkers|
      invariant |s| == index
      invariant forall i :: 0 <= i < index ==> FuncIndex(w[i]) < checkers[i].Grade()
      invariant forall i :: 0 <= i < index ==> s[i] == EncodeIndex(FuncIndex(w[i]))
    {
      var funcIndex := FuncIndex(w[index]);
      if funcIndex < checkers[index].Grade() {
        s := s + [EncodeIndex(funcIndex)];
      } else {
        ok := false;
        break;
      }
      index := index + 1;
    }
  }

  /**
   `compute_potential_checkers`: the set of strings of the enumerated words
   that every chosen checker can produce. The words are those of the
   enumerator, each with one item per checker.
   */
  method ComputePotentialCheckers(checkers: seq<Checker>, words: seq<seq<nat>>) returns (r: set<string>)
    requires forall k :: 0 <= k < |words| ==> |words[k]| == |checkers|
    ensures r == Kept(checkers, words)
  {
    r := {};
    var n := 0;
    while n < |words|
      invariant n <= |words|
      invariant r == set k | 0 <= k < n && Keeps(checkers, words[k]) :: Encoding(words[k])
    {
      var ok, s := EncodeWord(checkers, words[n]);
      if ok {
        assert s == Encoding(words[n]);
        r := r + {s};
      }
      n := n + 1;
    }
  }

  // ---------------------------------------------------------------------
  // The Cartesian product of the branch ranges
  // ---------------------------------------------------------------------

  /** The grades of the chosen checkers. */
  function Grades(checkers: seq<Checker>): (g: seq<nat>)
    ensures |g| == |checkers|
    ensures forall i :: 0 <= i < |g| ==> g[i] == checkers[i].Grade()
  {
    seq(|checkers|, i requires 0 <= i < |checkers| => checkers[i].Grade())
  }

  /** Every tuple of branch indices below the given grades. */
  function IndexTuples(grades: seq<nat>): set<seq<nat>>
    decreases |grades|
  {
    if |grades| == 0 then {[]} else Layer(grades[0], IndexTuples(grades[1..]))
  }

  /** The tuples `[k] + t` for `k < g` and `t` in `tails`. */
  function Layer(g: nat, tails: set<seq<nat>>): set<seq<nat>> {
    set k: nat, t | k < g && t in tails :: [k] + t
  }

  /** The product of the grades. */
  function Product(grades: seq<nat>): nat {
    if |grades| == 0 then 1 else grades[0] * Product(grades[1..])
  }

  /** A tuple of branch indices, each below its grade. */
  predicate IsIndexTuple(grades: seq<nat>, t: seq<nat>) {
    |t| == |grades| && forall i :: 0 <= i < |t| ==> t[i] < grades[i]
  }

  lemma {:induction false} IndexTuplesMembers(grades: seq<nat>, t: seq<nat>)
    ensures t in IndexTuples(grades) <==> IsIndexTuple(grades, t)
    decreases |grades|
  {
    if |grades| > 0 {
      if |t| > 0 {
        IndexTuplesMembers(grades[1..], t[1..]);
        assert t == [t[0]] + t[1..];
        if t in IndexTuples(grades) {
          var k: nat, u :| k < grades[0] && u in IndexTuples(grades[1..]) && t == [k] + u;
          assert u == t[1..];
        }
        if IsIndexTuple(grades, t) {
          assert IsIndexTuple(grades[1..], t[1..]);
        }
      } else {
        assert forall u :: u in Layer(grades[0], IndexTuples(grades[1..])) ==> |u| > 0;
      }
    }
  }

  /** The tuples `[k] + t` for `t` in `tails`. */
  function WithHead(k: nat, tails: set<seq<nat>>): set<seq<nat>> {
    set t | t in tails :: [k] + t
  }

  /** Putting the same head in front of distinct tails keeps them distinct. */
  lemma WithHeadSize(k: nat, tails: set<seq<nat>>)
    ensures |WithHead(k, tails)| == |tails|
  {
    var f := (t: seq<nat>) => [k] + t;
    assert InjectiveOn(tails, f) by {
      forall t, u | t in tails && u in tails && f(t) == f(u) ensures t == u {
        assert t == f(t)[1..];
        assert u == f(u)[1..];
      }
    }
    InjectiveImageSize(tails, f);
    assert Image(tails, f) == WithHead(k, tails);
  }

  /** One layer of a product holds `g` disjoint copies of the tails. */
  lemma {:induction false} LayerSize(g: nat, tails: set<seq<nat>>)
    ensures |Layer(g, tails)| == g * |tails|
  {
    if g > 0 {
      var h := g - 1;
      LayerSize(h, tails);
      WithHeadSize(h, tails);
      LayerSplit(g, tails);
      LayerDisjoint(h, tails);
      DisjointUnionSize(Layer(h, tails), WithHead(h, tails));
      MulSucc(h, |tails|);
    } else {
      assert Layer(g, tails) == {};
    }
  }

  /** No tuple of the layer for `h` starts with `h`. */
  lemma LayerDisjoint(h: nat, tails: set<seq<nat>>)
    ensures Layer(h, tails) !! WithHead(h, tails)
  {
    forall x | x in WithHead(h, tails) ensures x !in Layer(h, tails) {
      if x in Layer(h, tails) {
        LayerHead(h, tails, x);
      }
    }
  }

  lemma DisjointUnionSize<T>(a: set<T>, b: set<T>)
    requires a !! b
    ensures |a + b| == |a| + |b|
  {
    assert a * b == {};
  }

  lemma MulSucc(h: nat, n: nat)
    ensures h * n + n == (h + 1) * n
  {
  }

  /** Every tuple of a layer starts with an index below its grade. */
  lemma LayerHead(g: nat, tails: set<seq<nat>>, x: seq<nat>)
    requires x in Layer(g, tails)
    ensures |x| > 0 && x[0] < g
  {
    var k: nat, t :| k < g && t in tails && x == [k] + t;
  }

  /** The layer for grade `g` adds the tuples starting with `g - 1` to the layer for `g - 1`. */
  lemma LayerSplit(g: nat, tails: set<seq<nat>>)
    requires g > 0
    ensures Layer(g, tails) == Layer(g - 1, tails) + WithHead(g - 1, tails)
  {
    forall x | x in Layer(g, tails) ensures x in Layer(g - 1, tails) + WithHead(g - 1, tails) {
      var k: nat, t :| k < g && t in tails && x == [k] + t;
      if k < g - 1 {
        assert x in Layer(g - 1, tails);
      } else {
        assert x in WithHead(g - 1, tails);
      }
    }
    forall x | x in Layer(g - 1, tails) + WithHead(g - 1, tails) ensures x in Layer(g, tails) {
      if x in WithHead(g - 1, tails) {
        var t :| t in tails && [g - 1] + t == x;
      } else {
        var k: nat, t :| k < g - 1 && t in tails && x == [k] + t;
      }
    }
  }

  /** The Cartesian product has as many tuples as the product of the grades. */
  lemma {:induction false} IndexTuplesSize(grades: seq<nat>)
    ensures |IndexTuples(grades)| == Product(grades)
    decreases |grades|
  {
    if |grades| > 0 {
      IndexTuplesSize(grades[1..]);
      LayerSize(grades[0], IndexTuples(grades[1..]));
    }
  }

  /** A word over [1,max] of the given length. */
  predicate IsWord(w: seq<nat>, n: nat, max: nat) {
    |w| == n && forall i :: 0 <= i < n ==> 1 <= w[i] <= max
  }

  /** An item one above a small index reads back as that index. */
  lemma FuncIndexOfSuccessor(x: nat)
    requires x < 0xFFFF_FFFF
    ensures FuncIndex(x + 1) == x
  {
    DivModUnique(x + 0x1_0000_0000, 0x1_0000_0000, 1, x);
  }

  /** The indices of a kept word are a tuple of the product. */
  lemma KeptWordIsTuple(checkers: seq<Checker>, w: seq<nat>)
    requires |w| == |checkers| && Keeps(checkers, w)
    ensures WordIndices(w) in IndexTuples(Grades(checkers))
  {
    IndexTuplesMembers(Grades(checkers), WordIndices(w));
  }

  /** Every tuple of the product is the indices of a kept word over [1,max]. */
  lemma TupleIsKeptWord(checkers: seq<Checker>, max: nat, t: seq<nat>) returns (w: seq<nat>)
    requires forall i :: 0 <= i < |checkers| ==> checkers[i].Grade() <= max
    requires forall i :: 0 <= i < |checkers| ==> checkers[i].Grade() <= 10
    requires t in IndexTuples(Grades(checkers))
    ensures IsWord(w, |checkers|, max) && Keeps(checkers, w) && WordIndices(w) == t
  {
    IndexTuplesMembers(Grades(checkers), t);
    w := seq(|t|, i requires 0 <= i < |t| => t[i] + 1);
    forall i | 0 <= i < |t| ensures WordIndices(w)[i] == t[i] {
      FuncIndexOfSuccessor(t[i]);
    }
  }

  /** With grades of at most 10, distinct tuples give distinct strings. */
  lemma IndexStringInjective(grades: seq<nat>)
    requires forall i :: 0 <= i < |grades| ==> grades[i] <= 10
    ensures InjectiveOn(IndexTuples(grades), IndexString)
  {
    forall t, u | t in IndexTuples(grades) && u in IndexTuples(grades) && IndexString(t) == IndexString(u)
      ensures t == u
    {
      IndexTuplesMembers(grades, t);
      IndexTuplesMembers(grades, u);
      assert |t| == |u|;
      forall i | 0 <= i < |t| ensures t[i] == u[i] {
        assert IndexString(t)[i] == IndexString(u)[i];
        EncodeIndexInjective(t[i], u[i]);
      }
    }
  }

  /** Below 208 the character of an index is `'0' + index`, so it determines the index. */
  lemma EncodeIndexInjective(a: nat, b: nat)
    requires a < 208 && b < 208
    ensures EncodeIndex(a) == EncodeIndex(b) ==> a == b
  {
    DivModUnique(48 + a, 256, 0, 48 + a);
    DivModUnique(48 + b, 256, 0, 48 + b);
  }

  /**
   When the enumerator yields every word over [1,max] with one item per
   checker and nothing else, and `max` is at least every grade, the result of
   `compute_potential_checkers` is the Cartesian product of the ranges
   [0, grade) written one digit per checker, and it has as many strings as the
   product of the grades.
   */
  lemma FullEnumeration(checkers: seq<Checker>, words: seq<seq<nat>>, max: nat)
    requires forall k :: 0 <= k < |words| ==> |words[k]| == |checkers|
    requires forall k :: 0 <= k < |words| ==> IsWord(words[k], |checkers|, max)
    requires forall w :: IsWord(w, |checkers|, max) ==> w in words
    requires forall i :: 0 <= i < |checkers| ==> checkers[i].Grade() <= max
    requires forall i :: 0 <= i < |checkers| ==> checkers[i].Grade() <= 10
    ensures Kept(checkers, words) == Image(IndexTuples(Grades(checkers)), IndexString)
    ensures |Kept(checkers, words)| == Product(Grades(checkers))
  {
    var kept := Kept(checkers, words);
    var tuples := IndexTuples(Grades(checkers));
    forall s | s in kept ensures s in Image(tuples, IndexString) {
      var k :| 0 <= k < |words| && Keeps(checkers, words[k]) && s == Encoding(words[k]);
      KeptWordIsTuple(checkers, words[k]);
    }
    forall s | s in Image(tuples, IndexString) ensures s in kept {
      var t :| t in tuples && IndexString(t) == s;
      var w := TupleIsKeptWord(checkers, max, t);
      var k :| 0 <= k < |words| && words[k] == w;
      assert Encoding(words[k]) == s;
    }
    IndexStringInjective(Grades(checkers));
    InjectiveImageSize(tuples, IndexString);
    IndexTuplesSize(Grades(checkers));
  }

  /** A kept string is the rendering of the signature whose slots are the singleton branch indices. */
  lemma EncodingIsRendering(t: seq<nat>)
    requires forall i :: 0 <= i < |t| ==> t[i] < 10
    ensures IndexString(t) == Render(Signature(seq(|t|, i requires 0 <= i < |t| => [t[i]])))
  {
    var sig := Signature(seq(|t|, i requires 0 <= i < |t| => [t[i]]));
    RenderSingletons(sig);
  }

  // ---------------------------------------------------------------------
  // The constructor
  // ---------------------------------------------------------------------

  /** The state a constructed solver holds. */
  datatype SolverState = SolverState(checkers: seq<Checker>, candidates: set<Candidate>, potentialCheckers: set<string>)

  /**
   The solver constructor: fills the catalog if it is empty, selects the
   checkers, builds the candidate set and computes the potential checker
   combinations with the largest grade. Returns the catalog as left by the
   registration, which happens even when a later step throws.
   */
  method NewSolver(catalog: CheckerMap, nbCheckers: nat, input: seq<nat>,
                   candidateWords: seq<seq<nat>>, checkerWords: seq<seq<nat>>)
    returns (r: Result<SolverState>, registered: CheckerMap)
    requires forall k :: 0 <= k < |candidateWords| ==> |candidateWords[k]| == 3
    requires forall k :: 0 <= k < |checkerWords| ==> |checkerWords[k]| == SelectionCount(nbCheckers)
    ensures |registered| > 0
    ensures |catalog| > 0 ==> registered == catalog
    ensures |catalog| == 0 ==> registered == AllCheckers()
    ensures r.Ok? ==> |r.value.checkers| == SelectionCount(nbCheckers)
    ensures r.Ok? ==> |input| >= |r.value.checkers|
    ensures r.Ok? ==> forall i :: 0 <= i < |r.value.checkers| ==>
                        input[i] in registered && r.value.checkers[i] == registered[input[i]]
    ensures r.Ok? ==> BuildCandidates(candidateWords) == Ok(r.value.candidates)
    ensures r.Ok? ==> r.value.potentialCheckers == Kept(r.value.checkers, checkerWords)
    ensures r.Ok? <==> Selectable(registered, input, nbCheckers) && BuildCandidates(candidateWords).Ok?
    ensures r.Err? && !Selectable(registered, input, nbCheckers) ==>
              exists k: nat :: k < SelectionCount(nbCheckers) && StopsAt(registered, input, k, r.error)
    ensures r.Err? && Selectable(registered, input, nbCheckers) ==> r.error == BuildCandidates(candidateWords).error
  {
    registered := EnsureRegistered(catalog);
    var selection :- SelectCheckers(registered, input, nbCheckers);
    var candidates :- BuildCandidates(candidateWords);
    var potential := ComputePotentialCheckers(selection.checkers, checkerWords);
    r := Ok(SolverState(selection.checkers, candidates, potential));
  }
}
