/**
 The checker catalog of the solver (include/solver.h): the seven registered
 checkers, registration and lookup. The C++ code keeps the catalog in a
 static map filled on first use; here it is an explicit immutable map value.
 */
module Catalog {
  import opened Wrappers
  import opened Candidates
  import opened Checkers

  /** The registered checkers, keyed by id. */
  type CheckerMap = map<nat, Checker>

  /** Every entry is stored under its own id, as `register_checker` files it. */
  predicate KeyedById(cat: CheckerMap) {
    forall k :: k in cat ==> cat[k].id == k
  }

  /**
   `register_checker`: the C++ `assert` that the id is not yet present is a
   precondition; the checker is then added under its id and nothing else
   changes.
   */
  function Register(cat: CheckerMap, ch: Checker): (r: CheckerMap)
    requires ch.id !in cat
    ensures r.Keys == cat.Keys + {ch.id}
    ensures r[ch.id] == ch
    ensures forall k :: k in cat ==> r[k] == cat[k]
    ensures KeyedById(cat) ==> KeyedById(r)
  {
    cat[ch.id := ch]
  }

  /** `get_checker`: throws for an unregistered id, otherwise returns the registered checker. */
  function GetChecker(cat: CheckerMap, id: nat): (r: Result<Checker>)
    ensures r.Err? <==> id !in cat
    ensures r.Err? ==> r.error == NoChecker(id)
    ensures r.Ok? ==> r.value == cat[id]
  {
    if id in cat then Ok(cat[id]) else Err(NoChecker(id))
  }

  /** Looking up a freshly registered id finds the new checker; every other lookup is unaffected. */
  lemma RegisterThenGet(cat: CheckerMap, ch: Checker, id: nat)
    requires ch.id !in cat
    ensures GetChecker(Register(cat, ch), ch.id) == Ok(ch)
    ensures id != ch.id ==> GetChecker(Register(cat, ch), id) == GetChecker(cat, id)
  {
  }

  /** Three branches comparing one digit with an operand: `<`, `==`, `>`. */
  function Comparison(lhs: Color, rhs: Operand): seq<Pred> {
    [Compare(lhs, Lt, rhs), Compare(lhs, Eq, rhs), Compare(lhs, Gt, rhs)]
  }

  /** The checker names, as registered. */
  const Name2: string := "Le chiffre du triangle bleu comparé à 3"
  const Name3: string := "Le chiffre du carre jaune comparé à 3"
  const Name4: string := "Le chiffre du carré jaune comparé à  4"
  const Name7: string := "cercle violet pair ou impair"
  const Name9: string := "Le nombre de chiffre 3 dans le code"
  const Name13: string := "Le chiffre du carré jaune comparé au cercle violet"
  const Name14: string := "Quelle couleur a le chiffre plus petit que les autres"

  const Checker2 := Checker(2, Name2, Comparison(Blue, Const(3)))
  const Checker3 := Checker(3, Name3, Comparison(Yellow, Const(3)))
  const Checker4 := Checker(4, Name4, Comparison(Yellow, Const(4)))
  const Checker7 := Checker(7, Name7, [Parity(Purple, false), Parity(Purple, true)])
  const Checker9 := Checker(9, Name9,
                            [CountOf(3, 0), CountOf(3, 1), CountOf(3, 2), CountOf(3, 3)])
  const Checker13 := Checker(13, Name13, Comparison(Yellow, Of(Purple)))
  /** As written: the third branch asks whether purple is greater than both other digits. */
  const Checker14 := Checker(14, Name14,
                             [Both(Compare(Blue, Lt, Of(Yellow)), Compare(Blue, Lt, Of(Purple))),
                              Both(Compare(Yellow, Lt, Of(Purple)), Compare(Yellow, Lt, Of(Blue))),
                              Both(Compare(Purple, Gt, Of(Yellow)), Compare(Purple, Gt, Of(Blue)))])

  /** `register_all_checkers` run on the empty catalog: the seven checkers, in source order. */
  function AllCheckers(): (r: CheckerMap)
    ensures r.Keys == {2, 3, 4, 7, 9, 13, 14}
    ensures KeyedById(r)
    ensures r[2] == Checker2 && r[3] == Checker3 && r[4] == Checker4 && r[7] == Checker7
    ensures r[9] == Checker9 && r[13] == Checker13 && r[14] == Checker14
  {
    var empty: CheckerMap := map[];
    assert KeyedById(empty);
    var c2 := Register(empty, Checker2);
    assert c2.Keys == {2};
    var c3 := Register(c2, Checker3);
    assert c3.Keys == {2, 3};
    var c4 := Register(c3, Checker4);
    assert c4.Keys == {2, 3, 4};
    var c7 := Register(c4, Checker7);
    assert c7.Keys == {2, 3, 4, 7};
    var c9 := Register(c7, Checker9);
    assert c9.Keys == {2, 3, 4, 7, 9};
    var c13 := Register(c9, Checker13);
    assert c13.Keys == {2, 3, 4, 7, 9, 13};
    Register(c13, Checker14)
  }

  /** The grades of the registered checkers: 3, 3, 3, 2, 4, 3 and 3. */
  lemma CatalogGrades()
    ensures AllCheckers()[2].Grade() == 3 && AllCheckers()[3].Grade() == 3
    ensures AllCheckers()[4].Grade() == 3 && AllCheckers()[7].Grade() == 2
    ensures AllCheckers()[9].Grade() == 4 && AllCheckers()[13].Grade() == 3
    ensures AllCheckers()[14].Grade() == 3
  {
    var r := AllCheckers();
    assert r[2] == Checker2 && r[3] == Checker3 && r[4] == Checker4 && r[7] == Checker7;
    assert r[9] == Checker9 && r[13] == Checker13 && r[14] == Checker14;
  }

  /** The solver's first construction fills an empty catalog; a filled one is used as it is. */
  function EnsureRegistered(cat: CheckerMap): (r: CheckerMap)
    ensures |r| > 0
    ensures |cat| > 0 ==> r == cat
    ensures |cat| == 0 ==> r == AllCheckers()
  {
    if |cat| == 0 then AllCheckers() else cat
  }

  // ---------------------------------------------------------------------
  // Branch structure of the registered checkers
  // ---------------------------------------------------------------------

  /** The one branch each exclusive checker selects, stated independently of its predicates. */
  function ExpectedBranch(id: nat, c: Candidate): nat
    requires id in {2, 3, 4, 7, 9, 13}
  {
    if id == 2 then CompareIndex(c.blueTriangle, 3)
    else if id == 3 then CompareIndex(c.yellowSquare, 3)
    else if id == 4 then CompareIndex(c.yellowSquare, 4)
    else if id == 7 then c.purpleCircle % 2
    else if id == 9 then CountDigit(c, 3)
    else CompareIndex(c.yellowSquare, c.purpleCircle)
  }

  /** A comparison checker satisfies exactly the branch of the comparison's outcome. */
  lemma ComparisonBranches(ch: Checker, lhs: Color, rhs: Operand, c: Candidate)
    requires ch.preds == Comparison(lhs, rhs)
    ensures SatisfiedBranches(ch, c) == {CompareIndex(DigitOf(c, lhs), OperandValue(c, rhs))}
  {
    var s := SatisfiedBranches(ch, c);
    var k := CompareIndex(DigitOf(c, lhs), OperandValue(c, rhs));
    assert Run(ch, 0, c) == (k == 0) && Run(ch, 1, c) == (k == 1) && Run(ch, 2, c) == (k == 2);
    forall i: nat ensures i in s <==> i == k {
    }
  }

  /** Checker 7 satisfies exactly the branch of the purple digit's parity. */
  lemma ParityBranches(c: Candidate)
    ensures SatisfiedBranches(Checker7, c) == {c.purpleCircle % 2}
  {
    var k := c.purpleCircle % 2;
    assert Run(Checker7, 0, c) == (k == 0) && Run(Checker7, 1, c) == (k == 1);
    forall i: nat ensures i in SatisfiedBranches(Checker7, c) <==> i == k {
    }
  }

  /** Checker 9 satisfies exactly the branch numbered by the count of 3s. */
  lemma CountBranches(c: Candidate)
    ensures SatisfiedBranches(Checker9, c) == {CountDigit(c, 3)}
  {
    var k := CountDigit(c, 3);
    assert k <= 3;
    assert Run(Checker9, 0, c) == (k == 0) && Run(Checker9, 1, c) == (k == 1);
    assert Run(Checker9, 2, c) == (k == 2) && Run(Checker9, 3, c) == (k == 3);
    forall i: nat ensures i in SatisfiedBranches(Checker9, c) <==> i == k {
    }
  }

  /**
   Checkers 2, 3, 4, 7, 9 and 13 are exclusive: every candidate satisfies
   exactly one of their branches, the one `ExpectedBranch` names.
   */
  lemma ExclusiveCheckers(id: nat, c: Candidate)
    requires id in {2, 3, 4, 7, 9, 13}
    ensures SatisfiedBranches(AllCheckers()[id], c) == {ExpectedBranch(id, c)}
  {
    var ch := AllCheckers()[id];
    var k := ExpectedBranch(id, c);
    if id == 2 {
      ComparisonBranches(Checker2, Blue, Const(3), c);
      assert ch == Checker2 && k == CompareIndex(c.blueTriangle, 3);
    } else if id == 3 {
      ComparisonBranches(Checker3, Yellow, Const(3), c);
      assert ch == Checker3 && k == CompareIndex(c.yellowSquare, 3);
    } else if id == 4 {
      ComparisonBranches(Checker4, Yellow, Const(4), c);
      assert ch == Checker4 && k == CompareIndex(c.yellowSquare, 4);
    } else if id == 13 {
      ComparisonBranches(Checker13, Yellow, Of(Purple), c);
      assert ch == Checker13 && k == CompareIndex(c.yellowSquare, c.purpleCircle);
    } else if id == 7 {
      ParityBranches(c);
      assert ch == Checker7 && k == c.purpleCircle % 2;
    } else {
      CountBranches(c);
      assert ch == Checker9 && k == CountDigit(c, 3);
    }
    assert SatisfiedBranches(ch, c) == {k};
  }

  /** Checker 14 as written: blue strictly smallest, yellow strictly smallest, purple strictly largest. */
  lemma Checker14AsWritten(c: Candidate)
    ensures 0 in SatisfiedBranches(Checker14, c) <==>
              c.blueTriangle < c.yellowSquare && c.blueTriangle < c.purpleCircle
    ensures 1 in SatisfiedBranches(Checker14, c) <==>
              c.yellowSquare < c.purpleCircle && c.yellowSquare < c.blueTriangle
    ensures 2 in SatisfiedBranches(Checker14, c) <==>
              c.purpleCircle > c.yellowSquare && c.purpleCircle > c.blueTriangle
  {
    var p := Checker14.preds;
    assert p[0] == Both(Compare(Blue, Lt, Of(Yellow)), Compare(Blue, Lt, Of(Purple)));
    assert p[1] == Both(Compare(Yellow, Lt, Of(Purple)), Compare(Yellow, Lt, Of(Blue)));
    assert p[2] == Both(Compare(Purple, Gt, Of(Yellow)), Compare(Purple, Gt, Of(Blue)));
    assert Eval(p[0], c) == (Eval(p[0].left, c) && Eval(p[0].right, c));
    assert Eval(p[1], c) == (Eval(p[1].left, c) && Eval(p[1].right, c));
    assert Eval(p[2], c) == (Eval(p[2].left, c) && Eval(p[2].right, c));
  }

  /** Checker 14 is not exclusive: (1,2,3) satisfies two branches and (2,2,2) none. */
  lemma Checker14NotExclusive()
    ensures SatisfiedBranches(Checker14, Candidate(1, 2, 3)) == {0, 2}
    ensures SatisfiedBranches(Checker14, Candidate(2, 2, 2)) == {}
  {
    Checker14AsWritten(Candidate(1, 2, 3));
    Checker14AsWritten(Candidate(2, 2, 2));
    var s := SatisfiedBranches(Checker14, Candidate(1, 2, 3));
    forall i: nat ensures i in s <==> i == 0 || i == 2 {
    }
    var t := SatisfiedBranches(Checker14, Candidate(2, 2, 2));
    forall i: nat ensures i !in t {
    }
  }

  /** The demonstration of the driver: checker 4 on (1,2,3) gives true, false, false. */
  lemma Checker4Example()
    ensures Run(Checker4, 0, Candidate(1, 2, 3))
    ensures !Run(Checker4, 1, Candidate(1, 2, 3))
    ensures !Run(Checker4, 2, Candidate(1, 2, 3))
  {
  }
}
