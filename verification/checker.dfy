/**
 A checker (include/checker_base.h): an id, a name and one predicate per
 branch; the number of predicates is the checker's grade. The C++ code keeps
 each predicate as a `std::function` wrapped in `checker_func`; here each
 predicate is a small expression, `Pred`, whose evaluation transcribes the
 lambda bodies used by the catalog.
 */
module Checkers {
  import opened Candidates

  /** The three coloured digits of a candidate. */
  datatype Color = Blue | Yellow | Purple

  function DigitOf(c: Candidate, color: Color): nat {
    match color
    case Blue => c.blueTriangle
    case Yellow => c.yellowSquare
    case Purple => c.purpleCircle
  }

  datatype Op = Lt | Eq | Gt

  /** The right-hand side of a comparison: a constant or another digit. */
  datatype Operand = Const(k: nat) | Of(color: Color)

  /** The body of one branch predicate. */
  datatype Pred =
      /** `digit op operand`, with `<`, `==` or `>` */
    | Compare(lhs: Color, op: Op, rhs: Operand)
      /** `left && right` */
    | Both(left: Pred, right: Pred)
      /** `digit % 2` read as a truth value when `odd`, `!(digit % 2)` otherwise */
    | Parity(color: Color, odd: bool)
      /** `count == (yellow == d) + (purple == d) + (blue == d)`, booleans summed as 0/1 */
    | CountOf(digit: nat, count: nat)

  function Indicator(b: bool): nat {
    if b then 1 else 0
  }

  function OperandValue(c: Candidate, rhs: Operand): nat {
    match rhs
    case Const(k) => k
    case Of(color) => DigitOf(c, color)
  }

  /** Index of the branch `<`, `==`, `>` that holds between two numbers. */
  function CompareIndex(l: nat, r: nat): nat {
    if l < r then 0 else if l == r then 1 else 2
  }

  /** How many of the three digits equal `d`. */
  function CountDigit(c: Candidate, d: nat): nat {
    Indicator(c.blueTriangle == d) + Indicator(c.yellowSquare == d) + Indicator(c.purpleCircle == d)
  }

  /** The position of an operator among `<`, `==`, `>`. */
  function OpIndex(op: Op): nat {
    match op
    case Lt => 0
    case Eq => 1
    case Gt => 2
  }

  /**
   Applies a branch predicate to a candidate, as `checker_func::run` calls its
   lambda: a comparison holds when the three-way outcome is its operator, a
   parity test when the remainder by 2 is the one asked for, a count test when
   the number of digits equal to `d` is the one asked for.
   */
  function Eval(p: Pred, c: Candidate): (r: bool)
    ensures p.Compare? ==>
              (r <==> CompareIndex(DigitOf(c, p.lhs), OperandValue(c, p.rhs)) == OpIndex(p.op))
    ensures p.Parity? ==> (r <==> DigitOf(c, p.color) % 2 == Indicator(p.odd))
    ensures p.CountOf? ==> (r <==> CountDigit(c, p.digit) == p.count)
  {
    match p
    case Compare(lhs, op, rhs) =>
      var l, r := DigitOf(c, lhs), OperandValue(c, rhs);
      (match op
       case Lt => l < r
       case Eq => l == r
       case Gt => l > r)
    case Both(left, right) => Eval(left, c) && Eval(right, c)
    case Parity(color, odd) => (DigitOf(c, color) % 2 != 0) == odd
    case CountOf(d, count) =>
      count == Indicator(c.yellowSquare == d) + Indicator(c.purpleCircle == d) + Indicator(c.blueTriangle == d)
  }

  /**
   `checker_base<GRADE>`: the constructor stores the id, the name and the
   `GRADE` predicates as given. The grade is the number of predicates.
   */
  datatype Checker = Checker(id: nat, name: string, preds: seq<Pred>) {
    function Grade(): nat {
      |preds|
    }
  }

  /**
   `run`: the C++ `assert(p_grade < GRADE)` is a precondition; the result is
   the value of the stored predicate of that branch, whatever the checker's id
   and name.
   */
  function Run(ch: Checker, branch: nat, c: Candidate): (r: bool)
    requires branch < ch.Grade()
    ensures ch.preds[branch].Compare? ==>
              (r <==> CompareIndex(DigitOf(c, ch.preds[branch].lhs), OperandValue(c, ch.preds[branch].rhs))
                      == OpIndex(ch.preds[branch].op))
    ensures ch.preds[branch].Parity? ==>
              (r <==> DigitOf(c, ch.preds[branch].color) % 2 == Indicator(ch.preds[branch].odd))
    ensures ch.preds[branch].CountOf? ==> (r <==> CountDigit(c, ch.preds[branch].digit) == ch.preds[branch].count)
    ensures ch.preds[branch].Both? ==> (r <==> Eval(ch.preds[branch].left, c) && Eval(ch.preds[branch].right, c))
  {
    Eval(ch.preds[branch], c)
  }

  /** `run` is const: its result depends only on the stored predicates, not on the id or the name. */
  lemma RunIgnoresIdentity(ch: Checker, id: nat, name: string, branch: nat, c: Candidate)
    requires branch < ch.Grade()
    ensures Run(Checker(id, name, ch.preds), branch, c) == Run(ch, branch, c)
  {
  }

  /** The branches a candidate satisfies (the set `get_correct_conditions` reports). */
  function SatisfiedBranches(ch: Checker, c: Candidate): (r: set<nat>)
    ensures forall i: nat :: i in r <==> i < ch.Grade() && Run(ch, i, c)
  {
    set i: nat | i < ch.Grade() && Run(ch, i, c)
  }
}
