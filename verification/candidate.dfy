/**
 The candidate code of the puzzle (include/candidate.h): three digits, the
 blue triangle, the yellow square and the purple circle, each in [1,5].
 */
module Candidates {
  import opened Wrappers

  /** The stored triple; the field accessors are the C++ getters. */
  datatype Candidate = Candidate(blueTriangle: nat, yellowSquare: nat, purpleCircle: nat)

  /** The digit range every component must lie in. */
  const MinDigit: nat := 1
  const MaxDigit: nat := 5

  predicate InRange(v: nat) {
    MinDigit <= v <= MaxDigit
  }

  /** A triple the checked constructors accept. */
  predicate Valid(c: Candidate) {
    InRange(c.blueTriangle) && InRange(c.yellowSquare) && InRange(c.purpleCircle)
  }

  /** `check_number`: throws for a value below 1 or above 5, naming the component. */
  function CheckNumber(v: nat, name: Component): (r: Result<()>)
    ensures r.Ok? <==> InRange(v)
    ensures r.Err? ==> r.error == OutOfRange(name, v)
  {
    if v < 1 || v > 5 then Err(OutOfRange(name, v)) else Ok(())
  }

  /**
   The three-argument constructor: stores the arguments in the order blue,
   yellow, purple and then checks them in that same order, so the error names
   the first component that is out of range.
   */
  function MakeCandidate(blue: nat, yellow: nat, purple: nat): (r: Result<Candidate>)
    ensures r.Ok? <==> InRange(blue) && InRange(yellow) && InRange(purple)
    ensures r.Ok? ==> Valid(r.value)
    ensures r.Ok? ==> r.value.blueTriangle == blue && r.value.yellowSquare == yellow && r.value.purpleCircle == purple
    ensures !InRange(blue) ==> r == Err(OutOfRange(BlueTriangle, blue))
    ensures InRange(blue) && !InRange(yellow) ==> r == Err(OutOfRange(YellowSquare, yellow))
    ensures InRange(blue) && InRange(yellow) && !InRange(purple) ==> r == Err(OutOfRange(PurpleCircle, purple))
  {
    var _ :- CheckNumber(blue, BlueTriangle);
    var _ :- CheckNumber(yellow, YellowSquare);
    var _ :- CheckNumber(purple, PurpleCircle);
    Ok(Candidate(blue, yellow, purple))
  }

  /**
   The packed constructor: splits a number into its hundreds, tens and units
   parts with the unsigned arithmetic of the source and delegates to the
   checked constructor. Every intermediate value is at most `num`, so the
   32-bit unsigned arithmetic never wraps and `nat` models it exactly.
   */
  function FromPacked(num: nat): (r: Result<Candidate>)
    ensures r == MakeCandidate(num / 100, (num % 100) / 10, num % 10)
  {
    var hundreds := num / 100;
    var rest: nat := num - 100 * hundreds;
    var units: nat := num - 10 * (num / 10);
    MakeCandidate(hundreds, rest / 10, units)
  }

  /** The three-digit decimal number whose digits are the candidate's components. */
  function Pack(c: Candidate): nat {
    100 * c.blueTriangle + 10 * c.yellowSquare + c.purpleCircle
  }

  /** Packing a valid candidate and decoding the number gives the candidate back. */
  lemma PackRoundTrip(blue: nat, yellow: nat, purple: nat)
    requires InRange(blue) && InRange(yellow) && InRange(purple)
    ensures FromPacked(100 * blue + 10 * yellow + purple) == MakeCandidate(blue, yellow, purple)
    ensures FromPacked(100 * blue + 10 * yellow + purple) == Ok(Candidate(blue, yellow, purple))
  {
    var n := 100 * blue + 10 * yellow + purple;
    var low := 10 * yellow + purple;
    assert low < 100;
    DivModUnique(n, 100, blue, low);
    DivModUnique(low, 10, yellow, purple);
  }

  /** Every number the packed constructor accepts is the packing of the candidate it builds. */
  lemma PackedDecodeEncode(num: nat)
    requires FromPacked(num).Ok?
    ensures Valid(FromPacked(num).value)
    ensures Pack(FromPacked(num).value) == num
  {
    var c := FromPacked(num).value;
    assert c.blueTriangle == num / 100;
    assert c.yellowSquare == (num % 100) / 10;
    assert c.purpleCircle == num % 10;
    assert num % 100 == 10 * ((num % 100) / 10) + num % 10 by {
      DivModTens(num);
    }
  }

  /** The packed constructor throws for every number whose hundreds part exceeds 5 or that has a 0 digit. */
  lemma PackedRejects(num: nat)
    requires num >= 600 || num < 100 || (num / 10) % 10 == 0 || num % 10 == 0
    ensures FromPacked(num).Err?
    ensures num >= 600 ==> FromPacked(num) == Err(OutOfRange(BlueTriangle, num / 100))
  {
    DivModTens(num);
  }

  /** The worked example of the packed form: 153 is blue 1, yellow 5, purple 3. */
  lemma PackedExample()
    ensures FromPacked(153) == Ok(Candidate(1, 5, 3))
  {
    PackRoundTrip(1, 5, 3);
  }

  /** Quotient and remainder by a positive divisor are unique. */
  lemma DivModUnique(n: nat, d: nat, q: nat, r: nat)
    requires 0 < d && r < d && n == d * q + r
    ensures n / d == q && n % d == r
  {
    var q' := n / d;
    var r' := n % d;
    assert n == d * q' + r';
    if q' < q {
      MulGap(d, q', q);
    } else if q' > q {
      MulGap(d, q, q');
    }
  }

  /** Multiples of `d` at distinct factors are at least `d` apart. */
  lemma MulGap(d: nat, lo: nat, hi: nat)
    requires lo < hi
    ensures d * lo + d <= d * hi
  {
    var k := hi - lo;
    assert d * hi == d * lo + d * k;
    assert d * k == d * (k - 1) + d;
  }

  /** The tens digit computed from the remainder mod 100 equals the one computed from the quotient by 10. */
  lemma DivModTens(n: nat)
    ensures (n % 100) / 10 == (n / 10) % 10
    ensures n % 100 == 10 * ((n % 100) / 10) + n % 10
  {
    var h := n / 100;
    var t := (n % 100) / 10;
    var u := (n % 100) % 10;
    assert n % 100 == 10 * t + u;
    assert n == 100 * h + 10 * t + u;
    DivModUnique(n, 10, 10 * h + t, u);
    DivModUnique(n / 10, 10, h, t);
  }

  /**
   `operator<`: the comparison of the underlying `std::tuple`, which tests
   each position with `<` in both directions before moving on.
   */
  predicate Less(a: Candidate, b: Candidate) {
    || a.blueTriangle < b.blueTriangle
    || (!(b.blueTriangle < a.blueTriangle)
        && (|| a.yellowSquare < b.yellowSquare
            || (!(b.yellowSquare < a.yellowSquare) && a.purpleCircle < b.purpleCircle)))
  }

  /** The tuple order is a strict total order on candidates. */
  lemma LessIsStrictTotalOrder(a: Candidate, b: Candidate, c: Candidate)
    ensures !Less(a, a)
    ensures Less(a, b) ==> !Less(b, a)
    ensures Less(a, b) && Less(b, c) ==> Less(a, c)
    ensures a != b ==> Less(a, b) || Less(b, a)
  {
  }

  /** On valid candidates the tuple order is the numeric order of the packed numbers. */
  lemma LessIsPackedOrder(a: Candidate, b: Candidate)
    requires Valid(a) && Valid(b)
    ensures Less(a, b) <==> Pack(a) < Pack(b)
  {
  }
}
