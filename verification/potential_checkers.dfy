/**
 The outcome signature (include/potential_checkers.h): one slot per chosen
 checker, each slot the set of branch indices still considered possible for
 that checker. A `std::set<unsigned int>` is modelled as the strictly
 increasing sequence of its elements, which is the order in which the C++
 code iterates it for comparison and printing.
 */
module PotentialCheckers {
  import opened Wrappers

  /** Strictly increasing, so each element occurs once and iteration is ascending. */
  predicate Increasing(s: seq<nat>) {
    forall i, j :: 0 <= i < j < |s| ==> s[i] < s[j]
  }

  /** One `std::set<unsigned int>` slot. */
  type Slot = s: seq<nat> | Increasing(s) witness []

  /** `potential_checkers`: the vector of slots. */
  datatype Signature = Signature(slots: seq<Slot>)

  /** The default-constructed signature has no slot. */
  const EmptySignature := Signature([])

  /** The default-constructed signature is valid and prints as the empty string. */
  lemma EmptySignatureIsValid()
    ensures IsValid(EmptySignature)
    ensures Render(EmptySignature) == ""
  {
  }

  /** Set semantics of a slot: `a` and `b` hold the same elements. */
  ghost predicate SameElements(a: Slot, b: Slot) {
    forall x :: x in a <==> x in b
  }

  /** Set semantics of a slot: `a` and `b` share no element. */
  ghost predicate NoCommonElement(a: Slot, b: Slot) {
    forall x :: x in a ==> x !in b
  }

  /** The first element of an increasing sequence is its minimum. */
  lemma HeadIsMinimum(s: Slot, x: nat)
    requires |s| > 0 && x in s
    ensures s[0] <= x
  {
  }

  /** `add`: appends one slot after the existing ones, which stay as they were. */
  function Add(sig: Signature, value: Slot): (r: Signature)
    ensures |r.slots| == |sig.slots| + 1
    ensures forall i :: 0 <= i < |sig.slots| ==> r.slots[i] == sig.slots[i]
    ensures r.slots[|sig.slots|] == value
    ensures IsValid(r) <==> IsValid(sig) && |value| > 0
  {
    Signature(sig.slots + [value])
  }

  /** `is_valid`: `std::all_of` over the slots with the test "not empty". */
  function IsValid(sig: Signature): (r: bool)
    ensures r <==> forall i :: 0 <= i < |sig.slots| ==> |sig.slots[i]| > 0
  {
    AllNonEmpty(sig.slots)
  }

  /** The left-to-right scan behind `is_valid`. */
  function AllNonEmpty(slots: seq<Slot>): (r: bool)
    ensures r <==> forall i :: 0 <= i < |slots| ==> |slots[i]| > 0
  {
    if |slots| == 0 then true
    else if |slots[0]| == 0 then false
    else AllNonEmpty(slots[1..])
  }

  /**
   `std::set_intersection` of two ascending ranges: the merge walk that keeps
   an element when it heads both ranges.
   */
  function Intersection(a: Slot, b: Slot): (r: Slot)
    ensures forall x :: x in r <==> x in a && x in b
    decreases |a| + |b|
  {
    if |a| == 0 || |b| == 0 then []
    else if a[0] < b[0] then
      assert forall x :: x in b ==> b[0] <= x by {
        forall x | x in b ensures b[0] <= x { HeadIsMinimum(b, x); }
      }
      Intersection(a[1..], b)
    else if b[0] < a[0] then
      assert forall x :: x in a ==> a[0] <= x by {
        forall x | x in a ensures a[0] <= x { HeadIsMinimum(a, x); }
      }
      Intersection(a, b[1..])
    else
      var rest := Intersection(a[1..], b[1..]);
      assert forall j :: 0 <= j < |rest| ==> a[0] < rest[j] by {
        forall j | 0 <= j < |rest| ensures a[0] < rest[j] {
          assert rest[j] in a[1..];
          var i :| 0 <= i < |a[1..]| && a[1..][i] == rest[j];
          assert a[i + 1] == rest[j];
        }
      }
      [a[0]] + rest
  }

  /** Two slots are equal as sequences exactly when they hold the same elements, as `std::set` equality requires. */
  lemma {:induction false} SlotEqualityIsSetEquality(a: Slot, b: Slot)
    ensures a == b <==> SameElements(a, b)
    decreases |a| + |b|
  {
    if SameElements(a, b) && |a| > 0 && |b| > 0 {
      assert a[0] in b && b[0] in a;
      HeadIsMinimum(a, b[0]);
      HeadIsMinimum(b, a[0]);
      var a', b' := Tail(a), Tail(b);
      assert SameElements(a', b');
      SlotEqualityIsSetEquality(a', b');
      assert a == [a[0]] + a' && b == [b[0]] + b';
    } else if SameElements(a, b) {
      EmptyIffNoElement(a);
      EmptyIffNoElement(b);
    }
  }

  /** A slot is empty exactly when nothing is in it. */
  lemma EmptyIffNoElement(s: Slot)
    ensures |s| == 0 <==> forall x :: x !in s
  {
    if |s| > 0 {
      assert s[0] in s;
    }
  }

  /** The slot without its smallest element. */
  function Tail(s: Slot): (r: Slot)
    requires |s| > 0
    ensures r == s[1..]
    ensures forall x :: x in r <==> x in s && x != s[0]
  {
    assert forall x :: x in s[1..] ==> s[0] < x by {
      forall x | x in s[1..] ensures s[0] < x {
        var i :| 0 <= i < |s[1..]| && s[1..][i] == x;
        assert s[i + 1] == x;
      }
    }
    s[1..]
  }

  /**
   `is_compliant_with`: whether a signature stays consistent with the
   observation `checkerResult` made for checker `index` on a probe whose
   signature is `probe`. Equal slots keep the observation as it is, disjoint
   slots invert it, overlapping but different slots cannot decide and keep
   the signature. The C++ `assert` on the slot counts is a precondition; an
   index past the last slot throws.
   */
  function IsCompliantWith(sig: Signature, index: nat, probe: Signature, checkerResult: bool): (r: Result<bool>)
    requires |sig.slots| == |probe.slots|
    ensures r.Err? <==> index >= |sig.slots|
    ensures r.Err? ==> r.error == BadIndex(index)
    ensures index < |sig.slots| && SameElements(sig.slots[index], probe.slots[index])
            ==> r == Ok(checkerResult)
    ensures index < |sig.slots| && !SameElements(sig.slots[index], probe.slots[index])
            && NoCommonElement(sig.slots[index], probe.slots[index])
            ==> r == Ok(!checkerResult)
    ensures index < |sig.slots| && !SameElements(sig.slots[index], probe.slots[index])
            && !NoCommonElement(sig.slots[index], probe.slots[index])
            ==> r == Ok(true)
  {
    if index < |sig.slots| then
      var mine, theirs := sig.slots[index], probe.slots[index];
      SlotEqualityIsSetEquality(mine, theirs);
      if mine == theirs then
        Ok(checkerResult)
      else
        var common := Intersection(mine, theirs);
        if |common| == 0 then
          Ok(!checkerResult)
        else
          assert common[0] in mine && common[0] in theirs;
          Ok(true)
    else
      Err(BadIndex(index))
  }

  /** The compliance rule only looks at equality and overlap, so the two signatures can swap roles. */
  lemma CompliantSymmetric(sig: Signature, index: nat, probe: Signature, checkerResult: bool)
    requires |sig.slots| == |probe.slots|
    ensures IsCompliantWith(sig, index, probe, checkerResult) == IsCompliantWith(probe, index, sig, checkerResult)
  {
    if index < |sig.slots| {
      var a, b := sig.slots[index], probe.slots[index];
      SlotEqualityIsSetEquality(a, b);
      SlotEqualityIsSetEquality(b, a);
    }
  }

  /** A signature checked against itself keeps exactly the observed result. */
  lemma CompliantWithItself(sig: Signature, index: nat, checkerResult: bool)
    requires index < |sig.slots|
    ensures IsCompliantWith(sig, index, sig, checkerResult) == Ok(checkerResult)
  {
  }

  /** `std::lexicographical_compare` of two ascending element ranges. */
  predicate LexLess(a: seq<nat>, b: seq<nat>) {
    if |b| == 0 then false
    else if |a| == 0 then true
    else if a[0] < b[0] then true
    else if b[0] < a[0] then false
    else LexLess(a[1..], b[1..])
  }

  /** No slot is below itself. */
  lemma {:induction false} LexLessIrreflexive(a: seq<nat>)
    ensures !LexLess(a, a)
  {
    if |a| > 0 {
      LexLessIrreflexive(a[1..]);
    }
  }

  /** Lexicographic comparison is transitive. */
  lemma {:induction false} LexLessTransitive(a: seq<nat>, b: seq<nat>, c: seq<nat>)
    requires LexLess(a, b) && LexLess(b, c)
    ensures LexLess(a, c)
  {
    if |a| > 0 && a[0] == b[0] && b[0] == c[0] {
      LexLessTransitive(a[1..], b[1..], c[1..]);
    }
  }

  /** Two different slots are ordered one way or the other. */
  lemma {:induction false} LexLessTotal(a: seq<nat>, b: seq<nat>)
    requires a != b
    ensures LexLess(a, b) || LexLess(b, a)
  {
    if |a| > 0 && |b| > 0 && a[0] == b[0] {
      assert a == [a[0]] + a[1..] && b == [b[0]] + b[1..];
      LexLessTotal(a[1..], b[1..]);
    }
  }

  /** Slot `i` is the first slot on which `a` and `b` differ. */
  predicate FirstDifference(a: seq<Slot>, b: seq<Slot>, i: nat)
    requires |a| == |b|
  {
    i < |a| && a[..i] == b[..i] && a[i] != b[i]
  }

  /**
   The order of `operator<`: the first slot on which the signatures differ
   decides, by lexicographic comparison of its ascending elements; equal
   signatures are not ordered.
   */
  ghost predicate SignatureLess(s: Signature, t: Signature)
    requires |s.slots| == |t.slots|
  {
    exists i: nat :: FirstDifference(s.slots, t.slots, i) && LexLess(s.slots[i], t.slots[i])
  }

  /** `operator<`, with the slot loop of the source. */
  method Less(s: Signature, t: Signature) returns (r: bool)
    requires |s.slots| == |t.slots|
    ensures r <==> SignatureLess(s, t)
  {
    var index := 0;
    while index < |s.slots|
      invariant index <= |s.slots|
      invariant s.slots[..index] == t.slots[..index]
    {
      if s.slots[index] != t.slots[index] {
        r := LexLess(s.slots[index], t.slots[index]);
        assert FirstDifference(s.slots, t.slots, index);
        FirstDifferenceUnique(s.slots, t.slots, index);
        return;
      }
      assert s.slots[..index + 1] == s.slots[..index] + [s.slots[index]];
      assert t.slots[..index + 1] == t.slots[..index] + [t.slots[index]];
      index := index + 1;
    }
    assert s.slots == t.slots;
    r := false;
  }

  /** At most one slot is the first difference. */
  lemma FirstDifferenceUnique(a: seq<Slot>, b: seq<Slot>, i: nat)
    requires |a| == |b| && FirstDifference(a, b, i)
    ensures forall j: nat :: FirstDifference(a, b, j) ==> j == i
  {
    forall j: nat | FirstDifference(a, b, j) ensures j == i {
      PrefixAgrees(a, b, i);
      PrefixAgrees(a, b, j);
    }
  }

  /** Equal prefixes agree slot by slot. */
  lemma PrefixAgrees(a: seq<Slot>, b: seq<Slot>, n: nat)
    requires n <= |a| && n <= |b| && a[..n] == b[..n]
    ensures forall k :: 0 <= k < n ==> a[k] == b[k]
  {
    forall k | 0 <= k < n ensures a[k] == b[k] {
      assert a[..n][k] == b[..n][k];
    }
  }

  /** No signature is below itself. */
  lemma SignatureLessIrreflexive(s: Signature)
    ensures !SignatureLess(s, s)
  {
  }

  /** The signature order is transitive. */
  lemma SignatureLessTransitive(s: Signature, t: Signature, u: Signature)
    requires |s.slots| == |t.slots| == |u.slots|
    requires SignatureLess(s, t) && SignatureLess(t, u)
    ensures SignatureLess(s, u)
  {
    var i: nat :| FirstDifference(s.slots, t.slots, i) && LexLess(s.slots[i], t.slots[i]);
    var j: nat :| FirstDifference(t.slots, u.slots, j) && LexLess(t.slots[j], u.slots[j]);
    var k := if i < j then i else j;
    assert s.slots[..k] == u.slots[..k] by {
      assert s.slots[..k] == s.slots[..i][..k];
      assert t.slots[..k] == t.slots[..j][..k];
      assert u.slots[..k] == u.slots[..j][..k];
      assert t.slots[..k] == t.slots[..i][..k];
    }
    if i < j {
      assert t.slots[i] == u.slots[i] by { assert t.slots[..j][i] == u.slots[..j][i]; }
    } else if j < i {
      assert s.slots[j] == t.slots[j] by { assert s.slots[..i][j] == t.slots[..i][j]; }
    } else {
      LexLessTransitive(s.slots[k], t.slots[k], u.slots[k]);
      LexLessIrreflexive(s.slots[k]);
    }
    assert FirstDifference(s.slots, u.slots, k) && LexLess(s.slots[k], u.slots[k]);
  }

  /** Two different signatures with the same number of slots are ordered one way or the other. */
  lemma SignatureLessTotal(s: Signature, t: Signature)
    requires |s.slots| == |t.slots| && s != t
    ensures SignatureLess(s, t) || SignatureLess(t, s)
  {
    var k := 0;
    while k < |s.slots| && s.slots[k] == t.slots[k]
      invariant k <= |s.slots| && s.slots[..k] == t.slots[..k]
    {
      assert s.slots[..k + 1] == s.slots[..k] + [s.slots[k]];
      assert t.slots[..k + 1] == t.slots[..k] + [t.slots[k]];
      k := k + 1;
    }
    assert k == |s.slots| ==> s.slots == t.slots by {
      assert s.slots[..|s.slots|] == s.slots && t.slots[..|t.slots|] == t.slots;
    }
    assert k < |s.slots|;
    assert FirstDifference(s.slots, t.slots, k);
    assert FirstDifference(t.slots, s.slots, k);
    LexLessTotal(s.slots[k], t.slots[k]);
  }

  // ---------------------------------------------------------------------
  // `operator<<`: compact rendering of a signature
  // ---------------------------------------------------------------------

  /** The character of a decimal digit. */
  function DigitChar(d: nat): char
    requires d < 10
  {
    ('0' as int + d) as char
  }

  predicate IsDigitChar(ch: char) {
    '0' <= ch <= '9'
  }

  /** Streaming an `unsigned int`: its decimal digits, most significant first. */
  function NatToString(n: nat): (r: string)
    ensures |r| >= 1
    ensures forall i :: 0 <= i < |r| ==> IsDigitChar(r[i])
    ensures n < 10 ==> r == [DigitChar(n)]
  {
    if n < 10 then [DigitChar(n)] else NatToString(n / 10) + [DigitChar(n % 10)]
  }

  /** The values of a slot streamed one after the other with no separator. */
  function Digits(values: seq<nat>): (r: string)
    ensures forall i :: 0 <= i < |r| ==> IsDigitChar(r[i])
  {
    if |values| == 0 then "" else NatToString(values[0]) + Digits(values[1..])
  }

  /** One slot: a singleton prints its value, a larger slot its values in parentheses, an empty slot a dash. */
  function RenderSlot(slot: Slot): (r: string)
    ensures |r| >= 1
  {
    if |slot| == 1 then NatToString(slot[0])
    else if |slot| > 1 then "(" + Digits(slot) + ")"
    else "-"
  }

  function RenderSlots(slots: seq<Slot>): (r: string)
    ensures |r| >= |slots|
    ensures r == "" <==> |slots| == 0
  {
    if |slots| == 0 then "" else RenderSlot(slots[0]) + RenderSlots(slots[1..])
  }

  /**
   `operator<<`: the slots rendered in order with nothing between them. Every
   slot prints at least one character, and a rendering whose values are single
   digits can be read back.
   */
  function Render(sig: Signature): (r: string)
    ensures |r| >= |sig.slots|
    ensures r == "" <==> |sig.slots| == 0
    ensures SingleDigits(sig) ==> Parse(r) == Some(sig.slots)
  {
    if SingleDigits(sig) then
      ParseRenderRoundTrip(sig);
      RenderSlots(sig.slots)
    else
      RenderSlots(sig.slots)
  }

  /** Every value in every slot is a single decimal digit. */
  predicate SingleDigits(sig: Signature) {
    forall i, j :: 0 <= i < |sig.slots| && 0 <= j < |sig.slots[i]| ==> sig.slots[i][j] < 10
  }

  /** Reads back the digits of a parenthesised group up to its closing parenthesis. */
  function ParseGroup(s: string): (r: Option<(seq<nat>, string)>)
    ensures r.Some? ==> |r.value.1| < |s|
  {
    if |s| == 0 then None
    else if s[0] == ')' then Some(([], s[1..]))
    else if IsDigitChar(s[0]) then
      match ParseGroup(s[1..])
      case None => None
      case Some((values, rest)) => Some(([s[0] as int - '0' as int] + values, rest))
    else None
  }

  /** Reads back the slots of a rendering whose values are single digits. */
  function Parse(s: string): Option<seq<seq<nat>>>
    decreases |s|
  {
    if |s| == 0 then Some([])
    else if s[0] == '-' then Prepend([], Parse(s[1..]))
    else if IsDigitChar(s[0]) then Prepend([s[0] as int - '0' as int], Parse(s[1..]))
    else if s[0] == '(' then
      match ParseGroup(s[1..])
      case None => None
      case Some((values, rest)) => Prepend(values, Parse(rest))
    else None
  }

  function Prepend(slot: seq<nat>, rest: Option<seq<seq<nat>>>): Option<seq<seq<nat>>> {
    match rest
    case None => None
    case Some(slots) => Some([slot] + slots)
  }

  /** The digits of single-digit values followed by ")" read back as those values. */
  lemma {:induction false} ParseGroupDigits(values: seq<nat>, tail: string)
    requires forall j :: 0 <= j < |values| ==> values[j] < 10
    ensures ParseGroup(Digits(values) + ")" + tail) == Some((values, tail))
  {
    if |values| == 0 {
      assert Digits(values) + ")" + tail == [')'] + tail;
    } else {
      var s := Digits(values) + ")" + tail;
      assert s == [DigitChar(values[0])] + (Digits(values[1..]) + ")" + tail);
      ParseGroupDigits(values[1..], tail);
      assert [values[0]] + values[1..] == values;
    }
  }

  /** One rendered slot followed by anything reads back as that slot in front of what the rest reads as. */
  lemma ParseSlotPrefix(slot: Slot, tail: string)
    requires forall j :: 0 <= j < |slot| ==> slot[j] < 10
    ensures Parse(RenderSlot(slot) + tail) == Prepend(slot, Parse(tail))
  {
    if |slot| == 1 {
      ParseSingleton(slot, tail);
    } else if |slot| > 1 {
      ParseGroupSlot(slot, tail);
    } else {
      ParseDash(tail);
    }
  }

  lemma ParseSingleton(slot: Slot, tail: string)
    requires |slot| == 1 && slot[0] < 10
    ensures Parse(RenderSlot(slot) + tail) == Prepend(slot, Parse(tail))
  {
    var s := [DigitChar(slot[0])] + tail;
    assert RenderSlot(slot) + tail == s;
    assert s[1..] == tail;
    assert slot == [slot[0]];
  }

  lemma ParseGroupSlot(slot: Slot, tail: string)
    requires |slot| > 1
    requires forall j :: 0 <= j < |slot| ==> slot[j] < 10
    ensures Parse(RenderSlot(slot) + tail) == Prepend(slot, Parse(tail))
  {
    var digits := Digits(slot);
    var inner := digits + ")" + tail;
    var s := ['('] + inner;
    assert RenderSlot(slot) == "(" + digits + ")";
    assert RenderSlot(slot) + tail == s;
    assert s[0] == '(' && s[1..] == inner;
    ParseGroupDigits(slot, tail);
    assert Parse(s) == Prepend(slot, Parse(tail));
  }

  lemma ParseDash(tail: string)
    ensures Parse(RenderSlot([]) + tail) == Prepend([], Parse(tail))
  {
    assert RenderSlot([]) + tail == ['-'] + tail;
    assert (['-'] + tail)[1..] == tail;
  }

  /** Dropping the first slot keeps every value a single digit. */
  lemma SingleDigitsTail(sig: Signature)
    requires |sig.slots| > 0 && SingleDigits(sig)
    ensures SingleDigits(Signature(sig.slots[1..]))
    ensures forall j :: 0 <= j < |sig.slots[0]| ==> sig.slots[0][j] < 10
  {
    var rest := Signature(sig.slots[1..]);
    forall i, j | 0 <= i < |rest.slots| && 0 <= j < |rest.slots[i]| ensures rest.slots[i][j] < 10 {
      assert rest.slots[i] == sig.slots[i + 1];
    }
  }

  /** Rendering a single-digit signature and reading it back gives its slots. */
  lemma {:induction false} ParseRenderRoundTrip(sig: Signature)
    requires SingleDigits(sig)
    ensures Parse(RenderSlots(sig.slots)) == Some(sig.slots)
    decreases |sig.slots|
  {
    if |sig.slots| > 0 {
      var rest := Signature(sig.slots[1..]);
      SingleDigitsTail(sig);
      ParseRenderRoundTrip(rest);
      assert RenderSlots(sig.slots) == RenderSlot(sig.slots[0]) + RenderSlots(rest.slots);
      ParseSlotPrefix(sig.slots[0], RenderSlots(rest.slots));
      assert [sig.slots[0]] + sig.slots[1..] == sig.slots;
    }
  }

  /** Consequently, different single-digit signatures never print the same. */
  lemma RenderInjective(s: Signature, t: Signature)
    requires SingleDigits(s) && SingleDigits(t) && Render(s) == Render(t)
    ensures s == t
  {
  }

  /** A signature of single-digit singletons prints as one digit per slot. */
  lemma {:induction false} RenderSingletons(sig: Signature)
    requires forall i :: 0 <= i < |sig.slots| ==> |sig.slots[i]| == 1 && sig.slots[i][0] < 10
    ensures |Render(sig)| == |sig.slots|
    ensures forall i :: 0 <= i < |sig.slots| ==> Render(sig)[i] == DigitChar(sig.slots[i][0])
    decreases |sig.slots|
  {
    if |sig.slots| > 0 {
      var rest := Signature(sig.slots[1..]);
      RenderSingletons(rest);
      assert Render(sig) == [DigitChar(sig.slots[0][0])] + Render(rest);
    }
  }

  /** The rendering of each kind of slot, in the form of the three branches of the printer. */
  lemma RenderSlotShapes(slot: Slot)
    ensures |slot| == 0 ==> RenderSlot(slot) == "-"
    ensures |slot| > 1 ==> RenderSlot(slot)[0] == '(' && RenderSlot(slot)[|RenderSlot(slot)| - 1] == ')'
    ensures |slot| == 1 && slot[0] < 10 ==> RenderSlot(slot) == [DigitChar(slot[0])]
  {
  }
}
