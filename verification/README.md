# Turing-Machine puzzle solver core, in Dafny

This project models the sequential core of a solver for the *Turing Machine*
board game. In that game, a secret code is a triple of digits in [1,5]: a blue
triangle, a yellow square and a purple circle. Each checker card asks one
question about the code. The card has one answer branch per outcome, and the
number of branches is its *grade*. The model covers:

- **Candidates** (`candidate.dfy`, module `Candidates`):
  - the checked three-digit constructor and the packed-number constructor;
  - the getters;
  - the tuple order.
- **Outcome signatures** (`potential_checkers.dfy`, module `PotentialCheckers`):
  - one set of branch indices per chosen checker, with `add`, `is_valid` and the three-way `is_compliant_with` rule;
  - the slot-wise lexicographic `operator<`;
  - the stream rendering, with a parser that reads single-digit renderings back.
- **Checkers** (`checker.dfy`, module `Checkers`): a record holding an id, a
  name and one predicate per branch, plus `run`. Each branch predicate is a
  small expression (`Pred`) transcribing the C++ lambda bodies, so no function
  values are stored.
- **The catalog** (`catalog.dfy`, module `Catalog`):
  - the seven registered checkers (ids 2, 3, 4, 7, 9, 13 and 14);
  - `register_checker` and `get_checker`;
  - which branches each checker selects.
- **The solver constructor** (`solver.dfy`, module `Solver`):
  - the checker-selection loop and its running maximum grade;
  - the candidate set built from the enumerated 3-digit words;
  - `compute_potential_checkers`, which keeps the enumerated words whose items all fall inside the chosen checkers' grades and writes each one as a string of branch digits.
- **Shared helpers**:
  - `wrappers.dfy` (module `Wrappers`): the `Result`/`Option` types and the error cases;
  - `cardinality.dfy` (module `Cardinality`): counting lemmas for finite sets.

How the C++ constructs are represented:

- **Exceptions** become `Err` results, with the error naming the failing value.
- **C++ `assert`s** become preconditions.
- **Console reads** of checker ids become an input sequence.
- **Words from `combinatorics::enumerator`** become parameters. The properties that hold when the enumerator yields every word are lemmas under that hypothesis.
- **The static catalog map** becomes an explicit immutable map value.
- **Unsigned arithmetic** is written out: the `get_word_item(i) - 1` subtraction wraps modulo 2^32, and `static_cast<char>('0' + k)` is truncated to 8 bits.

Points where the model follows the code closely:

- include/solver.h has no mapping from candidates to signatures and no elimination step, so none is modelled.
- `checker_base` (include/checker_base.h) stores the predicates and runs them. It does not define the `checker_if` accessors. Here the grade is the number of stored predicates, and the set of satisfied branches (the documented meaning of `get_correct_conditions`, include/checker_if.h:51-59) is the helper `Checkers.SatisfiedBranches`.
- The third branch of checker 14 is labelled "violet < (jaune && bleu)". The code tests purple *greater* than both other digits, and the model follows the code.

## Model

| member | source | states |
|---|---|---|
| Candidates.MakeCandidate | include/candidate.h:66-75 | succeeds exactly when all three digits are in [1,5]; on success the blue, yellow and purple getters return the arguments in that order; otherwise the error names the first component out of range (blue, then yellow, then purple) and its value |
| Candidates.CheckNumber | include/candidate.h:88-98 | fails exactly for a value below 1 or above 5, reporting the component and the value |
| Candidates.FromPacked | include/candidate.h:78-85 | the packed constructor is the three-digit constructor applied to the hundreds part, the tens digit and the units digit of the number |
| Candidates.PackRoundTrip | include/candidate.h:78-82 | for digits in [1,5], decoding 100*b+10*y+p gives exactly the candidate (b,y,p) |
| Candidates.PackedDecodeEncode | include/candidate.h:78-82 | every number the packed constructor accepts is the three-digit packing of the valid candidate it builds |
| Candidates.PackedRejects | include/candidate.h:79-81 | the packed constructor fails for every number with a 0 tens or units digit, below 100, or from 600 up; from 600 up the error is the blue triangle's hundreds part |
| Candidates.PackedExample | include/candidate.h:78-82 | 153 decodes to blue 1, yellow 5, purple 3 |
| Candidates.LessIsStrictTotalOrder | include/candidate.h:122-126 | the tuple order is irreflexive, asymmetric, transitive and total on distinct candidates |
| Candidates.LessIsPackedOrder | include/candidate.h:122-126 | on valid candidates, the tuple order coincides with the numeric order of the packed three-digit numbers |
| PotentialCheckers.Add | include/potential_checkers.h:64-68 | appends exactly one slot holding the given value, leaves the earlier slots unchanged, and keeps the signature valid exactly when the new slot is non-empty |
| PotentialCheckers.IsValid | include/potential_checkers.h:71-79 | holds exactly when every slot is non-empty, so a signature with no slots is valid |
| PotentialCheckers.Intersection | include/potential_checkers.h:97-103 | the merge of two ascending slots is ascending and holds exactly the values common to both |
| PotentialCheckers.SlotEqualityIsSetEquality | include/potential_checkers.h:91 | two ascending slots are equal exactly when they hold the same values, so comparing the sets is comparing the sequences |
| PotentialCheckers.IsCompliantWith | include/potential_checkers.h:82-118 | fails with the bad index exactly when the index is past the last slot; slots with the same values give the observed result; disjoint unequal slots give its negation; overlapping unequal slots give true |
| PotentialCheckers.CompliantSymmetric | include/potential_checkers.h:82-118 | swapping the signature and the probe never changes the compliance result, since equality and overlap of two slots are symmetric |
| PotentialCheckers.CompliantWithItself | include/potential_checkers.h:91-94 | a signature checked against itself at any valid index gives exactly the observed result |
| PotentialCheckers.Less | include/potential_checkers.h:121-143 | the loop returns true exactly when some first slot that differs is lexicographically smaller, and false when all slots are equal |
| PotentialCheckers.LexLessTotal | include/potential_checkers.h:134-138 | lexicographic comparison of two different slots orders them one way or the other |
| PotentialCheckers.SignatureLessIrreflexive | include/potential_checkers.h:121-143 | no signature is less than itself |
| PotentialCheckers.SignatureLessTransitive | include/potential_checkers.h:121-143 | the signature order is transitive |
| PotentialCheckers.SignatureLessTotal | include/potential_checkers.h:121-143 | of two different signatures of the same length, one is less than the other |
| PotentialCheckers.RenderSlotShapes | include/potential_checkers.h:151-170 | an empty slot prints "-", a slot of several values is wrapped in parentheses, and a single-digit singleton prints as that digit |
| PotentialCheckers.EmptySignatureIsValid | include/potential_checkers.h:36-37 | the default-constructed signature, with no slot, is valid and prints as the empty string |
| PotentialCheckers.Render | include/potential_checkers.h:146-172 | every slot prints at least one character, so the rendering is empty exactly when there is no slot; a rendering whose values are single digits reads back as the signature's slots |
| PotentialCheckers.ParseRenderRoundTrip | include/potential_checkers.h:146-172 | reading back the rendering of a signature whose values are single digits gives its slots |
| PotentialCheckers.RenderInjective | include/potential_checkers.h:146-172 | two different single-digit signatures never print the same |
| PotentialCheckers.RenderSingletons | include/potential_checkers.h:151-156 | a signature of single-digit singletons prints as one digit per slot, in order |
| Checkers.Eval | include/checker_func.h:55-58 | a comparison predicate holds exactly when the three-way outcome of its two operands is its operator; a parity predicate exactly when the digit's remainder by 2 is the one asked for (0 for the even branch, 1 for the odd one); a count predicate exactly when the number of digits equal to `d` is the one asked for |
| Checkers.Run | include/checker_base.h:62-71 | requires the branch to be below the grade; the result is the meaning of that branch's stored predicate: comparison outcome, parity or digit count, or both parts of a conjunction |
| Checkers.RunIgnoresIdentity | include/checker_base.h:62-71 | `run` depends only on the stored predicates: two checkers with the same predicates and any ids and names give the same result on every branch |
| Checkers.SatisfiedBranches | include/checker_if.h:51-59 | a branch index is in the set exactly when it is below the grade and its predicate holds for the candidate |
| Catalog.Register | include/solver.h:313-318 | requires the id to be absent; afterwards the keys are the old keys plus the id, the id maps to the checker, every other entry is unchanged, and keying by id is preserved |
| Catalog.GetChecker | include/solver.h:301-310 | fails with the id exactly when the id is not registered, and otherwise returns the registered checker |
| Catalog.RegisterThenGet | include/solver.h:301-318 | after registering a checker, looking up its id finds it, and looking up any other id gives what it gave before |
| Catalog.AllCheckers | include/solver.h:140-298 | registration of the whole catalog yields exactly the ids 2, 3, 4, 7, 9, 13 and 14, each filed under its own id with its branch predicates |
| Catalog.CatalogGrades | include/solver.h:143-297 | the grades of the registered checkers are 3, 3, 3, 2, 4, 3 and 3 |
| Catalog.EnsureRegistered | include/solver.h:71-74 | an empty catalog becomes exactly the registered catalog of the seven checkers; a non-empty one is kept as it is |
| Catalog.ComparisonBranches | include/solver.h:143-202 | a `<`, `==`, `>` comparison checker is satisfied by exactly the branch of the comparison's outcome |
| Catalog.ParityBranches | include/solver.h:203-218 | checker 7 is satisfied by exactly the branch of the purple digit's parity: 0 for even, 1 for odd |
| Catalog.CountBranches | include/solver.h:219-254 | checker 9 is satisfied by exactly the branch numbered by how many digits are 3 |
| Catalog.ExclusiveCheckers | include/solver.h:143-274 | every candidate satisfies exactly one branch of checkers 2, 3, 4, 7, 9 and 13, the one given by an independent definition of the expected outcome |
| Catalog.Checker14AsWritten | include/solver.h:275-297 | branch 0 holds iff blue is strictly smallest, branch 1 iff yellow is strictly smallest, branch 2 iff purple is strictly largest |
| Catalog.Checker14NotExclusive | include/solver.h:289-291 | (1,2,3) satisfies branches 0 and 2 of checker 14, and (2,2,2) satisfies none |
| Catalog.Checker4Example | src/main.cpp:38-58 | checker 4 on (1,2,3) gives true, false, false on branches 0, 1 and 2 |
| Solver.MaxGrade | include/solver.h:76-90 | the running maximum is at least every chosen grade and equals one of them, or is 0 when none is chosen |
| Solver.SelectCheckers | include/solver.h:76-90 | succeeds exactly when the input supplies at least max(1, n) ids, all registered; the chosen checkers are the registered checkers of those ids in order, and the maximum grade is their largest grade; on failure, selection stopped at a position below max(1, n) where the input ran out or the id is unknown, with every id before it registered |
| Solver.BuildCandidates | include/solver.h:92-98 | succeeds exactly when every enumerated word is a valid candidate; the set then holds exactly the candidates of the words; otherwise the error is that of the first invalid word |
| Solver.Universe | include/candidate.h:88-98 | the candidate universe holds exactly the valid triples |
| Solver.UniverseSize | include/candidate.h:88-98 | there are exactly 125 valid candidates |
| Solver.CandidateEnumerationGivesUniverse | include/solver.h:92-98 | when the enumeration yields every 3-digit word over [1,5] and nothing else, the candidate set is the whole universe of 125 candidates |
| Solver.EncodeWord | include/solver.h:115-129 | a word is accepted exactly when every item less one is below its checker's grade; the string then has one character per checker, namely '0' plus that index |
| Solver.ComputePotentialCheckers | include/solver.h:104-137 | the result is the set of strings of exactly the enumerated words that every chosen checker can produce |
| Solver.IndexTuplesMembers | include/solver.h:107-113 | a tuple is in the product of the branch ranges exactly when it has one index per checker, each below that checker's grade |
| Solver.IndexTuplesSize | include/solver.h:136 | the product of the branch ranges has as many tuples as the product of the grades |
| Solver.FullEnumeration | include/solver.h:104-137 | when the enumerator yields every word over [1,max] with one item per checker, the result is the product of the ranges [0, grade) written one digit per checker, and its size is the product of the grades |
| Solver.EncodingIsRendering | include/solver.h:122 | a kept string is the stream rendering of the signature whose slots are the singleton branch indices |
| Solver.NewSolver | include/solver.h:69-101 | the catalog is filled if it was empty; construction succeeds exactly when the first max(1, n) input ids are all present and registered and every enumerated candidate word is valid; on success the checkers are the registered checkers of those ids, the candidates are those of the enumerated words, and the potential checkers are the kept words' strings; a selection failure stops at the first missing or unknown id, and otherwise the error is that of the first invalid candidate word |

## Left out

- include/ask.h (console prompts, `std::from_chars` parsing, the log file) is input plumbing and is not part of this model.
- The interactive driver in src/main.cpp is not part of this model. It reads the number of checkers into a signed `int` and passes it on as unsigned. Only its checker-4 demonstration is kept, as `Catalog.Checker4Example`.
- include/checker_func.h wraps a `std::function` and a label. The wrapper is absorbed into the `Pred` expressions, and the branch labels are not modelled.
- include/checker_if.h is an interface with no behaviour. Only the documented meaning of `get_correct_conditions` is kept, as `Checkers.SatisfiedBranches`.
- The `combinatorics::enumerator` library and `display_word` are not part of this model. Their output is a parameter, because the meaning of the second argument of `symbol` is not visible. For the same reason, the words passed to `compute_potential_checkers` are not derived from the maximum grade.
- Console output is not modelled: the catalog listing, the kept strings and the count printed by `compute_potential_checkers`. Candidate printing (`operator<<` in include/candidate.h) is left out too.
- Solver.SelectCheckers: the model reports running out of input as its own error, `InputExhausted`. In C++ the id `l_id` is declared uninitialised (include/solver.h:83). At end of input the read fails before any conversion, so `l_id` keeps an indeterminate value and `get_checker` reads it, which is undefined behaviour; the same holds for every read after a first failure. Only a malformed first token stores 0 and leads to "No checker with ID 0". `InputExhausted` abstracts this undefined behaviour.
- Solver.FullEnumeration: assumes every grade is at most 10, so that each branch index is one decimal digit. The largest grade in the catalog is 4.
- PotentialCheckers.Render: the read-back covers only single-digit slot values. Multi-digit values are printed without separators, so their renderings are ambiguous, and no reader exists in the source.
- PotentialCheckers.ParseRenderRoundTrip: the read-back covers only single-digit slot values. Multi-digit values are printed without separators, so their renderings are ambiguous, and no reader exists in the source.
- Catalog.ExclusiveCheckers: states the exact set of satisfied branches, which implies that there is exactly one, without a separate cardinality clause.
- The static catalog and `shared_ptr` ownership are modelled by passing and returning an immutable map.
- Names and labels of checkers are kept as data but have no logic.
- The source has no mapping from candidates to signatures and no elimination step, so there is nothing of that kind to model.
