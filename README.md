# Meek STV tabulation, modelled in Dafny

Meeks-PRF-js counts single-transferable-vote elections by Meek's method,
the method Hill, Wichmann and Woodall published as Algorithm 123 in The
Computer Journal 30(3), 1987. A tabulation takes these inputs:

- the number of seats to fill;
- the candidates;
- the ballots, each with a multiple and rankings;
- a maximum number of ranking levels;
- a tie-breaker order;
- the excluded and protected candidates;
- the options.

It first validates and normalises every input. Then it counts round by
round. Each round goes like this:

1. The iterations repeat until the count settles. Each iteration hands
   every ballot down its rankings, and each candidate keeps the share of
   the weight its keep factor allows. Each iteration computes the quota
   as the votes for candidates divided by seats + 1, truncated to nine
   decimals, plus 10^-9. It also computes the total surplus of the
   elected candidates. Between iterations the elected candidates' keep
   factors are updated.
2. The hopefuls at or above the quota are elected.
3. If nobody was elected, the single lowest hopeful is defeated. The
   tie-breaker decides ties.

The tabulation reports three things:

- the elected candidates;
- a status record for every candidate;
- a tally with one entry per round.

Results renders these in a fixed sort order.

The model follows the program's modules:

| file | module | what it holds |
|---|---|---|
| wrappers.dfy | Wrappers | `Option` and `Result`, and the error kinds the program raises |
| digits.dfy | Digits | decimal digit strings of naturals and integers and their values |
| decimal9.dfy | Decimal9 | the nine-decimal fixed-point number as its scaled integer, the three rounding modes, construction, arithmetic, comparisons, `toString`; the in-place accumulator `Decimal9Total` as a class |
| constants.dfy | Constants | ZERO, ONE, ULP, the ranking codes and the option, status, destiny and rounding enumerations |
| js_values.dfy | JsValues | the raw JavaScript values the validator receives |
| text_scan.dfy | TextScan | scanning helpers used to read the renderings back |
| util_basic.dfy | UtilBasic | `indentMessage`, `toArrayOfStrings`, the order-keeping set operations, `getSortedKeys` |
| ballot.dfy | Ballots | the immutable Ballot record, its renderings and structural equality |
| validate.dfy | Validate | every `Validator` rule, as a function from a raw value to a normalised value or an error |
| status.dfy | Statuses | the Status record as a value, plus a `Status` class whose fields are reassigned in place |
| results.dfy | Results | sort keys, their comparator, the tally order and the text renderings |
| meek_count.dfy | MeekCount | one iteration's count, the quota, the surplus, the keep-factor update and the iterations of a round, all as functions |
| meek_round.dfy | MeekRound | the round as a function of the state it starts from, the invariant every round keeps, and the whole tabulation |
| meek.dfy | Meek | the `Tabulation` class, which holds `_statuses`, `_keepFactors`, `_tallies`, `_iterTally`, `_quota`, `_totalSurplus`, `_nbrRound` and `_nbrIteration` and updates them with methods proved against the functions of MeekCount and MeekRound; the module-level `tabulate(...)` |

The program's own implementation files are not part of this model; its
unit tests pin their behaviour down. Every row below therefore cites the
test lines whose expectations the member's contract generalises.

Where the tests and the program's written description disagree, the
model follows the tests:

- The default rounding of `times` and `divideBy` is truncation toward
  zero, not rounding to nearest.
- `nearest` sends exact halves to the even neighbour.
- The tally has one entry per round, not per iteration, with the number
  of iterations in its own `:Iterations` row.
- The quota divides by the fixed number of seats + 1.
- The total surplus sums each elected candidate's votes less the quota,
  unclamped.

Some numbers in the tests settle the counting conventions:

- A ballot's share for a candidate is its remaining weight times the keep
  factor, rounded away from zero.
- An overvote `#` sends the remaining weight to `:Overvotes`.
- Weight left at the end of the rankings goes to `:Abstentions`.
- A keep factor is updated to `kf.times(quota, away).divideBy(votes, away)`.
- `:Total surplus` is computed after the round's elections.

## Model

| member | source | states |
|---|---|---|
| Decimal9.RoundDivSpec | tests/unit/decimal9.test.js:393-518 | RoundDiv is exactly the quotient the reference predicate RoundedBy describes for each mode: truncation toward zero, away from zero, and nearest with ties to even |
| Decimal9.RoundDivMeets | tests/unit/decimal9.test.js:393-518 | the rounded quotient meets the rounding definition of its mode |
| Decimal9.RoundedByUnique | tests/unit/decimal9.test.js:393-518 | at most one integer is n/d rounded by a given mode |
| Decimal9.RoundMagnitudeError | tests/unit/decimal9.test.js:393-518 | the remainder left by rounding a magnitude lies in the range each mode allows |
| Decimal9.ErrorsClose | tests/unit/decimal9.test.js:433-445 | two quotients that both fit a mode leave errors within one divisor of each other, and a tie under nearest rounding happens only between even quotients |
| Decimal9.RoundDivExact | tests/unit/decimal9.test.js:405-418 | an exact quotient is returned unchanged by every rounding mode |
| Decimal9.RoundDivOdd | tests/unit/decimal9.test.js:462-518 | negating the dividend negates the rounded quotient in every mode, as the positive and negative rounding tables agree |
| Decimal9.AwayIsTruncatePlusOne | tests/unit/decimal9.test.js:447-460 | rounding away is one unit larger in magnitude than truncation exactly when the division is inexact |
| Decimal9.RoundedByScaled | tests/unit/decimal9.test.js:359-391 | scaling dividend and divisor by the same positive factor does not change the rounded quotient |
| Decimal9.Rescale | tests/unit/decimal9.test.js:128-134 | `new Decimal9(x, e)` for a Decimal9 x multiplies by 10^e, and for e < 0 truncates toward zero |
| Decimal9.Make | tests/unit/decimal9.test.js:55-82 | `new Decimal9(m, e)` is m * 10^e exactly when e >= -9 and the truncated quotient below that |
| Decimal9.MakeWhole | tests/unit/decimal9.test.js:30-58 | a whole number with a non-negative exponent is scaled exactly |
| Decimal9.MakeFraction | tests/unit/decimal9.test.js:60-65 | a fraction down to 10^-9 is represented exactly |
| Decimal9.MakeTruncated | tests/unit/decimal9.test.js:76-83 | digits below 10^-9 are truncated toward zero |
| Decimal9.Construct | tests/unit/decimal9.test.js:128-176 | the constructor accepts integers and Decimal9 values, rejects other values with "Value is not a supported type" and other exponents with "exponentOf10 is not a supported value" |
| Decimal9.AdditiveInverses | tests/unit/decimal9.test.js:331-357 | plus, minus and negative are exact: minus undoes plus, minus is plus of the negative, negation is an involution and plus commutes |
| Decimal9.Negative | tests/unit/decimal9.test.js:349-355 | `negative()` flips the sign; `AdditiveInverses` states that negating twice gives the value back, that a value plus its negative is zero and that `minus` is `plus` of the negative |
| Decimal9.SafeIsMagnitude | tests/unit/decimal9.test.js:225-234 | `isSafe()` holds exactly when the magnitude is at most 9000100, so one unit past either end is unsafe and a value and its negative are safe together |
| Decimal9.IsSafe | tests/unit/decimal9.test.js:225-234 | `isSafe()` holds exactly for values from -9000100 to 9000100, both ends included; `SafeIsMagnitude` states the same range as a bound on the magnitude |
| Decimal9.Times | tests/unit/decimal9.test.js:359-391 | the product is the exact product of the two values rounded to a unit by the given mode |
| Decimal9.TimesInt | tests/unit/decimal9.test.js:365-366 | multiplying by an integer is exact and agrees with multiplying by that whole number under every mode |
| Decimal9.DivideBy | tests/unit/decimal9.test.js:520-557 | dividing fails with "Divide by zero." exactly when the divisor is zero, and otherwise gives the exact quotient rounded by the mode |
| Decimal9.DivideByInt | tests/unit/decimal9.test.js:530-531 | dividing by an integer is dividing by that whole number |
| Decimal9.Compare | tests/unit/decimal9.test.js:303-315 | the three-way comparison is -1, 0 or 1, negative exactly when the first value is smaller and zero exactly when they are equal |
| Decimal9.CompareIsTotalOrder | tests/unit/decimal9.test.js:303-315 | the comparison is antisymmetric and transitive |
| Decimal9.ComparisonsAgree | tests/unit/decimal9.test.js:20-28 | the six comparison methods agree with the three-way order; null is unequal rather than an error, and any other non-Decimal9 operand is an error |
| Decimal9.IsLess | tests/unit/decimal9.test.js:20-28 | `isLess` answers `compare < 0` for a Decimal9 operand and fails with "Value is not an instance of the required type" for null or any other type (`ComparisonsAgree`) |
| Decimal9.IsLessEqual | tests/unit/decimal9.test.js:20-28 | `isLessEqual` answers `compare <= 0` for a Decimal9 operand and fails for null or any other type (`ComparisonsAgree`) |
| Decimal9.IsEqual | tests/unit/decimal9.test.js:20-28 | `isEqual` answers `compare == 0` for a Decimal9 operand, false for null, and fails for any other type (`ComparisonsAgree`) |
| Decimal9.IsNotEqual | tests/unit/decimal9.test.js:20-28 | `isNotEqual` answers `compare != 0` for a Decimal9 operand, true for null, and fails for any other type (`ComparisonsAgree`) |
| Decimal9.IsGreaterEqual | tests/unit/decimal9.test.js:20-28 | `isGreaterEqual` answers `compare >= 0` for a Decimal9 operand and fails for null or any other type (`ComparisonsAgree`) |
| Decimal9.IsGreater | tests/unit/decimal9.test.js:20-28 | `isGreater` answers `compare > 0` for a Decimal9 operand and fails for null or any other type (`ComparisonsAgree`) |
| Decimal9.ToStringRoundTrip | tests/unit/decimal9.test.js:178-187 | reading a rendering back gives the value rendered |
| Decimal9.ToString | tests/unit/decimal9.test.js:178-187 | `toString()` renders a '-' for negative values, the whole part, '.', and the fraction; `ToStringRoundTrip` states that the rendering reads back as the value, and `ToStringCanonical` states its form |
| Decimal9.ToStringHasNo | tests/unit/decimal9.test.js:178-187 | a rendering holds only digits, '.' and a leading '-' |
| Decimal9.ToStringCanonical | tests/unit/decimal9.test.js:178-187 | a rendering has one '.', one to nine fractional digits, no trailing zero unless the fraction is "0", and a '-' exactly for negative values |
| Decimal9.FractionDigits | tests/unit/decimal9.test.js:178-187 | the fractional part is rendered with one to nine digits |
| Decimal9.FractionDigitsValue | tests/unit/decimal9.test.js:178-187 | the fractional digits read back as the fraction they render |
| Decimal9.Decimal9Total.constructor | tests/unit/decimal9.test.js:560-565 | a new total is zero |
| Decimal9.Decimal9Total.Plus | tests/unit/decimal9.test.js:567-584 | adding changes the total in place by the value added and returns the same object |
| Decimal9.Decimal9Total.Minus | tests/unit/decimal9.test.js:586-612 | subtracting changes the total in place by the value subtracted and returns the same object |
| Constants.ValueConstants | tests/unit/constants.test.js:16-20 | ZERO is 0, ONE is 1 and ULP is 10^-9, the smallest step |
| Constants.RankingCodes | tests/unit/constants.test.js:24-28 | exactly two ranking codes name no candidate: '' for an undervote and '#' for an overvote |
| Constants.OptionNames | tests/unit/constants.test.js:32-38 | there are exactly four option names; each is read back as itself, and a text is read as an option exactly when it is one of them |
| Constants.ParseOptionName | tests/unit/constants.test.js:32-38 | a text read as an option name is that option's name |
| Constants.ParseYesNo | tests/unit/constants.test.js:39-43 | a text read as a yes/no value is 'Y' or 'N' up to letter case |
| Constants.YesNoRoundTrip | tests/unit/constants.test.js:39-43 | 'Y' and 'N', in either case, are read back as their values |
| Constants.ParseAltDefsType | tests/unit/constants.test.js:44-51 | a text read as a type of alternative defeats is that type's name up to letter case |
| Constants.AltDefsTypeIgnoresCase | tests/unit/validate.test.js:804-829 | a text is read as a type of alternative defeats exactly when it spells that type's name in some mixture of letter cases, as 'pEr_RefereNce_ruLe' and 'before_SINGLE_defeats' do |
| Constants.AltDefsTypeRoundTrip | tests/unit/constants.test.js:44-51 | each of the three types is read back from its name |
| Constants.ParseBallotTree | tests/unit/constants.test.js:57-62 | a text read as a ballot-tree value is that value's name up to letter case |
| Constants.BallotTreeIgnoresCase | tests/unit/constants.test.js:57-62 | a text is read as a ballot-tree value exactly when it spells that value's name in some mixture of letter cases |
| Constants.BallotTreeRoundTrip | tests/unit/constants.test.js:57-62 | each of the three ballot-tree values is read back from its name |
| Constants.EnumerationNamesDistinct | tests/unit/constants.test.js:65-87 | the status, destiny and rounding-mode names are distinct within each enumeration |
| Ballots.ToStringRoundTrip | tests/unit/ballot.test.js:49-68 | `toString()`/`valueOf()` of a ballot whose codes hold no double quote reads back as the same ballot |
| Ballots.ToString | tests/unit/ballot.test.js:49-68 | `toString()` renders the multiple and the quoted codes; `ToStringRoundTrip` reads it back and `ToStringInjective` shows that different ballots render differently |
| Ballots.AfterMultipleRoundTrip | tests/unit/ballot.test.js:52-57 | the rankings part of a rendering reads back as the rankings |
| Ballots.ToStringInjective | tests/unit/ballot.test.js:49-68 | different ballots render differently |
| Ballots.AsArrayRoundTrip | tests/unit/ballot.test.js:69-77 | `asArray()` gives `[multiple, rankings]`, which reads back as the same ballot |
| Ballots.AsArray | tests/unit/ballot.test.js:69-77 | `asArray()` is `[multiple, rankings]`; `AsArrayRoundTrip` reads it back as the same ballot |
| Ballots.SameRankings | tests/unit/ballot.test.js:106-119 | rankings compare equal exactly when they have the same codes in the same order |
| Ballots.IsEqual | tests/unit/ballot.test.js:81-125 | `isEqual` holds exactly when the other operand is a ballot with the same multiple and rankings; null and a non-array rankings field are unequal |
| Ballots.IsNotEqual | tests/unit/ballot.test.js:81-125 | `isNotEqual` is the negation of `isEqual`, null included |
| UtilBasic.IndentRoundTrip | tests/unit/util_basic.test.js:14-41 | `indentMessage` loses nothing: removing the n spaces it put at the start and after each inner newline gives back the message |
| UtilBasic.IndentZero | tests/unit/util_basic.test.js:38-41 | an indent of zero spaces leaves the message unchanged |
| UtilBasic.IndentMessage | tests/unit/util_basic.test.js:14-41 | the indented message is at least n characters longer than the message and begins with n spaces; `IndentLines` says where the other spaces go |
| UtilBasic.IndentMessageDefault | tests/unit/util_basic.test.js:15-26 | without an indent argument the indent is two spaces: the result begins with two spaces and removing a two-space indent gives back the message |
| UtilBasic.IndentLines | tests/unit/util_basic.test.js:14-41 | split at newlines, the indented message has as many lines as the message, and each is the message's line with n spaces in front, empty lines and the empty message included; only the empty piece after a final newline stays empty |
| UtilBasic.Spaces | tests/unit/util_basic.test.js:14-41 | the indent is exactly n spaces |
| UtilBasic.Split | tests/unit/util_basic.test.js:159-180 | splitting gives at least one piece, and no piece holds the delimiter |
| UtilBasic.Join | tests/unit/util_basic.test.js:159-180 | the pieces with the delimiter between each two; `JoinSplit` and `SplitJoin` make it the inverse of `Split` for pieces without the delimiter |
| UtilBasic.JoinSplit | tests/unit/util_basic.test.js:159-180 | joining the pieces with the delimiter gives back the string split |
| UtilBasic.SplitJoin | tests/unit/util_basic.test.js:159-180 | splitting joined pieces that hold no delimiter gives back the pieces, empty pieces included |
| UtilBasic.ToArrayOfStrings | tests/unit/util_basic.test.js:131-269 | a string is split by its first character, '' gives [], an array of strings is returned as is; anything else, or an array with a non-string item, is a UtilValueError with the matching message |
| UtilBasic.ToArrayOfStringsRoundTrip | tests/unit/util_basic.test.js:159-211 | items without the delimiter come back from their delimited string, from a String object and from their array |
| UtilBasic.SetUnion | tests/unit/util_basic.test.js:455-481 | the union holds each element of a or b once, in order of first occurrence in a then b |
| UtilBasic.SetIntersection | tests/unit/util_basic.test.js:483-509 | the intersection holds each element of a that occurs in b once, in a's order |
| UtilBasic.SetDifference | tests/unit/util_basic.test.js:511-537 | the difference holds each element of a that does not occur in b once, in a's order |
| UtilBasic.SelectMembers | tests/unit/util_basic.test.js:455-537 | the shared selection keeps exactly the wanted elements |
| UtilBasic.SelectDistinct | tests/unit/util_basic.test.js:455-537 | the shared selection keeps each element once |
| UtilBasic.SelectOrder | tests/unit/util_basic.test.js:455-537 | the shared selection keeps the order of first occurrence |
| UtilBasic.KeyOrder | tests/unit/util_basic.test.js:356-390 | the key order (integer-like keys by value, then other keys by code units) is irreflexive, transitive and total |
| UtilBasic.LexLessTotal | tests/unit/util_basic.test.js:373-390 | any two different strings are ordered one way or the other by code units |
| UtilBasic.LexLessTransitive | tests/unit/util_basic.test.js:373-390 | the code-unit order on strings is transitive |
| UtilBasic.GetSortedKeys | tests/unit/util_basic.test.js:356-412 | the sorted keys are the given keys, rearranged into key order |
| UtilBasic.SortBy | tests/unit/util_basic.test.js:356-412 | sorting gives a sorted permutation of its input |
| UtilBasic.InsertBy | tests/unit/util_basic.test.js:356-412 | insertion into a sorted list keeps it sorted and adds exactly the element |
| UtilBasic.SortedByUnique | tests/unit/util_basic.test.js:356-412 | two sorted arrangements of the same elements are equal, so the key order decides the result |
| UtilBasic.SortByIgnoresOrder | tests/unit/util_basic.test.js:356-412 | sorting two arrangements of the same keys gives the same list |
| Validate.ToArrayOfStrings | tests/unit/validate.test.js:17-155 | the validator's conversion accepts what the basic conversion accepts, gives the same strings, and reports its errors as MeekValueError with the same message |
| Validate.NbrSeatsToFill | tests/unit/validate.test.js:157-215 | the seats are accepted exactly when they are an integer in 1..9000100 and returned unchanged; a value that is not a safe integer gives "not a safe integer", a safe one below 1 gives "less than 1" |
| Validate.MaxRankingLevels | tests/unit/validate.test.js:513-569 | null means no limit; an integer in 3..9000100 is accepted unchanged; a safe integer below 3 gives "less than 3" and anything else "not a safe integer" |
| Validate.Candidates | tests/unit/validate.test.js:217-289 | the candidates are accepted exactly when the conversion succeeds, every ID is non-empty, not '#', does not start with ':', and no ID repeats; the IDs are returned in order |
| Validate.CandidatesRoundTrip | tests/unit/validate.test.js:217-246 | valid distinct IDs come back from their array and from any delimited string of them |
| Validate.TieBreaker | tests/unit/validate.test.js:291-365 | the tie-breaker is accepted exactly when its IDs are distinct candidates, and maps each ID to its 0-based position |
| Validate.Excluded | tests/unit/validate.test.js:571-662 | null or '' gives the empty set; otherwise the distinct candidates listed, with the type, ID, candidate and duplicate errors |
| Validate.ProtectedCandidates | tests/unit/validate.test.js:664-785 | null or '' gives the empty set; otherwise the distinct candidates listed, none excluded and no more than the seats to fill |
| Validate.DistinctSetSize | tests/unit/validate.test.js:779-785 | the number of protected candidates is the number of distinct IDs listed |
| Validate.Rankings | tests/unit/validate.test.js:367-428 | rankings are accepted exactly when every code is a candidate, '' or '#', and there are no more codes than the ranking limit |
| Validate.OneBallot | tests/unit/validate.test.js:367-500 | a ballot is `[multiple, rankings]` with a multiple in 1..9000100, or bare rankings counted once; the result is always a valid ballot, and each malformed kind gets its own error |
| Validate.Accumulate | tests/unit/validate.test.js:502-510 | the ballots are read in order, stopping at the first failure, and the running total of multiples stays within 9000100 |
| Validate.AccumulateAll | tests/unit/validate.test.js:502-510 | conversely, ballots that all read, with a total within 9000100, are all accepted |
| Validate.ValidateBallots | tests/unit/validate.test.js:367-510 | the ballots are an array of valid ballots, one per item, whose multiples total at most 9000100 |
| Validate.ValidateBallotsItems | tests/unit/validate.test.js:367-428 | each validated ballot is the one its item denotes |
| Validate.BallotsRoundTrip | tests/unit/validate.test.js:367-428 | valid ballots with a safe total come back from their `asArray()` forms |
| Validate.OneBallotOfAsArray | tests/unit/validate.test.js:367-428 | one valid ballot comes back from its `asArray()` form |
| Validate.PerRoundValues | tests/unit/validate.test.js:788-803 | a per-round alternative-defeats list is accepted exactly when each item is Y or N in either case, and is read item by item |
| Validate.AltDefsOption | tests/unit/validate.test.js:788-803 | a one-character string is the value for every round, normalised to upper case; an array or longer delimited string is a per-round list; other types are an error |
| Validate.TypeOfAltDefsOption | tests/unit/validate.test.js:804-814 | the type of alternative defeats is accepted exactly when it names one of the three types, in any case |
| Validate.TypeOfAltDefsIgnoresCase | tests/unit/validate.test.js:804-829 | the `type_of_altdefs` option gives a type exactly when its text spells that type's name in some mixture of letter cases |
| Validate.AlwaysCountVotesOption | tests/unit/validate.test.js:815-820 | always_count_votes is accepted exactly when it is a boolean, and is that boolean |
| Validate.BallotTreeOption | tests/unit/meeks.test.js:122-134 | ballot_tree is null or one of its three values |
| Validate.ApplyOption | tests/unit/validate.test.js:840-847 | an unknown option name is an error |
| Validate.ApplyOptions | tests/unit/validate.test.js:821-847 | options holding an unknown name are rejected |
| Validate.ValidateOptions | tests/unit/validate.test.js:787-881 | null or undefined gives the defaults, a non-object is an error, and an object with an unknown option name is rejected |
| Validate.OptionsRoundTrip | tests/unit/validate.test.js:821-838 | every combination of option values is read back from the object that spells it out |
| Validate.AltDefsRoundTrip | tests/unit/validate.test.js:788-803 | every alternative-defeats value is read back from its spelt-out form |
| Validate.OptionRoundTrip | tests/unit/validate.test.js:788-820 | applying one spelt-out option copies that option and leaves the others |
| Statuses.DefaultStatus | tests/unit/status.test.js:14-23 | a new status has zero votes, round 0, status hopeful, keep factor ONE and destiny normal |
| Statuses.Status.constructor | tests/unit/status.test.js:24-36 | the six-argument constructor stores the six values given |
| Statuses.Status.Default | tests/unit/status.test.js:14-23 | `new Status(candidate)` holds the default values, and `new Status()` does so for ':???' |
| Statuses.Status.Copy | tests/unit/status.test.js:37-53 | `new Status(other)` holds the other status's six values |
| Statuses.CopyIsIndependent | tests/unit/status.test.js:37-53 | changing the original's round after copying leaves the copy's values as they were |
| Statuses.AsArray | tests/unit/status.test.js:82-98 | `asArray()` has five entries for a normal destiny and six otherwise |
| Statuses.AsArrayRoundTrip | tests/unit/status.test.js:82-98 | `asArray()` gives [candidate, status, nbrRound, votes, keepFactor] with the destiny appended only when not normal, and reads back as the same status |
| Statuses.FromArray | tests/unit/status.test.js:82-98 | reads an `asArray()` array back into a status; `AsArrayRoundTrip` states that it gives back the status the array came from |
| Statuses.EnumerationTexts | tests/unit/status.test.js:82-115 | status and destiny names are read back as themselves and hold no double quote |
| Statuses.ToStringRoundTrip | tests/unit/status.test.js:99-115 | the `toString()` rendering, with the destiny only when not normal, reads back as the same status when the ID holds no double quote |
| Statuses.ToString | tests/unit/status.test.js:99-115 | `toString()` renders the six fields, with the destiny only when it is not normal; `ToStringRoundTrip` reads it back as the same status |
| Statuses.VotesTextRoundTrip | tests/unit/status.test.js:99-115 | votes render as null exactly when absent, and otherwise as a decimal that reads back as the votes |
| Statuses.DestinyPartRoundTrip | tests/unit/status.test.js:107-115 | the destiny part, empty for normal, reads back as the destiny |
| Statuses.IsEqual | tests/unit/status.test.js:118-219 | `isEqual` holds exactly when the other operand is a status with the same six field values; null is never equal |
| Statuses.IsNotEqual | tests/unit/status.test.js:118-219 | `isNotEqual` is the negation of `isEqual` |
| Results.GetSortKey | tests/unit/results.test.js:17-53 | a sort key ends with the key itself; it begins with 1 exactly for a candidate, with 2 exactly for a summary label that is not a candidate, and otherwise with 3 |
| Results.CompareCells | tests/unit/results.test.js:56-112 | comparing two key entries gives -1, 0 or 1 |
| Results.CompareSortKeys | tests/unit/results.test.js:56-112 | `compareSortKeys` gives -1, 0 or 1 |
| Results.CompareCellsOrder | tests/unit/results.test.js:56-112 | key entries compare antisymmetrically, equal only when identical, and transitively |
| Results.CompareSortKeysAntisymmetric | tests/unit/results.test.js:56-112 | swapping the two keys negates the comparison, and it is 0 exactly when the keys are equal (the "first less" and "first greater" cases mirror each other) |
| Results.CompareSortKeysTransitive | tests/unit/results.test.js:56-112 | the key comparison is transitive |
| Results.CompareSortKeysFirstDifference | tests/unit/results.test.js:56-112 | when two keys agree before index i and their entries at i differ, the comparison is the comparison of those entries, as in each "first less/greater at index i" case |
| Results.CompareSortKeysPrefix | tests/unit/results.test.js:56-112 | a key that is a proper prefix of another compares -1 against it and the longer key 1; keys built by `GetSortKey` are never prefixes of each other, so this rule is the model's own |
| Results.KeyPrecedesIsStrictTotalOrder | tests/unit/results.test.js:56-112 | ordering keys by their sort keys is a strict total order |
| Results.SortedKeys | tests/unit/results.test.js:162-167 | `getTallyOrderAsArray` returns the tally's keys sorted by sort key, as a permutation of them |
| Results.SortedKeysIgnoresOrder | tests/unit/results.test.js:162-167 | the order of the tally's keys in the input does not change the result |
| Results.SortedKeysMembers | tests/unit/results.test.js:162-167 | the sorted order holds exactly the tally's keys |
| Results.CandidatesFirst | tests/unit/results.test.js:162-167 | every candidate comes before every key that is not a candidate |
| Results.LabelsBeforeOthers | tests/unit/results.test.js:17-53 | summary labels come before keys that are neither candidates nor labels |
| Results.LabelsInOrder | tests/unit/results.test.js:162-167 | summary labels keep their fixed order, ":Votes for candidates" before ":Iterations" among them |
| Results.CandidateKeyOrder | tests/unit/results.test.js:17-53 | among candidates: elected before hopeful before defeated, elected by ascending round, defeated by descending round, and within one status and round more votes first |
| Results.StatusesInOrder | tests/unit/meeks.test.js:98-112 | the rendered statuses follow that status order position by position |
| Results.GetTallyOrderAsLookup | tests/unit/results.test.js:168-173 | `getTallyOrderAsLookup` maps exactly the tally's keys, each to its position in the sorted order |
| Results.LookupFollowsOrder | tests/unit/results.test.js:168-173 | one key's position is below another's exactly when its sort key is smaller |
| Results.Significand | tests/unit/results.test.js:114-150 | a positive number of units factors as a significand that is not a multiple of ten times a power of ten |
| Results.ExponentTextValue | tests/unit/results.test.js:114-150 | the exponent form of a tiny number carries its significant digits without trailing zeros |
| Results.NumberTextReadsBack | tests/unit/results.test.js:114-150 | from 1e-6 upward in magnitude, a rendered number reads back as the same value |
| Results.NumberText | tests/unit/results.test.js:114-150 | a number as JavaScript prints it: zero and magnitudes from 1e-6 up in decimal form, which `NumberTextReadsBack` reads back, and smaller ones in exponent form, whose digits `ExponentTextValue` states |
| Results.WithCommas | tests/unit/results.test.js:114-150 | every rendered line but the last gets a comma |
| Results.Texts | tests/unit/results.test.js:151-161 | the list of IDs becomes a list of string entries, one per ID in order |
| Results.StatusLines | tests/unit/results.test.js:130-139 | one line per key in the given order, each the status's `asArray()` entries |
| Results.TallyLines | tests/unit/results.test.js:151-161 | one line per key in the given order, each the key followed by its row of the tally |
| Results.StatusesAsStringLines | tests/unit/results.test.js:114-150 | `getStatusesAsString` is the opening line, then one line per status in sort-key order (null where the votes are absent), each but the last with a comma, then the closing line |
| Results.GetStatusesAsString | tests/unit/results.test.js:114-150 | `getStatusesAsString` renders the statuses in sort-key order; `StatusesAsStringLines` states it line by line |
| Results.TallyAsStringLines | tests/unit/results.test.js:151-161 | `getTallyAsString` is the opening line, then one line per tally key in sort-key order, each but the last with a comma, then the closing line |
| Results.GetTallyAsString | tests/unit/results.test.js:151-161 | `getTallyAsString` renders the tally rows in sort-key order; `TallyAsStringLines` states it line by line |
| Results.GetElectedAsString | tests/unit/meeks.test.js:98-100 | `getElectedAsString` renders any elected list as `  "elected": [` followed by the IDs, each in double quotes and separated by ", ", and `]`; for IDs without double quotes the bracketed part reads back as the list (`ElectedStringReadsBack`) |
| Results.JoinTexts | tests/unit/meeks.test.js:98-100 | the quoted entries of any list of IDs join into the same text as the ballot rendering's quoted list |
| Results.ElectedStringReadsBack | tests/unit/meeks.test.js:98-100 | for every elected list, the rendering is the opening text, the quoted comma-separated IDs and `]`, and the bracketed part reads back as the list when no ID holds a double quote |
| Results.ElectedStringExample | tests/unit/meeks.test.js:49 | the elected list A, B, E renders as `  "elected": ["A", "B", "E"]` |
| Meek.Tabulation.constructor | tests/unit/meekparts.test.js:31-51 | a new tabulation holds the validated inputs and an empty state: no statuses, keep factors or tallies, round and iteration 0 |
| Meek.Tabulation.Create | tests/unit/meekparts.test.js:31-51 | construction on raw inputs succeeds exactly when every input validates, holds the validated configuration, and otherwise fails with the first validation error |
| Meek.Tabulation.Setup | tests/unit/meekparts.test.js:54-81 | before round 1 the state is exactly `Initial` of the configuration |
| Meek.Tabulation.InitialStatuses | tests/unit/meekparts.test.js:62-78 | the statuses and keep factors built candidate by candidate are those of `Initial` |
| Meek.Tabulation.InitIterTally | tests/unit/meekparts.test.js:83-95 | `_initIterTally()` sets every candidate's count and the three exhausted categories to zero |
| Meek.Tabulation.DistributeBallot | tests/unit/meekparts.test.js:83-95 | one ballot's ranking-by-ranking transfer equals the `Walk` specification from weight one |
| Meek.Tabulation.DistributeVotes | tests/unit/meekparts.test.js:83-95 | `_distributeVotes()` equals the `Distribute` specification over all ballots |
| Meek.Tabulation.GetTotalSurplus | tests/unit/meekparts.test.js:189-198 | `_getTotalSurplus()` is the `Surplus` of the elected candidates over the current quota |
| Meek.Tabulation.UpdateKeepFactors | tests/unit/meeks.test.js:27-33 | the keep factors become `UpdateKeepFactors` of the old ones, and a failed update leaves them unchanged |
| Meek.Tabulation.Count | tests/unit/meekparts.test.js:98-109 | one count's tally, quota and surplus are `CountOnce` of the keep factors |
| Meek.Tabulation.IterationStep | tests/unit/meeks.test.js:46-47 | an iteration reports "settled" exactly when its count has settled, keeps the keep factors when settled, and otherwise updates them as `UpdateKeepFactors` says |
| Meek.Tabulation.Iterate | tests/unit/meeks.test.js:46-47 | the loop of iterations ends where the `Converge` specification ends, with its count, keep factors and iteration number, or fails with its error |
| Meek.IterationStepConverges | tests/unit/meeks.test.js:46-47 | a settled step ends `Converge` there; an unsettled step continues it from the updated keep factors with a surplus at least omega and below the previous one; a failed step fails it |
| Meek.Tabulation.UpdateStatuses | tests/unit/meekparts.test.js:98-119 | the status update records each candidate's count, keep factor and round as `AfterCount` says |
| Meek.Tabulation.QuotaWinners | tests/unit/meeks.test.js:156-159 | the candidates found are exactly the hopefuls at or above the quota |
| Meek.Tabulation.ElectCandidates | tests/unit/meekparts.test.js:155-175 | `_electCandidates(ids)` marks exactly those candidates elected and changes nothing else |
| Meek.Tabulation.DefeatCandidates | tests/unit/meekparts.test.js:122-153 | `_defeatCandidates(ids)` marks exactly those candidates defeated and sets their working keep factors to zero |
| Meek.Tabulation.ResolveTie | tests/unit/meekparts.test.js:177-187 | `_resolveTie` fails exactly when a tied candidate is missing from the tie-breaker, and otherwise returns the tied candidate earliest in it |
| Meek.Tabulation.GetSingleDefeatCandidate | tests/unit/meekparts.test.js:189-203 | `_getSingleDefeatCandidate()` is the singleton of `SingleDefeatCandidate`, or its error |
| Meek.Tabulation.TiedCandidates | tests/unit/meekparts.test.js:199-201 | the candidates gathered in one pass are the defeat pool's members with the fewest votes |
| Meek.Tabulation.Lowest | tests/unit/meekparts.test.js:189-203 | the one-pass minimum equals `LowestVotes` of the pool |
| Meek.Tabulation.HopefulVotes | tests/unit/onew.test.js:74-80 | `_hopefulVotes()` is `HopefulVotes` of the statuses |
| Meek.Tabulation.AppendTally | tests/unit/onew.test.js:36-48 | the round's entries are appended to the tally as `AppendRound` says |
| Meek.Tabulation.Decide | tests/unit/onew.test.js:31-35 | the end-of-round decision changes the state exactly as `Decide` says, or fails with its error |
| Meek.Tabulation.RunRound | tests/unit/meeks.test.js:14-48 | one round changes the state exactly as `Round` says, or fails with its error |
| Meek.Tabulation.Conclude | tests/unit/meeks.test.js:14-48 | after the iterations, the status update, elections and decision give `Round`'s result |
| Meek.Tabulation.FinishRound | tests/unit/meekparts.test.js:98-119 | after the iterations, the state and the "anyone elected" flag are those of `AfterConverge` |
| Meek.Tabulation.Tabulate | tests/unit/onew.test.js:49-55 | `tabulate()` returns exactly the `Tabulate` specification of its configuration |
| Meek.Tabulate | tests/unit/meeks.test.js:114-121 | the module-level `tabulate(...)` returns the results of validating the raw inputs and tabulating, or the first error |
| MeekCount.EmptyTally | tests/unit/meekparts.test.js:83-95 | the empty tally has every candidate and nothing else at zero, and zero in every exhausted category |
| MeekCount.SumCredit | tests/unit/onew.test.js:36-47 | crediting one candidate adds the credit to the sum of the counts exactly once |
| MeekCount.WalkConserves | tests/unit/onew.test.js:127-141 | reading a ballot adds exactly its multiple times its weight to the total votes, split among candidates, overvotes and abstentions |
| MeekCount.DistributeConserves | tests/unit/onew.test.js:127-141 | reading all ballots adds exactly one vote per voter to the total |
| MeekCount.CountConserves | tests/unit/onew.test.js:36-47 | every iteration's `:Total votes` equals the number of voters |
| MeekCount.Walk | tests/unit/meekparts.test.js:83-95 | one ballot's transfer: an overvote exhausts the weight, an undervote is passed over, each ranked candidate keeps weight times keep factor, rounded away from zero, and the rest at the end is an abstention; `WalkConserves` and `WalkNonNegative` state what it keeps |
| MeekCount.Distribute | tests/unit/meekparts.test.js:83-95 | all ballots in turn, each from weight one; `DistributeConserves` and `DistributeNonNegative` state what it keeps |
| MeekCount.CountVotes | tests/unit/meekparts.test.js:98-109 | one count from the empty tally; `CountConserves` states that its total is the number of voters |
| MeekCount.CountOnce | tests/unit/meekparts.test.js:98-109 | one iteration: the count, the quota of its votes for candidates and the surplus over that quota |
| MeekCount.DistributeKeepsOtherExhausted | tests/unit/onew.test.js:135 | no ballot is counted as "other exhausted" |
| MeekCount.WalkKeepsOtherExhausted | tests/unit/onew.test.js:135 | reading one ballot leaves "other exhausted" as it was |
| MeekCount.ShareBounds | tests/unit/meeks.test.js:27-39 | a candidate's share of a weight, rounded away from zero with a keep factor between zero and one, lies between zero and the weight |
| MeekCount.CreditNonNegative | tests/unit/meeks.test.js:34-39 | crediting a share that is not negative keeps every count non-negative |
| MeekCount.WalkNonNegative | tests/unit/meeks.test.js:34-39 | reading a ballot with keep factors in range keeps every count non-negative |
| MeekCount.DistributeNonNegative | tests/unit/meeks.test.js:34-39 | with keep factors between zero and one, no count is ever negative |
| MeekCount.QuotaBounds | tests/unit/onew.test.js:45 | the quota is the votes for candidates over seats + 1, truncated, plus one unit: seats + 1 quotas exceed those votes and seats + 1 quotas less one unit do not |
| MeekCount.Quota | tests/unit/onew.test.js:45 | `:Quota` is the votes for candidates over seats + 1, truncated, plus one unit (16.500000001 for 33 votes and one seat); `QuotaBounds` states the bounds this gives |
| MeekCount.GroupBounds | tests/unit/onew.test.js:45 | a group whose members each hold at least q has votes between its size times q and the sum of all counts |
| MeekCount.GroupSizeIsCardinality | tests/unit/onew.test.js:45 | the counted group size is the number of its members |
| MeekCount.QuotaLimitsWinners | tests/unit/meeks.test.js:156-159 | no more candidates than there are seats can reach the quota in one count |
| MeekCount.FewerThanSeatsPlusOne | tests/unit/onew.test.js:45 | n shares of at least q inside a total below (seats + 1) times q means n is at most seats |
| MeekCount.SurplusIsExcess | tests/unit/onew.test.js:46 | the total surplus is the elected candidates' votes less one quota each |
| MeekCount.Surplus | tests/unit/onew.test.js:46 | `:Total surplus` sums the elected candidates' votes above the quota; `SurplusIsExcess` and `SurplusBounds` state it |
| MeekCount.SurplusBounds | tests/unit/onew.test.js:46 | with nobody elected the surplus is zero, and it is never negative while each elected candidate holds the quota |
| MeekCount.GroupExcess | tests/unit/onew.test.js:46 | a group whose members each hold at least q has at least its size times q votes |
| MeekCount.NextKeepFactor | tests/unit/meeks.test.js:27-33 | the next keep factor fails exactly when the candidate has no votes |
| MeekCount.NextKeepFactorBounds | tests/unit/meeks.test.js:27-33 | the next keep factor times the votes is at least the old keep factor times the quota, and above it by less than one unit plus the votes |
| MeekCount.KeepFactorRounding | tests/unit/meeks.test.js:27-33 | the two roundings away from zero keep the product within those bounds |
| MeekCount.UpdateKeepFactors | tests/unit/meeks.test.js:27-33 | an update keeps the same candidates' keep factors |
| MeekCount.UpdateKeepsOthers | tests/unit/onew.test.js:31-35 | only elected candidates' keep factors change; hopeful and defeated ones stay |
| MeekCount.OmegaValue | tests/unit/meekparts.test.js:60 | omega is 10^-6 |
| MeekCount.ConvergeResult | tests/unit/meeks.test.js:46-47 | where the iterations end, the count is the one made with the final keep factors, it has settled unless it was the first, and only elected candidates' keep factors changed |
| MeekCount.EndsWellLift | tests/unit/meeks.test.js:46-47 | an end reached from updated keep factors is also reached from the keep factors before that update |
| MeekCount.ConvergeSettled | tests/unit/meeks.test.js:46-47 | a settled count ends the iterations with that count |
| MeekCount.ConvergeStep | tests/unit/meeks.test.js:46-47 | an unsettled count has a surplus of at least omega below the previous one, and the iterations go on from the updated keep factors or fail with the update's error |
| MeekCount.Settled | tests/unit/meeks.test.js:46-47 | the iterations stop when a hopeful reaches the quota or the surplus is below omega, and, by the model's own rule, when the surplus no longer falls |
| MeekCount.Converge | tests/unit/meeks.test.js:46-47 | the iterations of a round; `ConvergeResult`, `ConvergeSettled` and `ConvergeStep` state where they end |
| MeekRound.NewTabulation | tests/unit/meekparts.test.js:31-51 | construction succeeds exactly when seats, candidates, ranking levels, ballots, tie-breaker, excluded, protected and options all validate, and then the configuration meets what the validator guarantees |
| MeekRound.Initial | tests/unit/meekparts.test.js:54-81 | before round 1 every candidate has a status with no votes and round 0, hopeful exactly when not excluded, keep factor one (zero when excluded), and every tally row is empty |
| MeekRound.Hopefuls | tests/unit/meekparts.test.js:136-148 | `_hopeful()` lists exactly the candidates whose status is hopeful |
| MeekRound.HopefulVotes | tests/unit/onew.test.js:74-80 | `_hopefulVotes()` maps exactly the hopefuls, each to its recorded votes |
| MeekRound.AfterCount | tests/unit/meekparts.test.js:98-119 | the status update keeps every candidate's status and destiny |
| MeekRound.WithStatus | tests/unit/meekparts.test.js:139-147 | changing statuses keeps the same candidates |
| MeekRound.ZeroFactors | tests/unit/meekparts.test.js:138-150 | zeroing keep factors keeps the same candidates |
| MeekRound.WithStatusHopefuls | tests/unit/meekparts.test.js:148-173 | electing or defeating takes exactly those candidates out of the hopefuls |
| MeekRound.WithStatusEffect | tests/unit/meekparts.test.js:139-171 | electing or defeating sets the status of exactly the chosen candidates and leaves every other field of every status as it was |
| MeekRound.ZeroFactorsEffect | tests/unit/meekparts.test.js:138-150 | defeating sets the chosen candidates' working keep factors to zero and leaves the others as they were |
| MeekRound.AfterCountEffect | tests/unit/onew.test.js:31-35 | the status update records every candidate's working keep factor (so an earlier defeat shows zero), gives hopefuls the round's count and round number, and leaves the count and round of elected and defeated candidates as they were |
| MeekRound.ReachedQuota | tests/unit/meeks.test.js:156-159 | the quota winners are exactly the hopefuls whose count reaches the quota |
| MeekRound.ResolveTie | tests/unit/meekparts.test.js:177-187 | the tie goes to the tied candidate earliest in the tie-breaker; it fails with "Tied candidate is not in tieBreaker" exactly when a tied candidate is missing from it |
| MeekRound.TieWinnerUnique | tests/unit/meekparts.test.js:177-187 | with distinct tie-breaker positions there is only one earliest tied candidate |
| MeekRound.DefeatPool | tests/unit/meekparts.test.js:189-203 | the candidates that may be defeated are hopefuls, at least one while anyone is hopeful; every unprotected hopeful is among them, and protected ones only when no unprotected hopeful remains |
| MeekRound.Unprotected | tests/unit/meekparts.test.js:189-203 | the unprotected candidates are exactly those without the protected destiny |
| MeekRound.LowestVotes | tests/unit/meekparts.test.js:189-203 | the lowest votes are those of some member and no member has fewer |
| MeekRound.SingleDefeatCandidate | tests/unit/meekparts.test.js:189-203 | the single defeat is a member of the defeat pool with the fewest votes, or the tie-breaker error |
| MeekRound.TiedAtLowest | tests/unit/meekparts.test.js:199-201 | some candidate is always tied at the lowest count |
| MeekRound.SingleDefeatOfTiedSet | tests/unit/onew.test.js:81-92 | a lone lowest candidate is defeated without the tie-breaker; of several, the defeat fails exactly when one of them is missing from the tie-breaker |
| MeekRound.AloneIffSingleton | tests/unit/meekparts.test.js:189-203 | a list names a single candidate exactly when its members form a one-element set |
| MeekRound.AppendRound | tests/unit/onew.test.js:36-48 | appending a round keeps the same tally rows |
| MeekRound.AfterConverge | tests/unit/meeks.test.js:156-159 | the status update and quota elections never add hopefuls, and remove one whenever anyone is elected |
| MeekRound.AfterConvergeParts | tests/unit/meekparts.test.js:98-119 | the state after a count is assembled from the status update, the quota elections and the round's tally entries |
| MeekRound.RoundOfConverged | tests/unit/meeks.test.js:14-48 | a round whose iterations end with a given outcome ends with the decision on that outcome |
| MeekRound.Round | tests/unit/meeks.test.js:14-48 | one round: the iterations, the status update and quota elections, then the decision; `RoundInv`, `RoundShrinksHopefuls` and `RoundKeepsDecided` state what it keeps |
| MeekRound.RoundShrinksHopefuls | tests/unit/meeks.test.js:137-190 | every round takes at least one candidate out of the hopefuls, so the tabulation ends |
| MeekRound.DecideShrinksHopefuls | tests/unit/meeks.test.js:137-190 | the decision leaves fewer hopefuls than before the round, either by electing in the count or by a defeat |
| MeekRound.TabulateFrom | tests/unit/onew.test.js:49-55 | the rounds end with no candidate hopeful |
| MeekRound.ElectedIn | tests/unit/meeks.test.js:26 | lists exactly the candidates elected in the given round |
| MeekRound.InitialInv | tests/unit/meekparts.test.js:54-81 | the state before round 1 meets the invariant: its shape, its per-round rows, keep factors matching statuses, and conserved totals |
| MeekRound.ElectInv | tests/unit/meekparts.test.js:155-175 | electing hopefuls keeps the invariant |
| MeekRound.DefeatInv | tests/unit/meekparts.test.js:122-153 | defeating hopefuls keeps the invariant |
| MeekRound.Elect | tests/unit/meekparts.test.js:155-175 | `_electCandidates`; `WithStatusEffect` and `ElectInv` state that exactly the chosen candidates become elected |
| MeekRound.Defeat | tests/unit/meekparts.test.js:122-153 | `_defeatCandidates`; `WithStatusEffect`, `ZeroFactorsEffect` and `DefeatInv` state that exactly the chosen candidates become defeated with keep factor zero |
| MeekRound.DecideInv | tests/unit/onew.test.js:31-35 | the decision keeps the invariant and the round number |
| MeekRound.SeatsFilledDefeatsRest | tests/unit/onew.test.js:31-35 | once the seats are filled, each remaining hopeful is defeated with the rest of its status, including the keep factor one it recorded, unchanged, and its working keep factor becomes zero |
| MeekRound.DecideSingleDefeat | tests/unit/onew.test.js:31-35 | with seats open, more hopefuls than open seats and no one elected in the round, only the candidate `SingleDefeatCandidate` picks from the defeat pool stops being hopeful, and no one is elected, as C in round 1; a tie-breaker failure is the tabulation's error |
| MeekRound.Decide | tests/unit/onew.test.js:31-35 | the end-of-round decision; `SeatsFilledDefeatsRest`, `DecideElectsRest` and `DecideSingleDefeat` state its branches, `DecideInv` and `DecideShrinksHopefuls` what it keeps |
| MeekRound.CountStepRounds | tests/unit/onew.test.js:36-48 | after a count every summary row gains one entry and every counted candidate row matches its status |
| MeekRound.CountStepRow | tests/unit/onew.test.js:36-39 | a candidate row has one entry per round up to its defeat, and one per round otherwise |
| MeekRound.CountStepFactors | tests/unit/onew.test.js:31-35 | after a count, hopefuls keep factor one and defeated candidates zero |
| MeekRound.CountStepTotals | tests/unit/onew.test.js:44 | the round's `:Total votes` entry is the number of voters |
| MeekRound.AfterConvergeInv | tests/unit/meeks.test.js:34-47 | the status update and elections after the iterations keep the invariant and advance the round |
| MeekRound.RoundInv | tests/unit/meeks.test.js:34-47 | every round keeps the invariant and advances the round number by one |
| MeekRound.DecideKeepsDecided | tests/unit/meeks.test.js:27-33 | the decision changes only hopefuls |
| MeekRound.RoundKeepsDecided | tests/unit/meeks.test.js:27-33 | a candidate elected or defeated before a round keeps everything but its working keep factor through it |
| MeekRound.TabulateFromInv | tests/unit/meeks.test.js:137-190 | the rounds keep the invariant and never go back in round number |
| MeekRound.ElectedInOrderMembers | tests/unit/meeks.test.js:26 | the elected list holds exactly the candidates elected by the last round |
| MeekRound.ElectedInOrder | tests/unit/meeks.test.js:26 | the elected candidates round by round, A, B, E in the test; `ElectedInOrderMembers` states its members |
| MeekRound.FinalStateCompleted | tests/unit/onew.test.js:30-35 | the final results list exactly the elected candidates, every other candidate is defeated, and the rows line up with conserved totals |
| MeekRound.FinalRows | tests/unit/onew.test.js:36-48 | every summary row has one entry per round, no candidate row is longer, and every `:Total votes` entry is the number of voters |
| MeekRound.TabulateOutcome | tests/unit/onew.test.js:49-55 | a completed tabulation meets all of the above |
| MeekRound.ResultsOf | tests/unit/onew.test.js:49-55 | what `tabulate()` returns: the elected list, the statuses and the tally of the final state |
| MeekRound.Tabulate | tests/unit/onew.test.js:49-55 | `tabulate()` from the set-up state until no one is hopeful; `TabulateOutcome` states the completed results |
| MeekRound.RoundIgnoresUnusedOptions | tests/unit/meeks.test.js:122-134 | a round does not depend on the ballot-tree or always-count-votes options |
| MeekRound.AfterConvergeIgnoresUnusedOptions | tests/unit/meeks.test.js:122-134 | the step after the count does not depend on them |
| MeekRound.DecideIgnoresUnusedOptions | tests/unit/meeks.test.js:122-134 | the decision does not depend on them |
| MeekRound.TabulateFromIgnoresUnusedOptions | tests/unit/meeks.test.js:122-134 | the rounds do not depend on them |
| MeekRound.TabulateIgnoresUnusedOptions | tests/unit/meeks.test.js:122-134 | `tabulate()` gives the same results for every ballot-tree option (null, dynamic, static, none) |

## Left out

- Reading and writing files, standard input and output, the command line and JSON merging (`src/with_json.js`): I/O.
- Progress reporting (`tests/unit/progress.test.js`): it depends on the clock and on floating-point fractions. `Tabulation` takes no progress object.
- Decimal9 values built from floating-point numbers, `toNumber`, fractional exponents, and the precision lost near 2^53 (tests/unit/decimal9.test.js:85-126, 188-301): floating point. The model is exact, so `new Decimal9(987654321987654321, -11)` is 9876543219876543 units here. The test expects the rounded 9876543219876542.
- The error classes, `describeError`, `show`, `getKeys` and `getNames`: error-class plumbing and JavaScript reflection. An error is a `Failure` carrying its kind and message. Messages are kept as the tests match them (for example "Divide by zero." and "Tied candidate is not in tieBreaker"). The program appends detail lines to some messages; those lines are not modelled.
- Alternative defeats: the `before_single_defeats`, `if_no_new_electeds` and `per_reference_rule` branches (batch defeats). Only tests whose expected values are not shown pin these branches down. The option is validated in full. A round that needs the per-round value of a too-short array fails with the error the tests expect. Otherwise every round makes the single defeat.
- The ballot tree (`ballot_tree`) and `always_count_votes`: they are validated, but they only affect how fast the count runs, so the model reads every ballot afresh. `MeekRound.TabulateIgnoresUnusedOptions` proves that they cannot change the results.
- MeekCount.Settled: adds a stopping rule of the model's own. The iterations of a round are not capped by a count; they stop when a hopeful reaches the quota, when the total surplus falls below omega (10^-6), or when the surplus fails to fall. The last rule makes `Converge` terminate; where the program would run more iterations than that, the model stops earlier.
- Decimal9.Decimal9Total.Plus and Decimal9.Decimal9Total.Minus: take a `Decimal9` operand only; a running total passed as the operand (decimal9.test.js:580-582) is modelled by passing its `Value()`.
- Ties are exact ties at the lowest recorded count. No margin of error is modelled.
- The JSON fixture suites (tests/test_stv, test_stv_altdef, test_onew, test_protected, test_excluded, test_volume): their expected values are in files that are not part of this model.
- When the hopefuls no more than fill the seats left, `MeekRound.Decide` elects them all, and `MeekRound.DecideElectsRest` states this. No shown test reaches this branch, so that lemma carries no row of its own.
- `_nbrUnprotectedSeats` (tests/unit/meekparts.test.js:59): the model keeps no count of seats for unprotected candidates and reserves no seat for protected ones. `MeekRound.DefeatPool` keeps protected hopefuls out of the single defeat while any unprotected hopeful remains. Once the seats are filled, though, `MeekRound.Decide` defeats every remaining hopeful, protected ones included. No shown test fixes what the program does in that case.
- Boxed integers such as `new Number(3)` (tests/unit/decimal9.test.js:135-149): `Decimal9.Construct` reads them as `IntValue`, exactly like plain integers. The model has no separate boxed form.
- Status and destiny fields holding arbitrary strings (tests/unit/status.test.js:206-211): `StatusKind` and `Destiny` hold only their three names each, so the model cannot set a destiny to 'Normal' and compare. A built string equal to a name, such as 'norm' + 'al', is that name.
