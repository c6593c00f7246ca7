/** The Validator: turns the raw tabulation inputs into normalised values,
    or fails with a MeekValueError naming the first problem found. */
module Validate {
  import opened Wrappers
  import opened JsValues
  import opened Constants
  import opened Ballots
  import U = UtilBasic
  import D9 = Decimal9

  /** The largest magnitude a count may have. */
  const MAX_SAFE: int := D9.MAX_SAFE_VALUE

  function MeekError<T>(message: string): Result<T> {
    Err(Failure(MeekValueError, message))
  }

  /** An integral primitive Number no further from zero than MAX_SAFE. */
  predicate IsSafeInteger(v: Js) {
    v.JInt? && -MAX_SAFE <= v.i <= MAX_SAFE
  }

  /** A candidate ID: not empty, not the overvote code, not starting with
      ':' (which marks the summary rows of the tally). */
  predicate IsCandidateId(id: string) {
    id != UNDERVOTE && id != OVERVOTE && id[0] != ':'
  }

  predicate AllCandidateIds(ids: seq<string>) {
    forall i | 0 <= i < |ids| :: IsCandidateId(ids[i])
  }

  predicate AllAmong(ids: seq<string>, known: seq<string>) {
    forall i | 0 <= i < |ids| :: IsCandidateId(ids[i]) && ids[i] in known
  }

  // ---------------------------------------------------------------------
  // toArrayOfStrings
  // ---------------------------------------------------------------------

  /** `Validator.toArrayOfStrings`: the basic conversion, its errors
      reported as MeekValueError with the same message. */
  function ToArrayOfStrings(v: Js): (r: Result<seq<string>>)
    ensures r.Ok? <==> U.ToArrayOfStrings(v).Ok?
    ensures r.Ok? ==> r.value == U.ToArrayOfStrings(v).value
    ensures r.Err? ==> r.error == Failure(MeekValueError, U.ToArrayOfStrings(v).error.message)
  {
    match U.ToArrayOfStrings(v)
    case Ok(xs) => Ok(xs)
    case Err(e) => MeekError(e.message)
  }

  /** The strings of v, or the given error when v is not a string or an
      array of strings. */
  function StringsOr(v: Js, message: string): (r: Result<seq<string>>)
    ensures r.Ok? <==> U.ToArrayOfStrings(v).Ok?
    ensures r.Ok? ==> r.value == U.ToArrayOfStrings(v).value
    ensures r.Err? ==> r.error == Failure(MeekValueError, message)
  {
    match U.ToArrayOfStrings(v)
    case Ok(xs) => Ok(xs)
    case Err(_) => MeekError(message)
  }

  // ---------------------------------------------------------------------
  // nbrSeatsToFill, maxRankingLevels
  // ---------------------------------------------------------------------

  const ERR_SEATS_NOT_SAFE: string := "nbrSeatsToFill is not a safe integer"
  const ERR_SEATS_LESS_THAN_1: string := "nbrSeatsToFill is less than 1"

  /** `nbrSeatsToFill(v)`: a safe integer of at least one. */
  function NbrSeatsToFill(v: Js): (r: Result<nat>)
    ensures r.Ok? <==> v.JInt? && 1 <= v.i <= MAX_SAFE
    ensures r.Ok? ==> r.value == v.i
    ensures !IsSafeInteger(v) ==> r == MeekError(ERR_SEATS_NOT_SAFE)
    ensures IsSafeInteger(v) && v.i < 1 ==> r == MeekError(ERR_SEATS_LESS_THAN_1)
  {
    if !IsSafeInteger(v) then MeekError(ERR_SEATS_NOT_SAFE)
    else if v.i < 1 then MeekError(ERR_SEATS_LESS_THAN_1)
    else Ok(v.i)
  }

  const ERR_LEVELS_NOT_SAFE: string := "maxRankingLevels is not a safe integer"
  const ERR_LEVELS_LESS_THAN_3: string := "maxRankingLevels is less than 3"

  /** `maxRankingLevels(v)`: null (no limit) or a safe integer of at least
      three. */
  function MaxRankingLevels(v: Js): (r: Result<Option<nat>>)
    ensures r.Ok? <==> v.JNull? || (v.JInt? && 3 <= v.i <= MAX_SAFE)
    ensures r == Ok(None) <==> v.JNull?
    ensures r.Ok? && v.JInt? ==> r.value == Some(v.i)
    ensures !v.JNull? && !IsSafeInteger(v) ==> r == MeekError(ERR_LEVELS_NOT_SAFE)
    ensures IsSafeInteger(v) && v.i < 3 ==> r == MeekError(ERR_LEVELS_LESS_THAN_3)
  {
    if v.JNull? then Ok(None)
    else if !IsSafeInteger(v) then MeekError(ERR_LEVELS_NOT_SAFE)
    else if v.i < 3 then MeekError(ERR_LEVELS_LESS_THAN_3)
    else Ok(Some(v.i))
  }

  // ---------------------------------------------------------------------
  // candidates, tieBreaker
  // ---------------------------------------------------------------------

  const ERR_CANDIDATES_TYPE: string := "Invalid candidates type"
  const ERR_CANDIDATE_ID: string := "Invalid candidate ID in list of candidates"
  const ERR_CANDIDATE_DUPLICATE: string := "Duplicate candidate ID in list of candidates"

  /** `candidates(v)`: distinct candidate IDs from a delimited string or an
      array. */
  function Candidates(v: Js): (r: Result<seq<string>>)
    ensures r.Ok? <==> U.ToArrayOfStrings(v).Ok? && AllCandidateIds(U.ToArrayOfStrings(v).value)
                       && U.Distinct(U.ToArrayOfStrings(v).value)
    ensures r.Ok? ==> r.value == U.ToArrayOfStrings(v).value
    ensures U.ToArrayOfStrings(v).Err? ==> r == MeekError(ERR_CANDIDATES_TYPE)
    ensures U.ToArrayOfStrings(v).Ok? && !AllCandidateIds(U.ToArrayOfStrings(v).value)
            ==> r == MeekError(ERR_CANDIDATE_ID)
  {
    var ids :- StringsOr(v, ERR_CANDIDATES_TYPE);
    if !AllCandidateIds(ids) then MeekError(ERR_CANDIDATE_ID)
    else if !U.Distinct(ids) then MeekError(ERR_CANDIDATE_DUPLICATE)
    else Ok(ids)
  }

  /** Valid distinct IDs come back from their array and from their
      delimited string. */
  lemma CandidatesRoundTrip(ids: seq<string>, d: char)
    requires AllCandidateIds(ids) && U.Distinct(ids) && |ids| >= 1
    requires forall i | 0 <= i < |ids| :: d !in ids[i]
    ensures Candidates(JArr(FromStrings(ids))) == Ok(ids)
    ensures Candidates(JStr([d] + U.Join(ids, d))) == Ok(ids)
  {
    U.ToArrayOfStringsRoundTrip(ids, d);
  }

  const ERR_TIE_BREAKER_TYPE: string := "Invalid tieBreaker type"
  const ERR_TIE_BREAKER_ID: string := "Invalid candidate ID in tieBreaker"
  const ERR_TIE_BREAKER_DUPLICATE: string := "Duplicate candidate ID in tieBreaker"

  /** `tieBreaker(v, candidates)`: the listed candidates, each mapped to
      its position; an earlier position wins a tie. */
  function TieBreaker(v: Js, candidates: seq<string>): (r: Result<map<string, nat>>)
    ensures r.Ok? <==> U.ToArrayOfStrings(v).Ok? && AllAmong(U.ToArrayOfStrings(v).value, candidates)
                       && U.Distinct(U.ToArrayOfStrings(v).value)
    ensures r.Ok? ==> var ids := U.ToArrayOfStrings(v).value;
      r.value.Keys == (set i | 0 <= i < |ids| :: ids[i])
      && (forall i | 0 <= i < |ids| :: r.value[ids[i]] == i)
      && (forall k | k in r.value :: r.value[k] < |ids| && ids[r.value[k]] == k)
    ensures U.ToArrayOfStrings(v).Err? ==> r == MeekError(ERR_TIE_BREAKER_TYPE)
    ensures U.ToArrayOfStrings(v).Ok? && !AllAmong(U.ToArrayOfStrings(v).value, candidates)
            ==> r == MeekError(ERR_TIE_BREAKER_ID)
  {
    var ids :- StringsOr(v, ERR_TIE_BREAKER_TYPE);
    if !AllAmong(ids, candidates) then MeekError(ERR_TIE_BREAKER_ID)
    else if !U.Distinct(ids) then MeekError(ERR_TIE_BREAKER_DUPLICATE)
    else Ok(U.Positions(ids))
  }

  // ---------------------------------------------------------------------
  // excluded, protectedCandidates
  // ---------------------------------------------------------------------

  const ERR_EXCLUDED_TYPE: string := "Invalid excluded type"
  const ERR_EXCLUDED_ID: string := "Invalid candidate ID in excluded"
  const ERR_EXCLUDED_DUPLICATE: string := "Candidate ID in excluded is not unique."

  function AsSet(ids: seq<string>): (s: set<string>)
    ensures forall x :: x in s <==> x in ids
  {
    set i | 0 <= i < |ids| :: ids[i]
  }

  /** `excluded(v, candidates)`: null or '' is the empty set; otherwise
      distinct candidates. */
  function Excluded(v: Js, candidates: seq<string>): (r: Result<set<string>>)
    ensures v.JNull? ==> r == Ok({})
    ensures !v.JNull? ==> (r.Ok? <==> U.ToArrayOfStrings(v).Ok? && AllAmong(U.ToArrayOfStrings(v).value, candidates)
                                       && U.Distinct(U.ToArrayOfStrings(v).value))
    ensures r.Ok? ==> forall x | x in r.value :: x in candidates
    ensures !v.JNull? && r.Ok? ==> r.value == AsSet(U.ToArrayOfStrings(v).value)
    ensures !v.JNull? && U.ToArrayOfStrings(v).Err? ==> r == MeekError(ERR_EXCLUDED_TYPE)
  {
    if v.JNull? then Ok({})
    else
      var ids :- StringsOr(v, ERR_EXCLUDED_TYPE);
      if !AllAmong(ids, candidates) then MeekError(ERR_EXCLUDED_ID)
      else if !U.Distinct(ids) then MeekError(ERR_EXCLUDED_DUPLICATE)
      else Ok(AsSet(ids))
  }

  const ERR_PROTECTED_TYPE: string := "Invalid protectedList type"
  const ERR_PROTECTED_ID: string := "Invalid protected candidate ID"
  const ERR_PROTECTED_EXCLUDED: string := "Candidate ID is protected and excluded"
  const ERR_PROTECTED_DUPLICATE: string := "Protected candidate ID is not unique."
  const ERR_PROTECTED_TOO_MANY: string := "More protected candidates than seats to fill"

  predicate NoneExcluded(ids: seq<string>, excluded: set<string>) {
    forall i | 0 <= i < |ids| :: ids[i] !in excluded
  }

  /** `protectedCandidates(v, candidates, excluded, nbrSeatsToFill)`: null
      or '' is the empty set; otherwise distinct candidates, none excluded,
      no more of them than seats. */
  function ProtectedCandidates(v: Js, candidates: seq<string>, excluded: set<string>, nbrSeatsToFill: nat)
    : (r: Result<set<string>>)
    ensures v.JNull? ==> r == Ok({})
    ensures !v.JNull? ==> (r.Ok? <==>
      U.ToArrayOfStrings(v).Ok? && AllAmong(U.ToArrayOfStrings(v).value, candidates)
      && NoneExcluded(U.ToArrayOfStrings(v).value, excluded) && U.Distinct(U.ToArrayOfStrings(v).value)
      && |U.ToArrayOfStrings(v).value| <= nbrSeatsToFill)
    ensures r.Ok? ==> |r.value| <= nbrSeatsToFill && r.value !! excluded
    ensures r.Ok? ==> forall x | x in r.value :: x in candidates
    ensures !v.JNull? && r.Ok? ==> r.value == AsSet(U.ToArrayOfStrings(v).value)
    ensures !v.JNull? && U.ToArrayOfStrings(v).Err? ==> r == MeekError(ERR_PROTECTED_TYPE)
  {
    if v.JNull? then Ok({})
    else
      var ids :- StringsOr(v, ERR_PROTECTED_TYPE);
      if !AllAmong(ids, candidates) then MeekError(ERR_PROTECTED_ID)
      else if !NoneExcluded(ids, excluded) then MeekError(ERR_PROTECTED_EXCLUDED)
      else if !U.Distinct(ids) then MeekError(ERR_PROTECTED_DUPLICATE)
      else if |ids| > nbrSeatsToFill then MeekError(ERR_PROTECTED_TOO_MANY)
      else
        DistinctSetSize(ids);
        Ok(AsSet(ids))
  }

  /** A list of distinct IDs has as many members as its set. */
  lemma {:induction false} DistinctSetSize(ids: seq<string>)
    requires U.Distinct(ids)
    ensures |AsSet(ids)| == |ids|
  {
    if ids != [] {
      var tail := ids[1..];
      assert U.Distinct(tail) by {
        forall i, j | 0 <= i < j < |tail| ensures tail[i] != tail[j] { assert tail[i] == ids[i + 1] && tail[j] == ids[j + 1]; }
      }
      DistinctSetSize(tail);
      assert ids[0] !in tail by {
        forall i | 0 <= i < |tail| ensures tail[i] != ids[0] { assert tail[i] == ids[i + 1]; }
      }
      assert AsSet(ids) == AsSet(tail) + {ids[0]};
    }
  }

  // ---------------------------------------------------------------------
  // ballots
  // ---------------------------------------------------------------------

  const ERR_BALLOTS_NOT_ARRAY: string := "ballots is not an array"
  const ERR_BALLOTS_UNDEFINED: string := "Ballots contains undefined items"
  const ERR_BALLOT_KIND: string := "A ballot is not an array nor a string"
  const ERR_BALLOT_NOT_PAIR: string := "A ballot is not a pair of values"
  const ERR_MULTIPLE_NOT_SAFE: string := "A ballot multiple is not a safe integer"
  const ERR_MULTIPLE_NOT_POSITIVE: string := "A ballot multiple is zero or less"
  const ERR_RANKINGS_TYPE: string := "Invalid ballot rankings type"
  const ERR_RANKINGS_TOO_LONG: string := "Ballot rankings is too long"
  const ERR_RANKING_CODE: string := "Invalid ballot ranking code"
  const ERR_TOTAL_NOT_SAFE: string := "The absolute total number of ballots is not a safe integer"

  /** A ranking code: a candidate, an undervote or an overvote. */
  predicate IsRankingCode(code: string, candidates: seq<string>) {
    code in candidates || code in RANKING_CODES_NOT_A_CANDIDATE
  }

  /** What a validated ballot satisfies. */
  predicate ValidBallot(b: Ballot, candidates: seq<string>, maxRankingLevels: Option<nat>) {
    1 <= b.multiple <= MAX_SAFE
    && (maxRankingLevels.Some? ==> |b.rankings| <= maxRankingLevels.value)
    && forall i | 0 <= i < |b.rankings| :: IsRankingCode(b.rankings[i], candidates)
  }

  /** The rankings of one ballot, from a delimited string or an array. */
  function Rankings(v: Js, candidates: seq<string>, maxRankingLevels: Option<nat>): (r: Result<seq<string>>)
    ensures r.Ok? <==> (U.ToArrayOfStrings(v).Ok?
      && (maxRankingLevels.Some? ==> |U.ToArrayOfStrings(v).value| <= maxRankingLevels.value)
      && forall i | 0 <= i < |U.ToArrayOfStrings(v).value| :: IsRankingCode(U.ToArrayOfStrings(v).value[i], candidates))
    ensures r.Ok? ==> r.value == U.ToArrayOfStrings(v).value
  {
    var codes :- StringsOr(v, ERR_RANKINGS_TYPE);
    if maxRankingLevels.Some? && |codes| > maxRankingLevels.value then MeekError(ERR_RANKINGS_TOO_LONG)
    else if !(forall i | 0 <= i < |codes| :: IsRankingCode(codes[i], candidates)) then MeekError(ERR_RANKING_CODE)
    else Ok(codes)
  }

  /** One item of the ballots array: `[multiple, rankings]`, or bare
      rankings (a string, or an array of strings) counting once. */
  function OneBallot(v: Js, candidates: seq<string>, maxRankingLevels: Option<nat>): (r: Result<Ballot>)
    ensures r.Ok? ==> ValidBallot(r.value, candidates, maxRankingLevels)
    ensures v.JUndef? ==> r == MeekError(ERR_BALLOTS_UNDEFINED)
    ensures !v.JUndef? && !v.JArr? && !IsString(v) ==> r == MeekError(ERR_BALLOT_KIND)
    ensures v.JArr? && !AllStrings(v.items) && |v.items| != 2 ==> r == MeekError(ERR_BALLOT_NOT_PAIR)
    ensures (IsString(v) || (v.JArr? && AllStrings(v.items))) && r.Ok? ==> r.value.multiple == 1
  {
    match v
    case JUndef => MeekError(ERR_BALLOTS_UNDEFINED)
    case JStr(_) =>
      var codes :- Rankings(v, candidates, maxRankingLevels);
      Ok(Ballot(1, codes))
    case JStrObj(_) =>
      var codes :- Rankings(v, candidates, maxRankingLevels);
      Ok(Ballot(1, codes))
    case JArr(items) =>
      if AllStrings(items) then
        var codes :- Rankings(v, candidates, maxRankingLevels);
        Ok(Ballot(1, codes))
      else if |items| != 2 then MeekError(ERR_BALLOT_NOT_PAIR)
      else if !IsSafeInteger(items[0]) then MeekError(ERR_MULTIPLE_NOT_SAFE)
      else if items[0].i <= 0 then MeekError(ERR_MULTIPLE_NOT_POSITIVE)
      else
        var codes :- Rankings(items[1], candidates, maxRankingLevels);
        Ok(Ballot(items[0].i, codes))
    case _ => MeekError(ERR_BALLOT_KIND)
  }

  /** The sum of the multiples. */
  function TotalMultiple(bs: seq<Ballot>): int {
    if bs == [] then 0 else bs[0].multiple + TotalMultiple(bs[1..])
  }

  /** Each item of the ballots array read on its own. */
  function ReadEach(items: seq<Js>, candidates: seq<string>, maxRankingLevels: Option<nat>): (r: seq<Result<Ballot>>)
    ensures |r| == |items|
    ensures forall i | 0 <= i < |items| :: r[i] == OneBallot(items[i], candidates, maxRankingLevels)
  {
    if items == [] then [] else [OneBallot(items[0], candidates, maxRankingLevels)] + ReadEach(items[1..], candidates, maxRankingLevels)
  }

  /** The ballots read, in order, stopping at the first item that fails
      and at the first running total above MAX_SAFE. */
  function Accumulate(results: seq<Result<Ballot>>, total: int): (r: Result<seq<Ballot>>)
    ensures r.Ok? ==> |r.value| == |results|
    ensures r.Ok? ==> forall i | 0 <= i < |results| :: results[i] == Ok(r.value[i])
    ensures r.Ok? ==> total + TotalMultiple(r.value) <= MAX_SAFE
  {
    if results == [] then (if total <= MAX_SAFE then Ok([]) else MeekError(ERR_TOTAL_NOT_SAFE))
    else
      var b :- results[0];
      if total + b.multiple > MAX_SAFE then MeekError(ERR_TOTAL_NOT_SAFE)
      else
        var rest :- Accumulate(results[1..], total + b.multiple);
        assert forall i | 1 <= i < |results| :: results[i] == results[1..][i - 1];
        Ok([b] + rest)
  }

  /** Conversely, results that all succeed, with multiples of at least
      one and a total that fits, accumulate to their ballots. */
  lemma {:induction false} AccumulateAll(results: seq<Result<Ballot>>, bs: seq<Ballot>, total: int)
    requires |results| == |bs| && total <= MAX_SAFE
    requires forall i | 0 <= i < |bs| :: results[i] == Ok(bs[i]) && bs[i].multiple >= 1
    requires total + TotalMultiple(bs) <= MAX_SAFE
    ensures Accumulate(results, total) == Ok(bs)
  {
    if bs != [] {
      var tail := bs[1..];
      forall i | 0 <= i < |tail| ensures results[1..][i] == Ok(tail[i]) && tail[i].multiple >= 1 {
        assert results[1..][i] == results[i + 1] && tail[i] == bs[i + 1];
      }
      PositiveTotal(tail);
      AccumulateAll(results[1..], tail, total + bs[0].multiple);
      assert [bs[0]] + tail == bs;
    }
  }

  lemma {:induction false} PositiveTotal(bs: seq<Ballot>)
    requires forall i | 0 <= i < |bs| :: bs[i].multiple >= 1
    ensures TotalMultiple(bs) >= |bs|
  {
    if bs != [] {
      PositiveTotal(bs[1..]);
    }
  }

  /** `ballots(v, candidates, maxRankingLevels)`: every item a valid
      ballot, and the running total of the multiples a safe integer. */
  function ValidateBallots(v: Js, candidates: seq<string>, maxRankingLevels: Option<nat>): (r: Result<seq<Ballot>>)
    ensures !v.JArr? ==> r == MeekError(ERR_BALLOTS_NOT_ARRAY)
    ensures r.Ok? ==> v.JArr? && |r.value| == |v.items|
    ensures r.Ok? ==> forall i | 0 <= i < |r.value| :: ValidBallot(r.value[i], candidates, maxRankingLevels)
    ensures r.Ok? ==> TotalMultiple(r.value) <= MAX_SAFE
  {
    if !v.JArr? then MeekError(ERR_BALLOTS_NOT_ARRAY)
    else Accumulate(ReadEach(v.items, candidates, maxRankingLevels), 0)
  }

  /** Each validated ballot is the one its item denotes. */
  lemma ValidateBallotsItems(v: Js, candidates: seq<string>, maxRankingLevels: Option<nat>)
    requires ValidateBallots(v, candidates, maxRankingLevels).Ok?
    ensures var bs := ValidateBallots(v, candidates, maxRankingLevels).value;
      forall i | 0 <= i < |v.items| :: OneBallot(v.items[i], candidates, maxRankingLevels) == Ok(bs[i])
  {
  }

  function AsArrays(bs: seq<Ballot>): (r: seq<Js>)
    ensures |r| == |bs| && forall i | 0 <= i < |bs| :: r[i] == AsArray(bs[i])
  {
    if bs == [] then [] else [AsArray(bs[0])] + AsArrays(bs[1..])
  }

  /** A valid ballot comes back from its `asArray()` form. */
  lemma OneBallotOfAsArray(v: Js, b: Ballot, candidates: seq<string>, maxRankingLevels: Option<nat>)
    requires ValidBallot(b, candidates, maxRankingLevels) && v == AsArray(b)
    ensures OneBallot(v, candidates, maxRankingLevels) == Ok(b)
  {
    StringsRoundTrip(b.rankings, []);
    assert !v.items[0].JStr?;
    assert U.ToArrayOfStrings(v.items[1]) == Ok(b.rankings);
  }

  /** Valid ballots whose multiples add up to a safe integer come back
      from their `asArray()` forms: validation accepts exactly what it
      produces. */
  lemma {:induction false} BallotsRoundTrip(bs: seq<Ballot>, candidates: seq<string>, maxRankingLevels: Option<nat>)
    requires forall i | 0 <= i < |bs| :: ValidBallot(bs[i], candidates, maxRankingLevels)
    requires TotalMultiple(bs) <= MAX_SAFE
    ensures ValidateBallots(JArr(AsArrays(bs)), candidates, maxRankingLevels) == Ok(bs)
  {
    var items := AsArrays(bs);
    var results := ReadEach(items, candidates, maxRankingLevels);
    ReadEachAsArrays(bs, items, results, candidates, maxRankingLevels);
    AccumulateAll(results, bs, 0);
  }

  lemma ReadEachAsArrays(bs: seq<Ballot>, items: seq<Js>, results: seq<Result<Ballot>>,
                         candidates: seq<string>, maxRankingLevels: Option<nat>)
    requires forall i | 0 <= i < |bs| :: ValidBallot(bs[i], candidates, maxRankingLevels)
    requires items == AsArrays(bs) && results == ReadEach(items, candidates, maxRankingLevels)
    ensures |results| == |bs|
    ensures forall i | 0 <= i < |bs| :: results[i] == Ok(bs[i]) && bs[i].multiple >= 1
  {
    forall i | 0 <= i < |bs| ensures results[i] == Ok(bs[i]) {
      OneBallotOfAsArray(items[i], bs[i], candidates, maxRankingLevels);
    }
  }

  // ---------------------------------------------------------------------
  // options
  // ---------------------------------------------------------------------

  /** The alternative-defeats option: one value for every round, or one
      value per round. */
  datatype AltDefs = AllRounds(value: YesNo) | PerRound(values: seq<YesNo>)

  datatype Options = Options(
    alternativeDefeats: AltDefs,
    typeOfAltDefs: AltDefsType,
    alwaysCountVotes: bool,
    ballotTree: Option<BallotTreeKind>)

  /** The options when none are given. */
  const DEFAULT_OPTIONS: Options := Options(AllRounds(Never), IfNoNewElecteds, true, None)

  const ERR_OPTIONS_NOT_OBJECT: string := "Options is not an object"
  const ERR_OPTION_NAME: string := "Invalid option name"
  const ERR_OPTION_VALUE: string := "Invalid option value"
  const ERR_OPTION_VALUE_TYPE: string := "Invalid option value type"
  const ERR_PER_ROUND_VALUE: string := "Invalid per-round option value"

  /** Each per-round value read as Y or N, in either case. */
  function PerRoundValues(xs: seq<string>): (r: Result<seq<YesNo>>)
    ensures r.Ok? <==> forall i | 0 <= i < |xs| :: ParseYesNo(xs[i]).Some?
    ensures r.Ok? ==> |r.value| == |xs| && forall i | 0 <= i < |xs| :: ParseYesNo(xs[i]) == Some(r.value[i])
  {
    if xs == [] then Ok([])
    else
      match ParseYesNo(xs[0])
      case None => MeekError(ERR_PER_ROUND_VALUE)
      case Some(y) =>
        var rest :- PerRoundValues(xs[1..]);
        assert forall i | 1 <= i < |xs| :: xs[i] == xs[1..][i - 1];
        Ok([y] + rest)
  }

  /** alternative_defeats: a one-character string is the value for all
      rounds; a longer delimited string or an array lists the rounds. */
  function AltDefsOption(v: Js): (r: Result<AltDefs>)
    ensures !IsString(v) && !v.JArr? ==> r == MeekError(ERR_OPTION_VALUE_TYPE)
    ensures IsString(v) && |v.s| == 1 ==> (r.Ok? <==> ParseYesNo(v.s).Some?)
    ensures IsString(v) && |v.s| == 1 && r.Ok? ==> r.value == AllRounds(ParseYesNo(v.s).value)
    ensures r.Ok? && r.value.PerRound? ==> U.ToArrayOfStrings(v).Ok? && var xs := U.ToArrayOfStrings(v).value;
      |r.value.values| == |xs| && forall i | 0 <= i < |xs| :: ParseYesNo(xs[i]) == Some(r.value.values[i])
  {
    if IsString(v) && |v.s| == 1 then
      match ParseYesNo(v.s)
      case Some(y) => Ok(AllRounds(y))
      case None => MeekError(ERR_OPTION_VALUE)
    else if IsString(v) || v.JArr? then
      var xs :- StringsOr(v, ERR_PER_ROUND_VALUE);
      var ys :- PerRoundValues(xs);
      Ok(PerRound(ys))
    else MeekError(ERR_OPTION_VALUE_TYPE)
  }

  function TypeOfAltDefsOption(v: Js): (r: Result<AltDefsType>)
    ensures r.Ok? <==> v.JStr? && ParseAltDefsType(v.s).Some?
    ensures r.Ok? ==> r.value == ParseAltDefsType(v.s).value
  {
    if v.JStr? && ParseAltDefsType(v.s).Some? then Ok(ParseAltDefsType(v.s).value)
    else MeekError(ERR_OPTION_VALUE)
  }

  function AlwaysCountVotesOption(v: Js): (r: Result<bool>)
    ensures r.Ok? <==> v.JBool?
    ensures r.Ok? ==> r.value == v.b
  {
    if v.JBool? then Ok(v.b) else MeekError(ERR_OPTION_VALUE)
  }

  function BallotTreeOption(v: Js): (r: Result<Option<BallotTreeKind>>)
    ensures r.Ok? <==> v.JNull? || (v.JStr? && ParseBallotTree(v.s).Some?)
    ensures r == Ok(None) <==> v.JNull?
  {
    if v.JNull? then Ok(None)
    else if v.JStr? && ParseBallotTree(v.s).Some? then Ok(ParseBallotTree(v.s))
    else MeekError(ERR_OPTION_VALUE)
  }

  /** The type of alternative defeats is accepted in any letter case:
      'pEr_RefereNce_ruLe' gives per_reference_rule. */
  lemma TypeOfAltDefsIgnoresCase(s: string, t: AltDefsType)
    ensures TypeOfAltDefsOption(JStr(s)) == Ok(t) <==> SameIgnoringCase(s, AltDefsTypeText(t))
  {
    AltDefsTypeIgnoresCase(s, t);
  }

  /** One named option applied to the options so far. */
  function ApplyOption(o: Options, name: string, v: Js): (r: Result<Options>)
    ensures ParseOptionName(name).None? ==> r == MeekError(ERR_OPTION_NAME)
  {
    match ParseOptionName(name)
    case None => MeekError(ERR_OPTION_NAME)
    case Some(AlternativeDefeats) =>
      var a :- AltDefsOption(v);
      Ok(o.(alternativeDefeats := a))
    case Some(TypeOfAltDefs) =>
      var t :- TypeOfAltDefsOption(v);
      Ok(o.(typeOfAltDefs := t))
    case Some(AlwaysCountVotes) =>
      var b :- AlwaysCountVotesOption(v);
      Ok(o.(alwaysCountVotes := b))
    case Some(BallotTree) =>
      var t :- BallotTreeOption(v);
      Ok(o.(ballotTree := t))
  }

  function ApplyOptions(o: Options, fields: seq<(string, Js)>): (r: Result<Options>)
    ensures (exists i | 0 <= i < |fields| :: ParseOptionName(fields[i].0).None?) ==> r.Err?
    decreases |fields|
  {
    if fields == [] then Ok(o)
    else
      var o' :- ApplyOption(o, fields[0].0, fields[0].1);
      var r := ApplyOptions(o', fields[1..]);
      assert forall i | 1 <= i < |fields| :: fields[i] == fields[1..][i - 1];
      r
  }

  /** `options(v)`: the defaults, overridden by each named option in
      turn; null or undefined keeps the defaults. */
  function ValidateOptions(v: Js): (r: Result<Options>)
    ensures v.JNull? || v.JUndef? ==> r == Ok(DEFAULT_OPTIONS)
    ensures !(v.JNull? || v.JUndef? || v.JObj?) ==> r == MeekError(ERR_OPTIONS_NOT_OBJECT)
    ensures v.JObj? && (exists i | 0 <= i < |v.fields| :: ParseOptionName(v.fields[i].0).None?) ==> r.Err?
  {
    if v.JNull? || v.JUndef? then Ok(DEFAULT_OPTIONS)
    else if v.JObj? then ApplyOptions(DEFAULT_OPTIONS, v.fields)
    else MeekError(ERR_OPTIONS_NOT_OBJECT)
  }

  /** The option values as they would be given. */
  function AltDefsJs(a: AltDefs): Js {
    match a
    case AllRounds(y) => JStr(YesNoText(y))
    case PerRound(ys) => JArr(FromStrings(YesNoTexts(ys)))
  }

  function YesNoTexts(ys: seq<YesNo>): (r: seq<string>)
    ensures |r| == |ys| && forall i | 0 <= i < |ys| :: r[i] == YesNoText(ys[i])
  {
    if ys == [] then [] else [YesNoText(ys[0])] + YesNoTexts(ys[1..])
  }

  /** The value option n has in o, as it would be given. */
  function OptionJs(o: Options, n: OptionName): Js {
    match n
    case AlternativeDefeats => AltDefsJs(o.alternativeDefeats)
    case TypeOfAltDefs => JStr(AltDefsTypeText(o.typeOfAltDefs))
    case AlwaysCountVotes => JBool(o.alwaysCountVotes)
    case BallotTree => match o.ballotTree case None => JNull case Some(t) => JStr(BallotTreeText(t))
  }

  /** base with option n taken from o. */
  function CopyOption(base: Options, o: Options, n: OptionName): Options {
    match n
    case AlternativeDefeats => base.(alternativeDefeats := o.alternativeDefeats)
    case TypeOfAltDefs => base.(typeOfAltDefs := o.typeOfAltDefs)
    case AlwaysCountVotes => base.(alwaysCountVotes := o.alwaysCountVotes)
    case BallotTree => base.(ballotTree := o.ballotTree)
  }

  function OptionField(o: Options, n: OptionName): (string, Js) {
    (OptionNameText(n), OptionJs(o, n))
  }

  /** All four options spelt out as an object. */
  function OptionsJs(o: Options): Js {
    JObj([OptionField(o, AlternativeDefeats), OptionField(o, TypeOfAltDefs),
          OptionField(o, AlwaysCountVotes), OptionField(o, BallotTree)])
  }

  /** Applying one spelt-out option copies it. */
  lemma OptionRoundTrip(base: Options, o: Options, n: OptionName)
    ensures ApplyOption(base, OptionNameText(n), OptionJs(o, n)) == Ok(CopyOption(base, o, n))
  {
    OptionNames(n, "");
    match n
    case AlternativeDefeats => AltDefsRoundTrip(o.alternativeDefeats);
    case TypeOfAltDefs => AltDefsTypeRoundTrip(o.typeOfAltDefs);
    case AlwaysCountVotes =>
    case BallotTree =>
      if o.ballotTree.Some? {
        BallotTreeRoundTrip(o.ballotTree.value);
      }
  }

  lemma {:induction false} AltDefsRoundTrip(a: AltDefs)
    ensures AltDefsOption(AltDefsJs(a)) == Ok(a)
  {
    match a
    case AllRounds(y) =>
      YesNoRoundTrip(y);
    case PerRound(ys) =>
      var xs := YesNoTexts(ys);
      StringsRoundTrip(xs, []);
      forall i | 0 <= i < |ys| ensures ParseYesNo(xs[i]) == Some(ys[i]) {
        YesNoRoundTrip(ys[i]);
      }
      var r := PerRoundValues(xs);
      assert r.Ok?;
      assert r.value == ys;
  }

  /** Every options value is read back from the object that spells it
      out. */
  lemma {:induction false} OptionsRoundTrip(o: Options)
    ensures ValidateOptions(OptionsJs(o)) == Ok(o)
  {
    var fields := OptionsJs(o).fields;
    var o1 := CopyOption(DEFAULT_OPTIONS, o, AlternativeDefeats);
    var o2 := CopyOption(o1, o, TypeOfAltDefs);
    var o3 := CopyOption(o2, o, AlwaysCountVotes);
    OptionRoundTrip(DEFAULT_OPTIONS, o, AlternativeDefeats);
    OptionRoundTrip(o1, o, TypeOfAltDefs);
    OptionRoundTrip(o2, o, AlwaysCountVotes);
    OptionRoundTrip(o3, o, BallotTree);
    assert CopyOption(o3, o, BallotTree) == o;
    ApplyOptionsStep(o3, fields[3..], o, o);
    assert fields[2..][1..] == fields[3..];
    ApplyOptionsStep(o2, fields[2..], o3, o);
    assert fields[1..][1..] == fields[2..];
    ApplyOptionsStep(o1, fields[1..], o2, o);
    ApplyOptionsStep(DEFAULT_OPTIONS, fields, o1, o);
  }

  /** Applying a list of options is applying its head, then its tail. */
  lemma ApplyOptionsStep(o: Options, fields: seq<(string, Js)>, o': Options, result: Options)
    requires |fields| >= 1 && ApplyOption(o, fields[0].0, fields[0].1) == Ok(o')
    requires ApplyOptions(o', fields[1..]) == Ok(result)
    ensures ApplyOptions(o, fields) == Ok(result)
  {
  }
}
