/** The rounds of a Meek tabulation as functions of the state they start
    from: the counting of a round, the elections and the defeat that
    follow it, the tally rows it appends, and the tabulation that repeats
    rounds until no candidate is hopeful. */
module MeekRound {
  import opened Wrappers
  import opened Decimal9
  import opened Constants
  import opened Ballots
  import opened JsValues
  import opened Statuses
  import opened MeekCount
  import V = Validate
  import U = UtilBasic
  import R = Results

  const ERR_TIE_NOT_IN_TIE_BREAKER: string := "Tied candidate is not in tieBreaker"
  const ERR_ALTDEFS_TOO_SHORT: string := "Round by round value for alternative defeats option is too short"

  // ---------------------------------------------------------------------
  // Inputs and state
  // ---------------------------------------------------------------------

  /** The validated inputs of a tabulation. */
  datatype Config = Config(
    seats: nat,
    candidates: seq<string>,
    ballots: seq<Ballot>,
    maxRankingLevels: Option<nat>,
    tieBreaker: map<string, nat>,
    excluded: set<string>,
    protectedSet: set<string>,
    options: V.Options)

  /** Distinct positions for distinct candidates. */
  predicate Injective(tb: map<string, nat>) {
    forall a, b | a in tb && b in tb && a != b :: tb[a] != tb[b]
  }

  /** What the validator guarantees about the inputs. */
  predicate ValidConfig(c: Config) {
    c.seats >= 1
    && U.Distinct(c.candidates) && V.AllCandidateIds(c.candidates)
    && (forall id | id in c.tieBreaker :: id in c.candidates) && Injective(c.tieBreaker)
    && (forall id | id in c.excluded :: id in c.candidates)
    && (forall id | id in c.protectedSet :: id in c.candidates)
    && c.protectedSet !! c.excluded && |c.protectedSet| <= c.seats
    && (forall i | 0 <= i < |c.ballots| :: V.ValidBallot(c.ballots[i], c.candidates, c.maxRankingLevels))
  }

  /** `new Tabulation(nbrSeatsToFill, candidates, ballots, maxRankingLevels,
      tieBreaker, excluded, protectedList, options)`: each input validated
      in turn, the first failure reported. */
  function NewTabulation(seats: Js, candidates: Js, ballots: Js, maxRankingLevels: Js, tieBreaker: Js,
                         excluded: Js, protectedList: Js, options: Js): (r: Result<Config>)
    ensures r.Ok? ==> ValidConfig(r.value)
    ensures r.Ok? <==> (V.NbrSeatsToFill(seats).Ok? && V.Candidates(candidates).Ok?
      && V.MaxRankingLevels(maxRankingLevels).Ok?
      && V.ValidateBallots(ballots, V.Candidates(candidates).value, V.MaxRankingLevels(maxRankingLevels).value).Ok?
      && V.TieBreaker(tieBreaker, V.Candidates(candidates).value).Ok?
      && V.Excluded(excluded, V.Candidates(candidates).value).Ok?
      && V.ProtectedCandidates(protectedList, V.Candidates(candidates).value,
                               V.Excluded(excluded, V.Candidates(candidates).value).value,
                               V.NbrSeatsToFill(seats).value).Ok?
      && V.ValidateOptions(options).Ok?)
  {
    var n :- V.NbrSeatsToFill(seats);
    var cs :- V.Candidates(candidates);
    var levels :- V.MaxRankingLevels(maxRankingLevels);
    var bs :- V.ValidateBallots(ballots, cs, levels);
    var tb :- V.TieBreaker(tieBreaker, cs);
    var ex :- V.Excluded(excluded, cs);
    var pr :- V.ProtectedCandidates(protectedList, cs, ex, n);
    var opts :- V.ValidateOptions(options);
    assert Injective(tb) by {
      var ids := U.ToArrayOfStrings(tieBreaker).value;
      forall a, b | a in tb && b in tb && a != b ensures tb[a] != tb[b] {
        assert ids[tb[a]] == a && ids[tb[b]] == b;
      }
    }
    Ok(Config(n, cs, bs, levels, tb, ex, pr, opts))
  }

  /** What a tabulation carries from round to round. */
  datatype EngineState = EngineState(
    statuses: map<string, StatusValue>,
    keepFactors: map<string, Decimal9>,
    tallies: map<string, seq<Cell>>,
    nbrRound: nat)

  /** The keys of the tally: the candidates, then the summary rows. */
  function TallyKeys(c: Config): seq<string> {
    c.candidates + R.SUMMARY_LABELS
  }

  /** A candidate's status before round 1. */
  function InitialStatus(c: Config, id: string): StatusValue {
    if id in c.excluded then StatusValue(id, None, 0, Defeated, ZERO, Excluded)
    else StatusValue(id, None, 0, Hopeful, ONE, if id in c.protectedSet then Protected else Normal)
  }

  /** The state at the beginning of round 1: excluded candidates defeated
      with keep factor ZERO, every other candidate hopeful with keep factor
      ONE, nobody with votes yet, every tally row empty. */
  function Initial(c: Config): (s: EngineState)
    ensures s.statuses.Keys == set id | id in c.candidates
    ensures forall id | id in s.statuses :: s.statuses[id].votes == None && s.statuses[id].nbrRound == 0
    ensures forall id | id in s.statuses :: s.statuses[id].status == Hopeful <==> id !in c.excluded
    ensures forall id | id in s.keepFactors :: s.keepFactors[id] == if id in c.excluded then ZERO else ONE
    ensures forall k | k in s.tallies :: s.tallies[k] == []
    ensures s.nbrRound == 0
  {
    EngineState(map id | id in c.candidates :: InitialStatus(c, id),
                map id | id in c.candidates :: InitialStatus(c, id).keepFactor,
                map k | k in TallyKeys(c) :: [],
                0)
  }

  // ---------------------------------------------------------------------
  // Statuses
  // ---------------------------------------------------------------------

  predicate HasStatus(statuses: map<string, StatusValue>, id: string, k: StatusKind) {
    id in statuses && statuses[id].status == k
  }

  /** The hopeful candidates, in candidate order. */
  function Hopefuls(candidates: seq<string>, statuses: map<string, StatusValue>): (r: seq<string>)
    ensures forall id :: id in r <==> id in candidates && HasStatus(statuses, id, Hopeful)
  {
    if candidates == [] then []
    else (if HasStatus(statuses, candidates[0], Hopeful) then [candidates[0]] else [])
         + Hopefuls(candidates[1..], statuses)
  }

  function HopefulSet(candidates: seq<string>, statuses: map<string, StatusValue>): set<string> {
    set id | id in candidates && HasStatus(statuses, id, Hopeful)
  }

  function ElectedSet(candidates: seq<string>, statuses: map<string, StatusValue>): set<string> {
    set id | id in candidates && HasStatus(statuses, id, Elected)
  }

  /** `_hopefulVotes()`: the hopeful candidates and their votes. */
  function HopefulVotes(candidates: seq<string>, statuses: map<string, StatusValue>): (m: map<string, Option<Decimal9>>)
    ensures m.Keys == HopefulSet(candidates, statuses)
    ensures forall id | id in m :: m[id] == statuses[id].votes
  {
    map id | id in HopefulSet(candidates, statuses) :: statuses[id].votes
  }

  /** The status update after a round's count: every keep factor is
      recorded, and the hopefuls get the round's votes and round number. */
  function Recount(s: StatusValue, votes: Decimal9, kf: Decimal9, round: nat): StatusValue {
    var s' := s.(keepFactor := kf);
    if s.status == Hopeful then s'.(votes := Some(votes), nbrRound := round) else s'
  }

  function AfterCount(statuses: map<string, StatusValue>, votes: map<string, Decimal9>, kf: map<string, Decimal9>,
                      round: nat): (st: map<string, StatusValue>)
    ensures st.Keys == statuses.Keys
    ensures forall id | id in st :: st[id].status == statuses[id].status && st[id].destiny == statuses[id].destiny
  {
    map id | id in statuses ::
      Recount(statuses[id], VotesFor(votes, id), if id in kf then kf[id] else statuses[id].keepFactor, round)
  }

  /** The statuses with those of `ids` set to k and nothing else changed. */
  function WithStatus(statuses: map<string, StatusValue>, ids: set<string>, k: StatusKind): (st: map<string, StatusValue>)
    ensures st.Keys == statuses.Keys
  {
    map id | id in statuses :: if id in ids then statuses[id].(status := k) else statuses[id]
  }

  /** The keep factors with those of `ids` set to ZERO. */
  function ZeroFactors(kf: map<string, Decimal9>, ids: set<string>): (r: map<string, Decimal9>)
    ensures r.Keys == kf.Keys
  {
    map id | id in kf :: if id in ids then ZERO else kf[id]
  }

  /** `_electCandidates(ids)`. */
  function Elect(s: EngineState, ids: set<string>): EngineState {
    s.(statuses := WithStatus(s.statuses, ids, Elected))
  }

  /** `_defeatCandidates(ids)`: defeated, and their working keep factors
      set to ZERO. */
  function Defeat(s: EngineState, ids: set<string>): EngineState {
    s.(statuses := WithStatus(s.statuses, ids, Defeated), keepFactors := ZeroFactors(s.keepFactors, ids))
  }

  /** Electing or defeating takes exactly those candidates out of the
      hopefuls. */
  lemma WithStatusHopefuls(candidates: seq<string>, statuses: map<string, StatusValue>, ids: set<string>, k: StatusKind)
    requires k != Hopeful
    ensures HopefulSet(candidates, WithStatus(statuses, ids, k)) == HopefulSet(candidates, statuses) - ids
  {
  }

  /** Only the status field of the chosen candidates changes. */
  lemma WithStatusEffect(statuses: map<string, StatusValue>, ids: set<string>, k: StatusKind, id: string)
    requires id in statuses
    ensures var st := WithStatus(statuses, ids, k);
      id in st
      && st[id].status == (if id in ids then k else statuses[id].status)
      && st[id].(status := Hopeful) == statuses[id].(status := Hopeful)
  {
  }

  /** The chosen candidates' keep factors become zero; the others stay. */
  lemma ZeroFactorsEffect(kf: map<string, Decimal9>, ids: set<string>, id: string)
    requires id in kf
    ensures id in ZeroFactors(kf, ids)
    ensures id in ids ==> ZeroFactors(kf, ids)[id] == ZERO
    ensures id !in ids ==> ZeroFactors(kf, ids)[id] == kf[id]
  {
  }

  /** The status update records every candidate's working keep factor;
      a hopeful also gets the round's count and the round number, while
      an elected or defeated candidate keeps the count and round it had. */
  lemma AfterCountEffect(statuses: map<string, StatusValue>, votes: map<string, Decimal9>, kf: map<string, Decimal9>,
                         round: nat, id: string)
    requires id in statuses && id in kf
    ensures var st := AfterCount(statuses, votes, kf, round);
      id in st
      && st[id].keepFactor == kf[id] && st[id].candidate == statuses[id].candidate
      && (statuses[id].status == Hopeful ==> st[id].votes == Some(VotesFor(votes, id)) && st[id].nbrRound == round)
      && (statuses[id].status != Hopeful ==> st[id].votes == statuses[id].votes && st[id].nbrRound == statuses[id].nbrRound)
  {
  }

  /** The hopefuls, in candidate order, whose count reaches the quota. */
  function ReachedQuota(candidates: seq<string>, statuses: map<string, StatusValue>, votes: map<string, Decimal9>,
                        quota: Decimal9): (r: seq<string>)
    ensures forall id :: id in r <==>
      id in candidates && HasStatus(statuses, id, Hopeful) && VotesFor(votes, id).scaled >= quota.scaled
  {
    if candidates == [] then []
    else
      var id := candidates[0];
      (if HasStatus(statuses, id, Hopeful) && VotesFor(votes, id).scaled >= quota.scaled then [id] else [])
      + ReachedQuota(candidates[1..], statuses, votes, quota)
  }

  /** The hopefuls whose count reaches the quota, as a set. */
  function Winners(candidates: seq<string>, statuses: map<string, StatusValue>, votes: map<string, Decimal9>,
                   quota: Decimal9): set<string>
  {
    set id | id in ReachedQuota(candidates, statuses, votes, quota)
  }

  // ---------------------------------------------------------------------
  // Choosing the candidate to defeat
  // ---------------------------------------------------------------------

  /** `_resolveTie(tied)`: the tied candidate earliest in the tie-breaker;
      a tied candidate missing from the tie-breaker is an error. */
  function ResolveTie(tied: seq<string>, tb: map<string, nat>): (r: Result<string>)
    requires tied != []
    ensures r.Err? <==> exists id | id in tied :: id !in tb
    ensures r.Err? ==> r == V.MeekError(ERR_TIE_NOT_IN_TIE_BREAKER)
    ensures r.Ok? ==> r.value in tied && r.value in tb && forall id | id in tied :: tb[r.value] <= tb[id]
  {
    if tied[0] !in tb then V.MeekError(ERR_TIE_NOT_IN_TIE_BREAKER)
    else if |tied| == 1 then Ok(tied[0])
    else
      match ResolveTie(tied[1..], tb)
      case Err(e) => Err(e)
      case Ok(w) => if tb[tied[0]] <= tb[w] then Ok(tied[0]) else Ok(w)
  }

  /** With distinct positions, the earliest tied candidate is unique. */
  lemma TieWinnerUnique(tied: set<string>, tb: map<string, nat>, a: string, b: string)
    requires Injective(tb)
    requires a in tied && a in tb && forall id | id in tied :: id in tb && tb[a] <= tb[id]
    requires b in tied && b in tb && forall id | id in tied :: id in tb && tb[b] <= tb[id]
    ensures a == b
  {
  }

  /** The votes a status records; none before the first count. */
  function RecordedVotes(statuses: map<string, StatusValue>, id: string): Decimal9 {
    if id in statuses && statuses[id].votes.Some? then statuses[id].votes.value else ZERO
  }

  /** The hopefuls that may be defeated: the unprotected ones, or all of
      them when every hopeful is protected. */
  function DefeatPool(candidates: seq<string>, statuses: map<string, StatusValue>): (r: seq<string>)
    ensures forall id | id in r :: id in candidates && HasStatus(statuses, id, Hopeful)
    ensures Hopefuls(candidates, statuses) != [] ==> r != []
    ensures Unprotected(Hopefuls(candidates, statuses), statuses) != [] ==>
      forall id | id in r :: statuses[id].destiny != Protected
    ensures forall id | id in candidates && HasStatus(statuses, id, Hopeful)
      && statuses[id].destiny != Protected :: id in r
  {
    var hs := Hopefuls(candidates, statuses);
    var unprotected := Unprotected(hs, statuses);
    if unprotected != [] then unprotected else hs
  }

  function Unprotected(ids: seq<string>, statuses: map<string, StatusValue>): (r: seq<string>)
    ensures forall id :: id in r <==> id in ids && !(id in statuses && statuses[id].destiny == Protected)
  {
    if ids == [] then []
    else (if ids[0] in statuses && statuses[ids[0]].destiny == Protected then [] else [ids[0]])
         + Unprotected(ids[1..], statuses)
  }

  /** The fewest votes recorded among `ids`. */
  function LowestVotes(ids: seq<string>, statuses: map<string, StatusValue>): (low: Decimal9)
    requires ids != []
    ensures exists id | id in ids :: RecordedVotes(statuses, id) == low
    ensures forall id | id in ids :: low.scaled <= RecordedVotes(statuses, id).scaled
  {
    if |ids| == 1 then RecordedVotes(statuses, ids[0])
    else
      var rest := LowestVotes(ids[1..], statuses);
      var first := RecordedVotes(statuses, ids[0]);
      if first.scaled <= rest.scaled then first else rest
  }

  /** The members of ids that recorded exactly `low` votes. */
  function WithVotes(ids: seq<string>, statuses: map<string, StatusValue>, low: Decimal9): (r: seq<string>)
    ensures forall id :: id in r <==> id in ids && RecordedVotes(statuses, id) == low
  {
    if ids == [] then []
    else (if RecordedVotes(statuses, ids[0]) == low then [ids[0]] else [])
         + WithVotes(ids[1..], statuses, low)
  }

  /** `_getSingleDefeatCandidate()`: the candidate of the defeat pool with
      the fewest votes; a tie goes to the tie-breaker. */
  function SingleDefeatCandidate(candidates: seq<string>, statuses: map<string, StatusValue>, tb: map<string, nat>)
    : (r: Result<string>)
    requires Hopefuls(candidates, statuses) != []
    ensures r.Ok? ==> r.value in DefeatPool(candidates, statuses)
    ensures r.Ok? ==> forall id | id in DefeatPool(candidates, statuses) ::
      RecordedVotes(statuses, r.value).scaled <= RecordedVotes(statuses, id).scaled
    ensures r.Err? ==> r == V.MeekError(ERR_TIE_NOT_IN_TIE_BREAKER)
  {
    var tied := TiedAtLowest(candidates, statuses);
    if Alone(tied) then Ok(tied[0]) else ResolveTie(tied, tb)
  }

  /** The members of the defeat pool with its fewest votes. */
  function TiedAtLowest(candidates: seq<string>, statuses: map<string, StatusValue>): (r: seq<string>)
    requires Hopefuls(candidates, statuses) != []
    ensures r != []
  {
    var pool := DefeatPool(candidates, statuses);
    var low := LowestVotes(pool, statuses);
    WithVotes(pool, statuses, low)
  }

  /** The single defeat in terms of the set of tied candidates: a lone one
      is defeated without the tie-breaker; of several, the one earliest in
      the tie-breaker, which fails when one of them is missing from it. */
  lemma SingleDefeatOfTiedSet(candidates: seq<string>, statuses: map<string, StatusValue>, tb: map<string, nat>,
                              tied: set<string>)
    requires Hopefuls(candidates, statuses) != []
    requires tied == set id | id in TiedAtLowest(candidates, statuses)
    ensures var d := SingleDefeatCandidate(candidates, statuses, tb);
      && (|tied| == 1 ==> d.Ok? && tied == {d.value})
      && (|tied| != 1 ==> (d.Err? <==> exists id | id in tied :: id !in tb))
      && (|tied| != 1 && d.Err? ==> d == V.MeekError(ERR_TIE_NOT_IN_TIE_BREAKER))
      && (|tied| != 1 && d.Ok? ==> d.value in tied && d.value in tb && forall id | id in tied :: tb[d.value] <= tb[id])
  {
    var t := TiedAtLowest(candidates, statuses);
    AloneIffSingleton(t, tied);
    if |tied| == 1 {
      assert t[0] in tied;
    }
  }

  /** A nonempty list names one candidate exactly when its members form a
      singleton. */
  lemma AloneIffSingleton(ids: seq<string>, members: set<string>)
    requires ids != [] && members == set id | id in ids
    ensures Alone(ids) <==> |members| == 1
  {
    if Alone(ids) {
      assert members == {ids[0]};
    } else {
      var other :| other in ids && other != ids[0];
      assert {ids[0], other} <= members;
      assert |{ids[0], other}| == 2;
      SubsetNoLarger({ids[0], other}, members);
    }
  }

  lemma SubsetNoLarger<T>(a: set<T>, b: set<T>)
    requires a <= b
    ensures |a| <= |b|
  {
    assert b == a + (b - a);
  }

  /** Only one candidate is listed, perhaps more than once. */
  predicate Alone(ids: seq<string>)
    requires ids != []
  {
    forall id | id in ids :: id == ids[0]
  }

  // ---------------------------------------------------------------------
  // One round
  // ---------------------------------------------------------------------

  function ElectionOf(c: Config): Election {
    Election(c.candidates, c.ballots, c.seats)
  }

  /** The entry a summary row gets for a round. */
  function SummaryCell(row: string, candidates: seq<string>, it: Iteration, surplus: Decimal9, iterations: nat): Cell {
    if row == ":Votes for candidates" then Dec(VotesForCandidates(candidates, it.tally))
    else if row == ":Overvotes" then Dec(it.tally.overvotes)
    else if row == ":Abstentions" then Dec(it.tally.abstentions)
    else if row == ":Other exhausted" then Dec(it.tally.otherExhausted)
    else if row == ":Total votes" then Dec(TotalVotes(candidates, it.tally))
    else if row == ":Quota" then Dec(it.quota)
    else if row == ":Total surplus" then Dec(surplus)
    else Int(iterations)
  }

  /** One tally row after a round: a summary row gets the round's entry,
      a candidate not defeated before the round gets the round's votes,
      and the row of a candidate defeated earlier stops. */
  function RowAfterRound(k: string, row: seq<Cell>, candidates: seq<string>, before: map<string, StatusValue>,
                         it: Iteration, surplus: Decimal9, iterations: nat): seq<Cell> {
    if k in R.SUMMARY_LABELS then row + [SummaryCell(k, candidates, it, surplus, iterations)]
    else if k in before && before[k].status != Defeated then row + [Dec(VotesFor(it.tally.votes, k))]
    else row
  }

  /** The tally after a round. */
  function AppendRound(candidates: seq<string>, before: map<string, StatusValue>, tallies: map<string, seq<Cell>>,
                       it: Iteration, surplus: Decimal9, iterations: nat): (r: map<string, seq<Cell>>)
    ensures r.Keys == tallies.Keys
  {
    map k | k in tallies :: RowAfterRound(k, tallies[k], candidates, before, it, surplus, iterations)
  }

  /** The per-round alternative-defeats values do not reach this round. */
  predicate AltDefsTooShort(options: V.Options, round: nat) {
    options.alternativeDefeats.PerRound? && |options.alternativeDefeats.values| < round
  }

  /** What ends a round once its count is in: when the seats are filled
      the remaining hopefuls are defeated; when no more hopefuls remain
      than seats, they are all elected; when the round elected somebody it
      ends there; otherwise the single lowest candidate is defeated. */
  function Decide(c: Config, s: EngineState, anyElected: bool): Result<EngineState>
  {
    var hopefuls := Hopefuls(c.candidates, s.statuses);
    var nElected := |ElectedSet(c.candidates, s.statuses)|;
    if nElected >= c.seats then Ok(Defeat(s, set id | id in hopefuls))
    else if |hopefuls| <= c.seats - nElected then Ok(Elect(s, set id | id in hopefuls))
    else if anyElected then Ok(s)
    else if AltDefsTooShort(c.options, s.nbrRound) then V.MeekError(ERR_ALTDEFS_TOO_SHORT)
    else
      var d :- SingleDefeatCandidate(c.candidates, s.statuses, c.tieBreaker);
      Ok(Defeat(s, {d}))
  }

  /** Once the seats are filled, every remaining hopeful is defeated with
      the rest of its status, including the keep factor it recorded,
      unchanged, and its working keep factor becomes zero. */
  lemma SeatsFilledDefeatsRest(c: Config, s: EngineState, anyElected: bool, id: string)
    requires |ElectedSet(c.candidates, s.statuses)| >= c.seats
    requires id in c.candidates && HasStatus(s.statuses, id, Hopeful) && id in s.keepFactors
    ensures Decide(c, s, anyElected).Ok?
    ensures var d := Decide(c, s, anyElected).value;
      id in d.statuses && d.statuses[id] == s.statuses[id].(status := Defeated)
      && id in d.keepFactors && d.keepFactors[id] == ZERO
  {
    var hopefuls := Hopefuls(c.candidates, s.statuses);
    assert id in set h | h in hopefuls;
  }

  /** With seats still open, more hopefuls than open seats and no one
      elected in the round, the one candidate SingleDefeatCandidate picks
      from the defeat pool is defeated and no one else changes status, or
      the tie-breaker error ends the tabulation. */
  lemma DecideSingleDefeat(c: Config, s: EngineState, anyElected: bool)
    requires |ElectedSet(c.candidates, s.statuses)| < c.seats
    requires |Hopefuls(c.candidates, s.statuses)| > c.seats - |ElectedSet(c.candidates, s.statuses)|
    requires !anyElected && !AltDefsTooShort(c.options, s.nbrRound)
    ensures SingleDefeatCandidate(c.candidates, s.statuses, c.tieBreaker).Err? ==>
      Decide(c, s, anyElected) == V.MeekError(ERR_TIE_NOT_IN_TIE_BREAKER)
    ensures SingleDefeatCandidate(c.candidates, s.statuses, c.tieBreaker).Ok? ==>
      var d := SingleDefeatCandidate(c.candidates, s.statuses, c.tieBreaker).value;
      Decide(c, s, anyElected).Ok?
      && HopefulSet(c.candidates, Decide(c, s, anyElected).value.statuses) == HopefulSet(c.candidates, s.statuses) - {d}
      && ElectedSet(c.candidates, Decide(c, s, anyElected).value.statuses) == ElectedSet(c.candidates, s.statuses)
  {
    var r := SingleDefeatCandidate(c.candidates, s.statuses, c.tieBreaker);
    if r.Ok? {
      var d := r.value;
      assert Decide(c, s, anyElected) == Ok(Defeat(s, {d}));
      assert d in Hopefuls(c.candidates, s.statuses);
      WithStatusHopefuls(c.candidates, s.statuses, {d}, Defeated);
      DefeatKeepsElected(c.candidates, s.statuses, d);
    }
  }

  /** With seats still open and no more hopefuls than open seats, every
      hopeful is elected. */
  lemma DecideElectsRest(c: Config, s: EngineState, anyElected: bool)
    requires |ElectedSet(c.candidates, s.statuses)| < c.seats
    requires |Hopefuls(c.candidates, s.statuses)| <= c.seats - |ElectedSet(c.candidates, s.statuses)|
    ensures Decide(c, s, anyElected).Ok?
    ensures HopefulSet(c.candidates, Decide(c, s, anyElected).value.statuses) == {}
    ensures ElectedSet(c.candidates, Decide(c, s, anyElected).value.statuses)
      == ElectedSet(c.candidates, s.statuses) + HopefulSet(c.candidates, s.statuses)
  {
    var all := set id | id in Hopefuls(c.candidates, s.statuses);
    assert all == HopefulSet(c.candidates, s.statuses);
    WithStatusHopefuls(c.candidates, s.statuses, all, Elected);
  }

  /** Defeating a hopeful elects and unelects no one. */
  lemma DefeatKeepsElected(candidates: seq<string>, statuses: map<string, StatusValue>, d: string)
    requires HasStatus(statuses, d, Hopeful)
    ensures ElectedSet(candidates, WithStatus(statuses, {d}, Defeated)) == ElectedSet(candidates, statuses)
  {
  }

  /** A round's state once its count is in and its quota winners are
      elected, and whether there were any. */
  datatype Counted = Counted(state: EngineState, anyElected: bool)

  /** The status update, the election of every hopeful at or above the
      quota and the tally entries that follow a round's count. */
  function AfterConverge(c: Config, s: EngineState, out: Converged): (r: Counted)
    ensures HopefulSet(c.candidates, r.state.statuses) <= HopefulSet(c.candidates, s.statuses)
    ensures r.anyElected ==> HopefulSet(c.candidates, r.state.statuses) < HopefulSet(c.candidates, s.statuses)
  {
    var round := s.nbrRound + 1;
    var it := out.last;
    var counted := AfterCount(s.statuses, it.tally.votes, out.keepFactors, round);
    var newly := ReachedQuota(c.candidates, counted, it.tally.votes, it.quota);
    var st := WithStatus(counted, Winners(c.candidates, counted, it.tally.votes, it.quota), Elected);
    var surplus := Surplus(c.candidates, ElectedSet(c.candidates, st), it.tally.votes, it.quota);
    var tallies := AppendRound(c.candidates, s.statuses, s.tallies, it, surplus, out.iterations);
    assert HopefulSet(c.candidates, counted) == HopefulSet(c.candidates, s.statuses);
    WithStatusHopefuls(c.candidates, counted, Winners(c.candidates, counted, it.tally.votes, it.quota), Elected);
    assert newly != [] ==> newly[0] in HopefulSet(c.candidates, s.statuses) - HopefulSet(c.candidates, st);
    Counted(EngineState(st, out.keepFactors, tallies, round), newly != [])
  }

  /** `AfterConverge` assembled from its parts, one by one. */
  lemma AfterConvergeParts(c: Config, s: EngineState, out: Converged, counted: map<string, StatusValue>,
                           newly: set<string>, st: map<string, StatusValue>, tallies: map<string, seq<Cell>>,
                           anyElected: bool)
    requires counted == AfterCount(s.statuses, out.last.tally.votes, out.keepFactors, s.nbrRound + 1)
    requires newly == Winners(c.candidates, counted, out.last.tally.votes, out.last.quota)
    requires st == WithStatus(counted, newly, Elected)
    requires tallies == AppendRound(c.candidates, s.statuses, s.tallies, out.last,
                                    Surplus(c.candidates, ElectedSet(c.candidates, st), out.last.tally.votes, out.last.quota),
                                    out.iterations)
    requires anyElected == (newly != {})
    ensures AfterConverge(c, s, out) == Counted(EngineState(st, out.keepFactors, tallies, s.nbrRound + 1), anyElected)
  {
    var winners := ReachedQuota(c.candidates, counted, out.last.tally.votes, out.last.quota);
    if winners != [] {
      assert winners[0] in newly;
    }
  }

  /** One round: the count iterated until it settles, then the status
      update, elections and tally entries, then the decision that ends the
      round. */
  function Round(c: Config, s: EngineState): Result<EngineState>
    requires c.seats >= 1
  {
    var out :- Converge(ElectionOf(c), HopefulSet(c.candidates, s.statuses), ElectedSet(c.candidates, s.statuses),
                        s.keepFactors, 1, None);
    var k := AfterConverge(c, s, out);
    Decide(c, k.state, k.anyElected)
  }

  /** A round whose iterations ended with `out` ends with the decision
      taken on `AfterConverge`'s state. */
  lemma RoundOfConverged(c: Config, s: EngineState, out: Converged)
    requires c.seats >= 1
    requires Converge(ElectionOf(c), HopefulSet(c.candidates, s.statuses), ElectedSet(c.candidates, s.statuses),
                      s.keepFactors, 1, None) == Ok(out)
    ensures Round(c, s) == Decide(c, AfterConverge(c, s, out).state, AfterConverge(c, s, out).anyElected)
  {
  }

  /** Every round takes at least one candidate out of the hopefuls. */
  lemma RoundShrinksHopefuls(c: Config, s: EngineState)
    requires c.seats >= 1 && HopefulSet(c.candidates, s.statuses) != {}
    requires Round(c, s).Ok?
    ensures |HopefulSet(c.candidates, Round(c, s).value.statuses)| < |HopefulSet(c.candidates, s.statuses)|
  {
    var out := Converge(ElectionOf(c), HopefulSet(c.candidates, s.statuses), ElectedSet(c.candidates, s.statuses),
                        s.keepFactors, 1, None).value;
    var k := AfterConverge(c, s, out);
    DecideShrinksHopefuls(c, k.state, k.anyElected, HopefulSet(c.candidates, s.statuses));
    StrictSubsetSmaller(HopefulSet(c.candidates, Round(c, s).value.statuses), HopefulSet(c.candidates, s.statuses));
  }

  lemma StrictSubsetSmaller<T>(a: set<T>, b: set<T>)
    requires a < b
    ensures |a| < |b|
  {
    assert b == a + (b - a);
  }

  lemma DecideShrinksHopefuls(c: Config, s: EngineState, anyElected: bool, h: set<string>)
    requires h != {} && HopefulSet(c.candidates, s.statuses) <= h
    requires anyElected ==> HopefulSet(c.candidates, s.statuses) < h
    requires Decide(c, s, anyElected).Ok?
    ensures HopefulSet(c.candidates, Decide(c, s, anyElected).value.statuses) < h
  {
    var hopefuls := Hopefuls(c.candidates, s.statuses);
    var nElected := |ElectedSet(c.candidates, s.statuses)|;
    var all := set id | id in hopefuls;
    assert all == HopefulSet(c.candidates, s.statuses);
    if nElected >= c.seats {
      WithStatusHopefuls(c.candidates, s.statuses, all, Defeated);
    } else if |hopefuls| <= c.seats - nElected {
      WithStatusHopefuls(c.candidates, s.statuses, all, Elected);
    } else if !anyElected {
      var d := SingleDefeatCandidate(c.candidates, s.statuses, c.tieBreaker).value;
      WithStatusHopefuls(c.candidates, s.statuses, {d}, Defeated);
    }
  }

  // ---------------------------------------------------------------------
  // The tabulation
  // ---------------------------------------------------------------------

  /** Rounds until no candidate is hopeful. */
  function TabulateFrom(c: Config, s: EngineState): (r: Result<EngineState>)
    requires c.seats >= 1
    ensures r.Ok? ==> HopefulSet(c.candidates, r.value.statuses) == {}
    decreases |HopefulSet(c.candidates, s.statuses)|
  {
    if HopefulSet(c.candidates, s.statuses) == {} then Ok(s)
    else
      var s' :- Round(c, s);
      RoundShrinksHopefuls(c, s);
      TabulateFrom(c, s')
  }

  /** The elected candidates, round by round, in candidate order within a
      round. */
  function ElectedInOrder(candidates: seq<string>, statuses: map<string, StatusValue>, round: nat): seq<string> {
    if round == 0 then []
    else ElectedInOrder(candidates, statuses, round - 1) + ElectedIn(candidates, statuses, round)
  }

  function ElectedIn(candidates: seq<string>, statuses: map<string, StatusValue>, round: nat): (r: seq<string>)
    ensures forall id :: id in r <==> id in candidates && HasStatus(statuses, id, Elected) && statuses[id].nbrRound == round
  {
    if candidates == [] then []
    else
      var id := candidates[0];
      (if HasStatus(statuses, id, Elected) && statuses[id].nbrRound == round then [id] else [])
      + ElectedIn(candidates[1..], statuses, round)
  }

  /** What `tabulate()` returns. */
  function ResultsOf(c: Config, s: EngineState): R.TabulationResults {
    R.TabulationResults(ElectedInOrder(c.candidates, s.statuses, s.nbrRound), c.candidates, s.statuses,
                        TallyKeys(c), s.tallies)
  }

  /** `tabulate()`: set up, then rounds until no candidate is hopeful. */
  function Tabulate(c: Config): Result<R.TabulationResults>
    requires c.seats >= 1
  {
    var s :- TabulateFrom(c, Initial(c));
    Ok(ResultsOf(c, s))
  }

  // ---------------------------------------------------------------------
  // What every round keeps true
  // ---------------------------------------------------------------------

  /** A status, a keep factor and the tally rows exist exactly for the
      candidates and the summary rows. */
  predicate Shaped(c: Config, s: EngineState) {
    s.statuses.Keys == (set id | id in c.candidates)
    && s.keepFactors.Keys == (set id | id in c.candidates)
    && s.tallies.Keys == (set k | k in TallyKeys(c))
  }

  /** Every summary row has one entry per round; a candidate's row has one
      entry per round it was counted in: every round so far, or up to the
      round of its defeat. Hopefuls were counted in the latest round, and
      an elected candidate was elected in some round. */
  predicate RoundsRecorded(c: Config, s: EngineState) {
    (forall k | k in R.SUMMARY_LABELS :: k in s.tallies && |s.tallies[k]| == s.nbrRound)
    && forall id | id in s.statuses ::
      0 <= s.statuses[id].nbrRound <= s.nbrRound
      && (s.statuses[id].status == Hopeful ==> s.statuses[id].nbrRound == s.nbrRound)
      && (s.statuses[id].status == Elected ==> s.statuses[id].nbrRound >= 1)
      && id in s.tallies
      && |s.tallies[id]| == if s.statuses[id].status == Defeated then s.statuses[id].nbrRound else s.nbrRound
  }

  /** A hopeful keeps all of every vote that reaches it, a defeated
      candidate none. */
  predicate FactorsFollowStatus(s: EngineState) {
    forall id | id in s.statuses ::
      id in s.keepFactors
      && (s.statuses[id].status == Hopeful ==> s.keepFactors[id] == ONE)
      && (s.statuses[id].status == Defeated ==> s.keepFactors[id] == ZERO)
  }

  /** Every round's total votes are the number of ballots: the count
      neither creates nor loses votes. */
  predicate TotalsConserved(c: Config, s: EngineState) {
    ":Total votes" in s.tallies
    && forall i | 0 <= i < |s.tallies[":Total votes"]| ::
      s.tallies[":Total votes"][i] == Dec(FromInt(V.TotalMultiple(c.ballots)))
  }

  predicate Inv(c: Config, s: EngineState) {
    Shaped(c, s) && RoundsRecorded(c, s) && FactorsFollowStatus(s) && TotalsConserved(c, s)
  }

  lemma CandidatesAreNotSummaryRows(c: Config)
    requires ValidConfig(c)
    ensures forall id | id in c.candidates :: id !in R.SUMMARY_LABELS
  {
    forall id | id in c.candidates ensures id !in R.SUMMARY_LABELS {
      var i :| 0 <= i < |c.candidates| && c.candidates[i] == id;
      assert V.IsCandidateId(c.candidates[i]);
    }
  }

  lemma InitialInv(c: Config)
    requires ValidConfig(c)
    ensures Inv(c, Initial(c))
  {
    CandidatesAreNotSummaryRows(c);
    assert ":Total votes" in TallyKeys(c);
  }

  /** Electing hopefuls keeps the invariant. */
  lemma ElectInv(c: Config, s: EngineState, ids: set<string>)
    requires Inv(c, s) && s.nbrRound >= 1
    requires forall id | id in ids :: HasStatus(s.statuses, id, Hopeful)
    ensures Inv(c, Elect(s, ids))
  {
  }

  /** Defeating hopefuls keeps the invariant. */
  lemma DefeatInv(c: Config, s: EngineState, ids: set<string>)
    requires Inv(c, s)
    requires forall id | id in ids :: HasStatus(s.statuses, id, Hopeful)
    ensures Inv(c, Defeat(s, ids))
  {
  }

  lemma DecideInv(c: Config, s: EngineState, anyElected: bool)
    requires Inv(c, s) && s.nbrRound >= 1
    requires Decide(c, s, anyElected).Ok?
    ensures Inv(c, Decide(c, s, anyElected).value)
    ensures Decide(c, s, anyElected).value.nbrRound == s.nbrRound
  {
    var hopefuls := Hopefuls(c.candidates, s.statuses);
    var nElected := |ElectedSet(c.candidates, s.statuses)|;
    if nElected >= c.seats {
      DefeatInv(c, s, set id | id in hopefuls);
    } else if |hopefuls| <= c.seats - nElected {
      ElectInv(c, s, set id | id in hopefuls);
    } else if !anyElected {
      var d := SingleDefeatCandidate(c.candidates, s.statuses, c.tieBreaker).value;
      DefeatInv(c, s, {d});
    }
  }

  /** What a round's count leaves to check of the invariant, with the
      parts of the round named. */
  predicate CountStep(c: Config, s: EngineState, out: Converged, counted: map<string, StatusValue>,
                      newly: seq<string>, st: map<string, StatusValue>, s1: EngineState)
  {
    var it := out.last;
    counted == AfterCount(s.statuses, it.tally.votes, out.keepFactors, s.nbrRound + 1)
    && newly == ReachedQuota(c.candidates, counted, it.tally.votes, it.quota)
    && st == WithStatus(counted, Winners(c.candidates, counted, it.tally.votes, it.quota), Elected)
    && s1 == AfterConverge(c, s, out).state
  }

  lemma CountStepRounds(c: Config, s: EngineState, out: Converged, counted: map<string, StatusValue>,
                        newly: seq<string>, st: map<string, StatusValue>, s1: EngineState)
    requires ValidConfig(c) && Shaped(c, s) && RoundsRecorded(c, s)
    requires CountStep(c, s, out, counted, newly, st, s1)
    ensures s1.statuses == st && s1.nbrRound == s.nbrRound + 1
    ensures RoundsRecorded(c, s1)
  {
    CandidatesAreNotSummaryRows(c);
    forall id | id in s1.statuses
      ensures 0 <= s1.statuses[id].nbrRound <= s1.nbrRound
      ensures s1.statuses[id].status == Hopeful ==> s1.statuses[id].nbrRound == s1.nbrRound
      ensures s1.statuses[id].status == Elected ==> s1.statuses[id].nbrRound >= 1
      ensures id in s1.tallies
      ensures |s1.tallies[id]| == if s1.statuses[id].status == Defeated then s1.statuses[id].nbrRound else s1.nbrRound
    {
      CountStepRow(c, s, out, counted, newly, st, s1, id);
    }
  }

  lemma CountStepRow(c: Config, s: EngineState, out: Converged, counted: map<string, StatusValue>,
                     newly: seq<string>, st: map<string, StatusValue>, s1: EngineState, id: string)
    requires Shaped(c, s) && RoundsRecorded(c, s) && id !in R.SUMMARY_LABELS
    requires CountStep(c, s, out, counted, newly, st, s1)
    requires id in s1.statuses
    ensures 0 <= s1.statuses[id].nbrRound <= s1.nbrRound
    ensures s1.statuses[id].status == Hopeful ==> s1.statuses[id].nbrRound == s1.nbrRound
    ensures s1.statuses[id].status == Elected ==> s1.statuses[id].nbrRound >= 1
    ensures id in s1.tallies
    ensures |s1.tallies[id]| == if s1.statuses[id].status == Defeated then s1.statuses[id].nbrRound else s1.nbrRound
  {
  }

  lemma CountStepFactors(c: Config, s: EngineState, out: Converged, counted: map<string, StatusValue>,
                         newly: seq<string>, st: map<string, StatusValue>, s1: EngineState)
    requires Shaped(c, s) && FactorsFollowStatus(s)
    requires CountStep(c, s, out, counted, newly, st, s1)
    requires out.keepFactors.Keys == s.keepFactors.Keys
    requires forall id | id in s.keepFactors && !(id in c.candidates && id in ElectedSet(c.candidates, s.statuses)) ::
      out.keepFactors[id] == s.keepFactors[id]
    ensures FactorsFollowStatus(s1) && Shaped(c, s1)
  {
  }

  lemma CountStepTotals(c: Config, s: EngineState, out: Converged, counted: map<string, StatusValue>,
                        newly: seq<string>, st: map<string, StatusValue>, s1: EngineState)
    requires ValidConfig(c) && Shaped(c, s) && TotalsConserved(c, s)
    requires CountStep(c, s, out, counted, newly, st, s1)
    requires out.last == CountOnce(ElectionOf(c), ElectedSet(c.candidates, s.statuses), out.keepFactors)
    requires out.keepFactors.Keys == s.keepFactors.Keys
    ensures TotalsConserved(c, s1)
  {
    CountConserves(c.candidates, c.ballots, out.keepFactors);
    assert ":Total votes" in R.SUMMARY_LABELS;
  }

  lemma AfterConvergeInv(c: Config, s: EngineState, out: Converged)
    requires ValidConfig(c) && Inv(c, s)
    requires out.last == CountOnce(ElectionOf(c), ElectedSet(c.candidates, s.statuses), out.keepFactors)
    requires out.keepFactors.Keys == s.keepFactors.Keys
    requires forall id | id in s.keepFactors && !(id in c.candidates && id in ElectedSet(c.candidates, s.statuses)) ::
      out.keepFactors[id] == s.keepFactors[id]
    ensures Inv(c, AfterConverge(c, s, out).state)
    ensures AfterConverge(c, s, out).state.nbrRound == s.nbrRound + 1
  {
    var it := out.last;
    var counted := AfterCount(s.statuses, it.tally.votes, out.keepFactors, s.nbrRound + 1);
    var newly := ReachedQuota(c.candidates, counted, it.tally.votes, it.quota);
    var st := WithStatus(counted, Winners(c.candidates, counted, it.tally.votes, it.quota), Elected);
    var s1 := AfterConverge(c, s, out).state;
    CountStepRounds(c, s, out, counted, newly, st, s1);
    CountStepFactors(c, s, out, counted, newly, st, s1);
    CountStepTotals(c, s, out, counted, newly, st, s1);
  }

  /** Every round keeps the invariant and advances the round number. */
  lemma RoundInv(c: Config, s: EngineState)
    requires ValidConfig(c) && Inv(c, s)
    requires Round(c, s).Ok?
    ensures Inv(c, Round(c, s).value) && Round(c, s).value.nbrRound == s.nbrRound + 1
  {
    ConvergeResult(ElectionOf(c), HopefulSet(c.candidates, s.statuses), ElectedSet(c.candidates, s.statuses),
                   s.keepFactors, 1, None);
    var out := Converge(ElectionOf(c), HopefulSet(c.candidates, s.statuses), ElectedSet(c.candidates, s.statuses),
                        s.keepFactors, 1, None).value;
    AfterConvergeInv(c, s, out);
    var k := AfterConverge(c, s, out);
    DecideInv(c, k.state, k.anyElected);
  }

  /** Deciding a round elects or defeats only hopefuls. */
  lemma DecideKeepsDecided(c: Config, s: EngineState, anyElected: bool, id: string)
    requires Decide(c, s, anyElected).Ok? && id in s.statuses && s.statuses[id].status != Hopeful
    ensures id in Decide(c, s, anyElected).value.statuses
    ensures Decide(c, s, anyElected).value.statuses[id] == s.statuses[id]
  {
  }

  /** A candidate elected or defeated before a round keeps its status, its
      round and its votes: only its keep factor is recorded anew. */
  lemma RoundKeepsDecided(c: Config, s: EngineState, id: string)
    requires c.seats >= 1 && Round(c, s).Ok?
    requires id in s.statuses && s.statuses[id].status != Hopeful
    ensures id in Round(c, s).value.statuses
    ensures Round(c, s).value.statuses[id] == s.statuses[id].(keepFactor := Round(c, s).value.statuses[id].keepFactor)
  {
    var out := Converge(ElectionOf(c), HopefulSet(c.candidates, s.statuses), ElectedSet(c.candidates, s.statuses),
                        s.keepFactors, 1, None).value;
    var k := AfterConverge(c, s, out);
    DecideKeepsDecided(c, k.state, k.anyElected, id);
  }

  /** The tabulation keeps the invariant and ends with no hopefuls. */
  lemma {:induction false} TabulateFromInv(c: Config, s: EngineState)
    requires ValidConfig(c) && Inv(c, s)
    requires TabulateFrom(c, s).Ok?
    ensures Inv(c, TabulateFrom(c, s).value)
    ensures TabulateFrom(c, s).value.nbrRound >= s.nbrRound
    decreases |HopefulSet(c.candidates, s.statuses)|
  {
    if HopefulSet(c.candidates, s.statuses) != {} {
      RoundInv(c, s);
      RoundShrinksHopefuls(c, s);
      TabulateFromInv(c, Round(c, s).value);
    }
  }

  /** The candidates listed by ElectedInOrder are those elected by round n. */
  lemma {:induction false} ElectedInOrderMembers(candidates: seq<string>, statuses: map<string, StatusValue>, n: nat)
    ensures forall id :: id in ElectedInOrder(candidates, statuses, n) <==>
      id in candidates && HasStatus(statuses, id, Elected) && 1 <= statuses[id].nbrRound <= n
  {
    if n > 0 {
      ElectedInOrderMembers(candidates, statuses, n - 1);
    }
  }

  /** What a completed tabulation reports: the elected list holds exactly
      the candidates whose status is elected, every other candidate is
      defeated, every summary row has one entry per round, no candidate
      row is longer, and every round's total votes are the number of
      ballots. */
  predicate Completed(c: Config, r: R.TabulationResults) {
    ElectedListed(c, r) && AllDecided(c, r) && RowsAligned(c, r) && TotalsRecorded(c, r)
  }

  predicate ElectedListed(c: Config, r: R.TabulationResults) {
    (forall id | id in r.elected :: id in c.candidates && HasStatus(r.statuses, id, Elected))
    && (forall id | id in c.candidates && HasStatus(r.statuses, id, Elected) :: id in r.elected)
  }

  predicate AllDecided(c: Config, r: R.TabulationResults) {
    forall id | id in c.candidates :: HasStatus(r.statuses, id, Elected) || HasStatus(r.statuses, id, Defeated)
  }

  function TotalsRow(r: R.TabulationResults): seq<Cell> {
    if ":Total votes" in r.tally then r.tally[":Total votes"] else []
  }

  predicate RowsAligned(c: Config, r: R.TabulationResults) {
    (forall k | k in R.SUMMARY_LABELS :: k in r.tally && |r.tally[k]| == |TotalsRow(r)|)
    && (forall id | id in c.candidates :: id in r.tally && |r.tally[id]| <= |TotalsRow(r)|)
  }

  predicate TotalsRecorded(c: Config, r: R.TabulationResults) {
    forall i | 0 <= i < |TotalsRow(r)| :: TotalsRow(r)[i] == Dec(FromInt(V.TotalMultiple(c.ballots)))
  }

  lemma FinalStateCompleted(c: Config, s: EngineState)
    requires ValidConfig(c) && Inv(c, s) && HopefulSet(c.candidates, s.statuses) == {}
    ensures Completed(c, ResultsOf(c, s))
  {
    var r := ResultsOf(c, s);
    ElectedInOrderMembers(c.candidates, s.statuses, s.nbrRound);
    assert ElectedListed(c, r);
    forall id | id in c.candidates
      ensures HasStatus(s.statuses, id, Elected) || HasStatus(s.statuses, id, Defeated)
    {
      assert id !in HopefulSet(c.candidates, s.statuses);
    }
    assert ":Total votes" in R.SUMMARY_LABELS;
    FinalRows(c, s);
  }

  lemma FinalRows(c: Config, s: EngineState)
    requires Inv(c, s) && ":Total votes" in R.SUMMARY_LABELS
    ensures RowsAligned(c, ResultsOf(c, s)) && TotalsRecorded(c, ResultsOf(c, s))
  {
  }

  lemma TabulateOutcome(c: Config)
    requires ValidConfig(c) && Tabulate(c).Ok?
    ensures Completed(c, Tabulate(c).value)
  {
    InitialInv(c);
    TabulateFromInv(c, Initial(c));
    FinalStateCompleted(c, TabulateFrom(c, Initial(c)).value);
  }

  /** The options a count does not consult: the ballot tree and whether
      votes are always counted. */
  predicate DiffersInUnusedOptions(c: Config, d: Config) {
    d == c.(options := c.options.(ballotTree := d.options.ballotTree, alwaysCountVotes := d.options.alwaysCountVotes))
  }

  lemma RoundIgnoresUnusedOptions(c: Config, d: Config, s: EngineState)
    requires c.seats >= 1 && DiffersInUnusedOptions(c, d)
    ensures Round(d, s) == Round(c, s)
  {
    assert ElectionOf(d) == ElectionOf(c);
    var r := Converge(ElectionOf(c), HopefulSet(c.candidates, s.statuses), ElectedSet(c.candidates, s.statuses),
                      s.keepFactors, 1, None);
    if r.Ok? {
      var k := AfterConverge(c, s, r.value);
      AfterConvergeIgnoresUnusedOptions(c, d, s, r.value);
      DecideIgnoresUnusedOptions(c, d, k.state, k.anyElected);
    }
  }

  lemma AfterConvergeIgnoresUnusedOptions(c: Config, d: Config, s: EngineState, out: Converged)
    requires DiffersInUnusedOptions(c, d)
    ensures AfterConverge(d, s, out) == AfterConverge(c, s, out)
  {
  }

  lemma DecideIgnoresUnusedOptions(c: Config, d: Config, s: EngineState, anyElected: bool)
    requires DiffersInUnusedOptions(c, d)
    ensures Decide(d, s, anyElected) == Decide(c, s, anyElected)
  {
  }

  lemma {:induction false} TabulateFromIgnoresUnusedOptions(c: Config, d: Config, s: EngineState)
    requires c.seats >= 1 && DiffersInUnusedOptions(c, d)
    ensures TabulateFrom(d, s) == TabulateFrom(c, s)
    decreases |HopefulSet(c.candidates, s.statuses)|
  {
    RoundIgnoresUnusedOptions(c, d, s);
    if HopefulSet(c.candidates, s.statuses) != {} && Round(c, s).Ok? {
      RoundShrinksHopefuls(c, s);
      TabulateFromIgnoresUnusedOptions(c, d, Round(c, s).value);
    }
  }

  /** Neither the ballot tree nor always-count-votes changes the outcome. */
  lemma TabulateIgnoresUnusedOptions(c: Config, ballotTree: Option<BallotTreeKind>, alwaysCountVotes: bool)
    requires c.seats >= 1
    ensures Tabulate(c.(options := c.options.(ballotTree := ballotTree, alwaysCountVotes := alwaysCountVotes)))
         == Tabulate(c)
  {
    var d := c.(options := c.options.(ballotTree := ballotTree, alwaysCountVotes := alwaysCountVotes));
    assert Initial(d) == Initial(c);
    TabulateFromIgnoresUnusedOptions(c, d, Initial(c));
  }

  /** The module-level `tabulate(...)`: the inputs validated, then
      tabulated. */
  function TabulateInputs(seats: Js, candidates: Js, ballots: Js, maxRankingLevels: Js, tieBreaker: Js,
                          excluded: Js, protectedList: Js, options: Js): Result<R.TabulationResults>
  {
    var c :- NewTabulation(seats, candidates, ballots, maxRankingLevels, tieBreaker, excluded, protectedList, options);
    Tabulate(c)
  }
}
