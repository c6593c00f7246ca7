/** The `Tabulation` object: the state of a Meek tabulation held in fields
    that its methods update step by step, each method proved to do what
    the matching function of MeekRound or MeekCount says. */
module Meek {
  import opened Wrappers
  import opened Decimal9
  import opened Constants
  import opened Ballots
  import opened JsValues
  import opened Statuses
  import opened MeekCount
  import opened MeekRound
  import V = Validate
  import U = UtilBasic
  import R = Results

  class Tabulation {
    const config: Config
    var statuses: map<string, StatusValue>
    var keepFactors: map<string, Decimal9>
    var tallies: map<string, seq<Cell>>
    var iterTally: IterTally
    var quota: Decimal9
    var totalSurplus: Decimal9
    var nbrRound: nat
    var nbrIteration: nat

    /** The part of the object that carries over from round to round. */
    ghost function State(): EngineState
      reads this
    {
      EngineState(statuses, keepFactors, tallies, nbrRound)
    }

    /** `new Tabulation(...)` with inputs already validated: nothing is
        set up until the tabulation starts. */
    constructor (c: Config)
      requires ValidConfig(c)
      ensures config == c
      ensures statuses == map[] && keepFactors == map[] && tallies == map[]
      ensures iterTally == EmptyTally([]) && quota == ZERO && totalSurplus == ZERO
      ensures nbrRound == 0 && nbrIteration == 0
    {
      config := c;
      statuses := map[];
      keepFactors := map[];
      tallies := map[];
      iterTally := EmptyTally([]);
      quota := ZERO;
      totalSurplus := ZERO;
      nbrRound := 0;
      nbrIteration := 0;
    }

    /** `new Tabulation(...)` on raw inputs: every input validated, the
        first failure reported. */
    static method Create(seats: Js, candidates: Js, ballots: Js, maxRankingLevels: Js, tieBreaker: Js,
                         excluded: Js, protectedList: Js, options: Js) returns (r: Result<Tabulation>)
      ensures var c := NewTabulation(seats, candidates, ballots, maxRankingLevels, tieBreaker, excluded,
                                     protectedList, options);
        (r.Ok? <==> c.Ok?)
        && (r.Ok? ==> fresh(r.value) && r.value.config == c.value && r.value.statuses == map[])
        && (r.Err? ==> r.error == c.error)
    {
      var c := NewTabulation(seats, candidates, ballots, maxRankingLevels, tieBreaker, excluded, protectedList, options);
      if c.Err? {
        return Err(c.error);
      }
      var t := new Tabulation(c.value);
      return Ok(t);
    }

    /** The setup before round 1: a status and a keep factor for every
        candidate, excluded ones defeated, and an empty tally row for every
        candidate and summary label. */
    method Setup()
      requires ValidConfig(config)
      modifies this`statuses, this`keepFactors, this`tallies, this`nbrRound
      ensures State() == Initial(config)
    {
      var st, kf := InitialStatuses();
      statuses := st;
      keepFactors := kf;
      tallies := map k | k in TallyKeys(config) :: [];
      nbrRound := 0;
    }

    /** The statuses and keep factors before round 1, candidate by
        candidate. */
    method InitialStatuses() returns (st: map<string, StatusValue>, kf: map<string, Decimal9>)
      requires ValidConfig(config)
      ensures st == Initial(config).statuses && kf == Initial(config).keepFactors
    {
      st := map[];
      kf := map[];
      var i := 0;
      while i < |config.candidates|
        invariant 0 <= i <= |config.candidates|
        invariant st == map id | id in config.candidates[..i] :: InitialStatus(config, id)
        invariant kf == map id | id in config.candidates[..i] :: InitialStatus(config, id).keepFactor
      {
        var id := config.candidates[i];
        var s: StatusValue;
        if id in config.excluded {
          s := StatusValue(id, None, 0, Defeated, ZERO, Excluded);
        } else {
          s := StatusValue(id, None, 0, Hopeful, ONE, if id in config.protectedSet then Protected else Normal);
        }
        assert config.candidates[..i + 1] == config.candidates[..i] + [id];
        st := st[id := s];
        kf := kf[id := s.keepFactor];
        i := i + 1;
      }
      assert config.candidates[..i] == config.candidates;
    }

    /** `_initIterTally()`: every candidate and exhausted category at zero. */
    method InitIterTally()
      modifies this`iterTally
      ensures iterTally == EmptyTally(config.candidates)
    {
      var votes: map<string, Decimal9> := map[];
      var i := 0;
      while i < |config.candidates|
        invariant 0 <= i <= |config.candidates|
        invariant votes == map c | c in config.candidates[..i] :: ZERO
      {
        votes := votes[config.candidates[i] := ZERO];
        i := i + 1;
      }
      assert config.candidates[..i] == config.candidates;
      iterTally := IterTally(votes, ZERO, ZERO, ZERO);
    }

    /** One ballot's contribution to the count, read ranking by ranking. */
    method DistributeBallot(b: Ballot)
      modifies this`iterTally
      ensures iterTally == Walk(b.rankings, b.multiple, ONE, keepFactors, old(iterTally))
    {
      var codes := b.rankings;
      var m := b.multiple;
      var w := ONE;
      var j := 0;
      var exhausted := false;
      while j < |codes| && !exhausted
        invariant 0 <= j <= |codes|
        invariant !exhausted ==> Walk(codes[j..], m, w, keepFactors, iterTally) == Walk(codes, m, ONE, keepFactors, old(iterTally))
        invariant exhausted ==> iterTally == Walk(codes, m, ONE, keepFactors, old(iterTally))
      {
        var code := codes[j];
        assert codes[j..][1..] == codes[j + 1..];
        if code == OVERVOTE {
          iterTally := iterTally.(overvotes := Plus(iterTally.overvotes, TimesInt(w, m)));
          exhausted := true;
        } else if code in keepFactors {
          var a := Times(w, keepFactors[code], Away);
          iterTally := Credit(iterTally, code, TimesInt(a, m));
          w := Minus(w, a);
        }
        j := j + 1;
      }
      if !exhausted {
        iterTally := iterTally.(abstentions := Plus(iterTally.abstentions, TimesInt(w, m)));
      }
    }

    /** `_distributeVotes()`: every ballot read in turn at full weight. */
    method DistributeVotes()
      modifies this`iterTally
      ensures iterTally == Distribute(config.ballots, keepFactors, old(iterTally))
    {
      var i := 0;
      while i < |config.ballots|
        invariant 0 <= i <= |config.ballots|
        invariant Distribute(config.ballots[i..], keepFactors, iterTally)
               == Distribute(config.ballots, keepFactors, old(iterTally))
      {
        assert config.ballots[i..][1..] == config.ballots[i + 1..];
        DistributeBallot(config.ballots[i]);
        i := i + 1;
      }
    }

    /** `_getTotalSurplus()`: the sum over the elected of votes minus
        quota. */
    method GetTotalSurplus() returns (s: Decimal9)
      ensures s == Surplus(config.candidates, ElectedSet(config.candidates, statuses), iterTally.votes, quota)
    {
      var elected := ElectedSet(config.candidates, statuses);
      s := ZERO;
      var i := 0;
      while i < |config.candidates|
        invariant 0 <= i <= |config.candidates|
        invariant s.scaled + Surplus(config.candidates[i..], elected, iterTally.votes, quota).scaled
               == Surplus(config.candidates, elected, iterTally.votes, quota).scaled
      {
        var c := config.candidates[i];
        assert config.candidates[i..][1..] == config.candidates[i + 1..];
        if c in elected {
          s := Plus(s, Minus(VotesFor(iterTally.votes, c), quota));
        }
        i := i + 1;
      }
    }

    /** `_updateKeepFactors()`: each elected candidate's keep factor times
        the quota over its votes, both rounded away from zero; an elected
        candidate without votes fails the update and leaves the keep
        factors as they were. */
    method UpdateKeepFactors(elected: set<string>) returns (r: Result<()>)
      modifies this`keepFactors
      ensures var u := MeekCount.UpdateKeepFactors(config.candidates, elected, old(keepFactors), iterTally.votes, quota);
        (r.Ok? <==> u.Ok?) && (r.Ok? ==> keepFactors == u.value)
        && (r.Err? ==> r.error == u.error && keepFactors == old(keepFactors))
    {
      var kf := keepFactors;
      var i := 0;
      while i < |config.candidates|
        invariant 0 <= i <= |config.candidates|
        invariant kf.Keys == keepFactors.Keys
        invariant !ZeroElected(config.candidates[..i], elected, keepFactors, iterTally.votes)
        invariant forall c | c in kf :: kf[c] == if c in config.candidates[..i] && c in elected
          then NextKeepFactor(keepFactors[c], quota, VotesFor(iterTally.votes, c)).value else keepFactors[c]
      {
        var c := config.candidates[i];
        if c in elected && c in kf {
          var p := Times(keepFactors[c], quota, Away);
          var n := DivideBy(p, VotesFor(iterTally.votes, c), Away);
          if n.Err? {
            assert ZeroElected(config.candidates, elected, keepFactors, iterTally.votes) by {
              assert c in config.candidates;
            }
            return Err(n.error);
          }
          kf := kf[c := n.value];
        }
        i := i + 1;
      }
      assert config.candidates[..i] == config.candidates;
      keepFactors := kf;
      r := Ok(());
    }

    /** One count of an iteration: every ballot distributed afresh with
        the current keep factors, then the quota and the total surplus of
        the `elected` candidates. */
    method Count(elected: set<string>)
      requires config.seats >= 1
      modifies this`iterTally, this`quota, this`totalSurplus
      ensures Iteration(iterTally, quota, totalSurplus) == CountOnce(ElectionOf(config), elected, keepFactors)
    {
      InitIterTally();
      DistributeVotes();
      quota := Quota(VotesForCandidates(config.candidates, iterTally), config.seats);
      totalSurplus := Surplus(config.candidates, elected, iterTally.votes, quota);
    }

    /** One iteration: a count, and unless the count has settled, the
        update of the keep factors. `Ok(true)` means the count has settled
        and the keep factors stay; `Ok(false)` and an error are the
        outcomes of the update. */
    method IterationStep(hopeful: set<string>, elected: set<string>, previous: Option<Decimal9>) returns (r: Result<bool>)
      requires config.seats >= 1
      modifies this`keepFactors, this`iterTally, this`quota, this`totalSurplus
      ensures Iteration(iterTally, quota, totalSurplus) == CountOnce(ElectionOf(config), elected, old(keepFactors))
      ensures r.Ok? && r.value <==> Settled(config.candidates, hopeful, Iteration(iterTally, quota, totalSurplus), previous)
      ensures r.Ok? && r.value ==> keepFactors == old(keepFactors)
      ensures !(r.Ok? && r.value) ==>
        var u := MeekCount.UpdateKeepFactors(config.candidates, elected, old(keepFactors), iterTally.votes, quota);
        (r.Ok? <==> u.Ok?) && (r.Ok? ==> keepFactors == u.value) && (r.Err? ==> r.error == u.error)
    {
      Count(elected);
      if Settled(config.candidates, hopeful, Iteration(iterTally, quota, totalSurplus), previous) {
        return Ok(true);
      }
      var u := UpdateKeepFactors(elected);
      if u.Err? {
        return Err(u.error);
      }
      return Ok(false);
    }

    /** The iterations of a round: count, quota and surplus, repeated with
        updated keep factors until the count settles. */
    method Iterate() returns (r: Result<()>)
      requires config.seats >= 1
      modifies this`keepFactors, this`iterTally, this`quota, this`totalSurplus, this`nbrIteration
      ensures var e := Converge(ElectionOf(config), HopefulSet(config.candidates, statuses),
                                ElectedSet(config.candidates, statuses), old(keepFactors), 1, None);
        (r.Ok? ==> e == Ok(Converged(Iteration(iterTally, quota, totalSurplus), keepFactors, nbrIteration)))
        && (r.Err? ==> e == Err(r.error))
    {
      ghost var e := ElectionOf(config);
      var hopeful := HopefulSet(config.candidates, statuses);
      var elected := ElectedSet(config.candidates, statuses);
      var previous: Option<Decimal9> := None;
      ghost var target := Converge(e, hopeful, elected, keepFactors, 1, None);
      nbrIteration := 1;
      while true
        invariant Converge(e, hopeful, elected, keepFactors, nbrIteration, previous) == target
        decreases if previous.None? then 1 else 0, if previous.Some? && previous.value.scaled > 0 then previous.value.scaled else 0
      {
        ghost var kf := keepFactors;
        var step := IterationStep(hopeful, elected, previous);
        IterationStepConverges(e, hopeful, elected, kf, nbrIteration, previous,
                               Iteration(iterTally, quota, totalSurplus), step, keepFactors);
        if step.Ok? && step.value {
          return Ok(());
        }
        if step.Err? {
          return Err(step.error);
        }
        previous := Some(totalSurplus);
        nbrIteration := nbrIteration + 1;
      }
    }

    /** The status update after a round's count. */
    method UpdateStatuses()
      requires ValidConfig(config) && statuses.Keys == (set id | id in config.candidates)
      modifies this`statuses
      ensures statuses == AfterCount(old(statuses), iterTally.votes, keepFactors, nbrRound)
    {
      var cands := config.candidates;
      var votes := iterTally.votes;
      var kfs := keepFactors;
      var round := nbrRound;
      var st0 := statuses;
      var st := statuses;
      var i := 0;
      while i < |cands|
        invariant 0 <= i <= |cands|
        invariant st.Keys == st0.Keys
        invariant forall id | id in st :: st[id] == if id in cands[..i]
          then Recount(st0[id], VotesFor(votes, id), if id in kfs then kfs[id] else st0[id].keepFactor, round)
          else st0[id]
      {
        var id := cands[i];
        assert id !in cands[..i] by { DistinctAt(cands, i); }
        var s := st[id];
        var kf := if id in kfs then kfs[id] else s.keepFactor;
        var v := VotesFor(votes, id);
        s := s.(keepFactor := kf);
        if s.status == Hopeful {
          s := s.(votes := Some(v), nbrRound := round);
        }
        st := st[id := s];
        i := i + 1;
      }
      assert cands[..i] == cands;
      statuses := st;
    }

    /** The hopefuls whose count has reached the quota. */
    method QuotaWinners() returns (ids: set<string>)
      ensures ids == Winners(config.candidates, statuses, iterTally.votes, quota)
    {
      ids := {};
      var i := 0;
      while i < |config.candidates|
        invariant 0 <= i <= |config.candidates|
        invariant ids == set id | id in config.candidates[..i] && HasStatus(statuses, id, Hopeful)
                                  && VotesFor(iterTally.votes, id).scaled >= quota.scaled
      {
        var id := config.candidates[i];
        if id in statuses && statuses[id].status == Hopeful && VotesFor(iterTally.votes, id).scaled >= quota.scaled {
          ids := ids + {id};
        }
        i := i + 1;
      }
      assert config.candidates[..i] == config.candidates;
    }

    /** `_electCandidates(ids)`: their status becomes elected; nothing
        else changes. */
    method ElectCandidates(ids: set<string>)
      modifies this`statuses
      ensures statuses == WithStatus(old(statuses), ids, Elected)
    {
      var rest := ids;
      while rest != {}
        invariant rest <= ids
        invariant statuses == WithStatus(old(statuses), ids - rest, Elected)
        decreases |rest|
      {
        var id :| id in rest;
        if id in statuses {
          statuses := statuses[id := statuses[id].(status := Elected)];
        }
        rest := rest - {id};
      }
    }

    /** `_defeatCandidates(ids)`: their status becomes defeated and their
        working keep factor ZERO; nothing else changes. */
    method DefeatCandidates(ids: set<string>)
      modifies this`statuses, this`keepFactors
      ensures statuses == WithStatus(old(statuses), ids, Defeated)
      ensures keepFactors == ZeroFactors(old(keepFactors), ids)
    {
      var rest := ids;
      while rest != {}
        invariant rest <= ids
        invariant statuses == WithStatus(old(statuses), ids - rest, Defeated)
        invariant keepFactors == ZeroFactors(old(keepFactors), ids - rest)
        decreases |rest|
      {
        var id :| id in rest;
        if id in statuses {
          statuses := statuses[id := statuses[id].(status := Defeated)];
        }
        if id in keepFactors {
          keepFactors := keepFactors[id := ZERO];
        }
        rest := rest - {id};
      }
    }

    /** `_resolveTie(tied)`: the tied candidate earliest in the
        tie-breaker. */
    method ResolveTie(tied: set<string>) returns (r: Result<string>)
      requires tied != {}
      ensures r.Err? <==> exists id | id in tied :: id !in config.tieBreaker
      ensures r.Err? ==> r == V.MeekError(ERR_TIE_NOT_IN_TIE_BREAKER)
      ensures r.Ok? ==> r.value in tied && r.value in config.tieBreaker
                        && forall id | id in tied :: config.tieBreaker[r.value] <= config.tieBreaker[id]
    {
      var tb := config.tieBreaker;
      var rest := tied;
      var best: Option<string> := None;
      while rest != {}
        invariant rest <= tied
        invariant forall id | id in tied - rest :: id in tb
        invariant best.None? ==> rest == tied
        invariant best.Some? ==> best.value in tied - rest && forall id | id in tied - rest :: tb[best.value] <= tb[id]
        decreases |rest|
      {
        var id :| id in rest;
        if id !in tb {
          return V.MeekError(ERR_TIE_NOT_IN_TIE_BREAKER);
        }
        if best.None? || tb[id] < tb[best.value] {
          best := Some(id);
        }
        rest := rest - {id};
      }
      return Ok(best.value);
    }

    /** `_getSingleDefeatCandidate()`: a singleton holding the candidate of
        the defeat pool with the fewest votes, ties resolved by the
        tie-breaker. */
    method GetSingleDefeatCandidate() returns (r: Result<set<string>>)
      requires ValidConfig(config) && Hopefuls(config.candidates, statuses) != []
      ensures var d := SingleDefeatCandidate(config.candidates, statuses, config.tieBreaker);
        (r.Ok? <==> d.Ok?) && (r.Ok? ==> r.value == {d.value}) && (r.Err? ==> r.error == d.error)
    {
      var cands, st, tb := config.candidates, statuses, config.tieBreaker;
      var tied := TiedCandidates();
      SingleDefeatOfTiedSet(cands, st, tb, tied);
      var d := SingleDefeatCandidate(cands, st, tb);
      if |tied| == 1 {
        var id :| id in tied;
        return Ok({id});
      }
      var w := ResolveTie(tied);
      if w.Err? {
        return Err(w.error);
      }
      TieWinnerUnique(tied, tb, w.value, d.value);
      return Ok({w.value});
    }

    /** The candidates of the defeat pool with its fewest votes. */
    method TiedCandidates() returns (tied: set<string>)
      requires Hopefuls(config.candidates, statuses) != []
      ensures tied == set id | id in TiedAtLowest(config.candidates, statuses)
    {
      var pool := DefeatPool(config.candidates, statuses);
      var low := Lowest(pool);
      tied := set id | id in pool && RecordedVotes(statuses, id) == low;
    }

    /** The fewest votes recorded among `pool`, found by one pass. */
    method Lowest(pool: seq<string>) returns (low: Decimal9)
      requires pool != []
      ensures low == LowestVotes(pool, statuses)
    {
      low := RecordedVotes(statuses, pool[0]);
      var i := 1;
      while i < |pool|
        invariant 1 <= i <= |pool|
        invariant exists j | 0 <= j < i :: RecordedVotes(statuses, pool[j]) == low
        invariant forall j | 0 <= j < i :: low.scaled <= RecordedVotes(statuses, pool[j]).scaled
      {
        var v := RecordedVotes(statuses, pool[i]);
        if v.scaled < low.scaled {
          low := v;
        }
        i := i + 1;
      }
      var lowest := LowestVotes(pool, statuses);
      assert low.scaled <= lowest.scaled && lowest.scaled <= low.scaled;
    }

    /** `_hopefulVotes()`: the hopeful candidates and their votes. */
    method HopefulVotes() returns (m: map<string, Option<Decimal9>>)
      ensures m == MeekRound.HopefulVotes(config.candidates, statuses)
    {
      m := map[];
      var i := 0;
      while i < |config.candidates|
        invariant 0 <= i <= |config.candidates|
        invariant m == map id | id in config.candidates[..i] && HasStatus(statuses, id, Hopeful) :: statuses[id].votes
      {
        var id := config.candidates[i];
        if id in statuses && statuses[id].status == Hopeful {
          m := m[id := statuses[id].votes];
        }
        i := i + 1;
      }
      assert config.candidates[..i] == config.candidates;
    }

    /** The tally entries of a round, row by row. */
    method AppendTally(before: map<string, StatusValue>, it: Iteration, iterations: nat)
      modifies this`tallies
      ensures tallies == AppendRound(config.candidates, before, old(tallies), it, totalSurplus, iterations)
    {
      var t := tallies;
      var rest := tallies.Keys;
      while rest != {}
        invariant rest <= tallies.Keys && t.Keys == tallies.Keys
        invariant forall k | k in t :: t[k] == if k in rest then tallies[k]
          else RowAfterRound(k, tallies[k], config.candidates, before, it, totalSurplus, iterations)
        decreases |rest|
      {
        var k :| k in rest;
        t := t[k := RowAfterRound(k, tallies[k], config.candidates, before, it, totalSurplus, iterations)];
        rest := rest - {k};
      }
      tallies := t;
    }

    /** The decision that ends a round: defeat the remaining hopefuls once
        the seats are filled, elect them all when they no longer outnumber
        the seats left, stop when the round elected somebody, and
        otherwise defeat the single lowest candidate. */
    method Decide(anyElected: bool) returns (r: Result<()>)
      requires ValidConfig(config)
      modifies this`statuses, this`keepFactors
      ensures var d := MeekRound.Decide(config, old(State()), anyElected);
        (r.Ok? <==> d.Ok?) && (r.Ok? ==> State() == d.value) && (r.Err? ==> r.error == d.error)
    {
      var hopefuls := Hopefuls(config.candidates, statuses);
      var nElected := |ElectedSet(config.candidates, statuses)|;
      if nElected >= config.seats {
        DefeatCandidates(set id | id in hopefuls);
        return Ok(());
      }
      if |hopefuls| <= config.seats - nElected {
        ElectCandidates(set id | id in hopefuls);
        return Ok(());
      }
      if anyElected {
        return Ok(());
      }
      if AltDefsTooShort(config.options, nbrRound) {
        return V.MeekError(ERR_ALTDEFS_TOO_SHORT);
      }
      var d := GetSingleDefeatCandidate();
      if d.Err? {
        return Err(d.error);
      }
      DefeatCandidates(d.value);
      return Ok(());
    }

    /** One round: the iterations, then the status update, the election
        of the quota winners and the round's tally entries, then the
        decision. */
    method RunRound() returns (r: Result<()>)
      requires ValidConfig(config) && Shaped(config, State())
      modifies this
      ensures var e := Round(config, old(State()));
        (r.Ok? <==> e.Ok?) && (r.Ok? ==> State() == e.value) && (r.Err? ==> r.error == e.error)
    {
      ghost var s := State();
      nbrRound := nbrRound + 1;
      var res := Iterate();
      assert statuses == s.statuses;
      assert tallies == s.tallies;
      assert nbrRound == s.nbrRound + 1;
      if res.Err? {
        return Err(res.error);
      }
      ghost var out := Converged(Iteration(iterTally, quota, totalSurplus), keepFactors, nbrIteration);
      r := Conclude(s, out);
    }

    /** The end of round `s.nbrRound + 1` once its iterations have ended
        with `out`: the status update and tally entries, then the decision. */
    method Conclude(ghost s: EngineState, ghost out: Converged) returns (r: Result<()>)
      requires ValidConfig(config) && Shaped(config, s)
      requires s.statuses == statuses && s.tallies == tallies && nbrRound == s.nbrRound + 1
      requires out == Converged(Iteration(iterTally, quota, totalSurplus), keepFactors, nbrIteration)
      requires Converge(ElectionOf(config), HopefulSet(config.candidates, s.statuses), ElectedSet(config.candidates, s.statuses),
                        s.keepFactors, 1, None) == Ok(out)
      modifies this`statuses, this`keepFactors, this`tallies, this`totalSurplus
      ensures var e := Round(config, s);
        (r.Ok? <==> e.Ok?) && (r.Ok? ==> State() == e.value) && (r.Err? ==> r.error == e.error)
    {
      RoundOfConverged(config, s, out);
      var anyElected := FinishRound(s, out);
      r := Decide(anyElected);
    }

    /** The status update, the election of the quota winners and the
        round's tally entries, once the iterations of round `s.nbrRound + 1`
        have ended with `out`. */
    method FinishRound(ghost s: EngineState, ghost out: Converged) returns (anyElected: bool)
      requires ValidConfig(config) && Shaped(config, s)
      requires s.statuses == statuses && s.tallies == tallies && nbrRound == s.nbrRound + 1
      requires out == Converged(Iteration(iterTally, quota, totalSurplus), keepFactors, nbrIteration)
      modifies this`statuses, this`tallies, this`totalSurplus
      ensures State() == AfterConverge(config, s, out).state && anyElected == AfterConverge(config, s, out).anyElected
    {
      var before := statuses;
      var it := Iteration(iterTally, quota, totalSurplus);
      var iterations := nbrIteration;
      assert it == out.last && iterations == out.iterations;
      UpdateStatuses();
      ghost var counted := statuses;
      var newly := QuotaWinners();
      ElectCandidates(newly);
      ghost var st := statuses;
      var surplus := GetTotalSurplus();
      totalSurplus := surplus;
      AppendTally(before, it, iterations);
      anyElected := newly != {};
      AfterConvergeParts(config, s, out, counted, newly, st, tallies, anyElected);
    }

    /** `tabulate()`: the setup, then one round after another until no
        candidate is hopeful; the results list the elected, the statuses
        and the tally. */
    method Tabulate() returns (r: Result<R.TabulationResults>)
      requires ValidConfig(config)
      modifies this
      ensures r == MeekRound.Tabulate(config)
    {
      Setup();
      InitialInv(config);
      while HopefulSet(config.candidates, statuses) != {}
        invariant Inv(config, State())
        invariant TabulateFrom(config, State()) == TabulateFrom(config, Initial(config))
        decreases |HopefulSet(config.candidates, statuses)|
      {
        ghost var s := State();
        var res := RunRound();
        if res.Err? {
          return Err(res.error);
        }
        RoundInv(config, s);
        RoundShrinksHopefuls(config, s);
      }
      var elected := ElectedInOrder(config.candidates, statuses, nbrRound);
      return Ok(R.TabulationResults(elected, config.candidates, statuses, TallyKeys(config), tallies));
    }
  }

  /** The module-level `tabulate(...)`: a new tabulation on the raw
      inputs, tabulated. */
  method Tabulate(seats: Js, candidates: Js, ballots: Js, maxRankingLevels: Js, tieBreaker: Js,
                  excluded: Js, protectedList: Js, options: Js) returns (r: Result<R.TabulationResults>)
    ensures r == TabulateInputs(seats, candidates, ballots, maxRankingLevels, tieBreaker, excluded, protectedList, options)
  {
    var t :- Tabulation.Create(seats, candidates, ballots, maxRankingLevels, tieBreaker, excluded, protectedList, options);
    r := t.Tabulate();
  }

  /** What `IterationStep` promises decides where the iterations go: a
      settled count ends them, a failed update fails them, and otherwise
      they go on from the updated keep factors with a smaller surplus. */
  lemma IterationStepConverges(e: Election, hopeful: set<string>, elected: set<string>, kf: map<string, Decimal9>,
                               iteration: nat, previous: Option<Decimal9>, it: Iteration, step: Result<bool>,
                               kf': map<string, Decimal9>)
    requires e.seats >= 1 && it == CountOnce(e, elected, kf)
    requires step.Ok? && step.value <==> Settled(e.candidates, hopeful, it, previous)
    requires step.Ok? && step.value ==> kf' == kf
    requires !(step.Ok? && step.value) ==>
      var u := MeekCount.UpdateKeepFactors(e.candidates, elected, kf, it.tally.votes, it.quota);
      (step.Ok? <==> u.Ok?) && (step.Ok? ==> kf' == u.value) && (step.Err? ==> step.error == u.error)
    ensures step.Ok? && step.value ==> Converge(e, hopeful, elected, kf, iteration, previous) == Ok(Converged(it, kf', iteration))
    ensures step.Ok? && !step.value ==>
      Converge(e, hopeful, elected, kf, iteration, previous) == Converge(e, hopeful, elected, kf', iteration + 1, Some(it.surplus))
      && it.surplus.scaled >= OMEGA.scaled && (previous.Some? ==> it.surplus.scaled < previous.value.scaled)
    ensures step.Err? ==> Converge(e, hopeful, elected, kf, iteration, previous) == Err(step.error)
  {
    if step.Ok? && step.value {
      ConvergeSettled(e, hopeful, elected, kf, iteration, previous, it);
    } else {
      ConvergeStep(e, hopeful, elected, kf, iteration, previous);
    }
  }

  /** The candidates before index i do not include the one at i. */
  lemma DistinctAt(ids: seq<string>, i: nat)
    requires U.Distinct(ids) && i < |ids|
    ensures ids[i] !in ids[..i]
  {
  }
}
