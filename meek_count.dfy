/** One count of Meek's method (Algorithm 123 of Hill, Wichmann and
    Woodall, The Computer Journal 30(3), 1987): the walk of every ballot
    down its rankings under the current keep factors, the quota, the total
    surplus, the keep factor update and the iteration of these until the
    count settles. */
module MeekCount {
  import opened Wrappers
  import opened Decimal9
  import opened Constants
  import opened Ballots
  import opened Digits
  import U = UtilBasic
  import V = Validate

  /** The counts of one iteration: each candidate's votes and the three
      exhausted categories. */
  datatype IterTally = IterTally(
    votes: map<string, Decimal9>,
    overvotes: Decimal9,
    abstentions: Decimal9,
    otherExhausted: Decimal9)

  /** A candidate's count; a candidate no ballot has reached has none. */
  function VotesFor(votes: map<string, Decimal9>, c: string): Decimal9 {
    if c in votes then votes[c] else ZERO
  }

  /** The tally before any ballot is read: every candidate at zero. */
  function EmptyTally(candidates: seq<string>): (t: IterTally)
    ensures t.votes.Keys == set c | c in candidates
    ensures forall c | c in t.votes :: t.votes[c] == ZERO
    ensures t.overvotes == ZERO && t.abstentions == ZERO && t.otherExhausted == ZERO
  {
    IterTally(map c | c in candidates :: ZERO, ZERO, ZERO, ZERO)
  }

  /** The scaled sum of the candidates' counts. */
  function SumVotes(candidates: seq<string>, votes: map<string, Decimal9>): int {
    if candidates == [] then 0
    else VotesFor(votes, candidates[0]).scaled + SumVotes(candidates[1..], votes)
  }

  /** The `:Votes for candidates` row. */
  function VotesForCandidates(candidates: seq<string>, t: IterTally): Decimal9 {
    Decimal9(SumVotes(candidates, t.votes))
  }

  /** The `:Total votes` row: the votes for candidates and the three
      exhausted categories together. */
  function TotalVotes(candidates: seq<string>, t: IterTally): Decimal9 {
    Decimal9(SumVotes(candidates, t.votes) + t.overvotes.scaled + t.abstentions.scaled
             + t.otherExhausted.scaled)
  }

  // ---------------------------------------------------------------------
  // Distributing the ballots
  // ---------------------------------------------------------------------

  /** Adds x to candidate c's count. */
  function Credit(t: IterTally, c: string, x: Decimal9): IterTally {
    t.(votes := t.votes[c := Plus(VotesFor(t.votes, c), x)])
  }

  /** Reads `m` identical ballots whose remaining weight is w: an overvote
      exhausts the weight, an undervote is passed over, a candidate keeps
      the share w * keep factor (rounded away from zero) and passes the
      rest on, and whatever weight is left when the rankings end is an
      abstention. */
  function Walk(codes: seq<string>, m: int, w: Decimal9, kf: map<string, Decimal9>, t: IterTally): IterTally
  {
    if codes == [] then t.(abstentions := Plus(t.abstentions, TimesInt(w, m)))
    else if codes[0] == OVERVOTE then t.(overvotes := Plus(t.overvotes, TimesInt(w, m)))
    else if codes[0] !in kf then Walk(codes[1..], m, w, kf, t)
    else
      var a := Times(w, kf[codes[0]], Away);
      Walk(codes[1..], m, Minus(w, a), kf, Credit(t, codes[0], TimesInt(a, m)))
  }

  /** Reads the ballots one after the other, each starting at weight ONE. */
  function Distribute(ballots: seq<Ballot>, kf: map<string, Decimal9>, t: IterTally): IterTally
  {
    if ballots == [] then t
    else Distribute(ballots[1..], kf, Walk(ballots[0].rankings, ballots[0].multiple, ONE, kf, t))
  }

  /** The count of one iteration. */
  function CountVotes(candidates: seq<string>, ballots: seq<Ballot>, kf: map<string, Decimal9>): IterTally {
    Distribute(ballots, kf, EmptyTally(candidates))
  }

  /** Every key of m is a candidate. */
  predicate KeysAmong<V>(m: map<string, V>, candidates: seq<string>) {
    forall c | c in m :: c in candidates
  }

  /** Crediting a candidate adds to the sum of the counts exactly once;
      crediting anyone else leaves it alone. */
  lemma {:induction false} SumCredit(candidates: seq<string>, votes: map<string, Decimal9>, c: string, x: Decimal9)
    requires U.Distinct(candidates)
    ensures SumVotes(candidates, votes[c := Plus(VotesFor(votes, c), x)])
            == SumVotes(candidates, votes) + (if c in candidates then x.scaled else 0)
  {
    if candidates != [] {
      assert U.Distinct(candidates[1..]) by {
        forall i, j | 0 <= i < j < |candidates[1..]| ensures candidates[1..][i] != candidates[1..][j] {
          assert candidates[1..][i] == candidates[i + 1] && candidates[1..][j] == candidates[j + 1];
        }
      }
      SumCredit(candidates[1..], votes, c, x);
      if c == candidates[0] {
        assert c !in candidates[1..] by {
          forall i | 0 <= i < |candidates[1..]| ensures candidates[1..][i] != c {
            assert candidates[1..][i] == candidates[i + 1];
          }
        }
      }
    }
  }

  /** Reading a ballot neither creates nor loses weight: the m * w it
      starts with ends up in the candidates' counts and the exhausted
      categories. */
  lemma {:induction false} WalkConserves(candidates: seq<string>, codes: seq<string>, m: int, w: Decimal9,
                                         kf: map<string, Decimal9>, t: IterTally)
    requires U.Distinct(candidates) && KeysAmong(kf, candidates)
    ensures TotalVotes(candidates, Walk(codes, m, w, kf, t)).scaled == TotalVotes(candidates, t).scaled + m * w.scaled
    decreases |codes|
  {
    if codes == [] || codes[0] == OVERVOTE {
    } else if codes[0] !in kf {
      WalkConserves(candidates, codes[1..], m, w, kf, t);
    } else {
      var a := Times(w, kf[codes[0]], Away);
      var t' := Credit(t, codes[0], TimesInt(a, m));
      SumCredit(candidates, t.votes, codes[0], TimesInt(a, m));
      WalkConserves(candidates, codes[1..], m, Minus(w, a), kf, t');
      ShareSplit(m, w.scaled, a.scaled);
    }
  }

  lemma ShareSplit(m: int, w: int, a: int)
    ensures a * m + m * (w - a) == m * w
  {
  }

  /** Reading all the ballots adds one whole vote per voter. */
  lemma {:induction false} DistributeConserves(candidates: seq<string>, ballots: seq<Ballot>,
                                               kf: map<string, Decimal9>, t: IterTally)
    requires U.Distinct(candidates) && KeysAmong(kf, candidates)
    ensures TotalVotes(candidates, Distribute(ballots, kf, t)).scaled
            == TotalVotes(candidates, t).scaled + V.TotalMultiple(ballots) * SCALE
  {
    if ballots != [] {
      var b := ballots[0];
      WalkConserves(candidates, b.rankings, b.multiple, ONE, kf, t);
      DistributeConserves(candidates, ballots[1..], kf, Walk(b.rankings, b.multiple, ONE, kf, t));
      assert b.multiple * SCALE + V.TotalMultiple(ballots[1..]) * SCALE == V.TotalMultiple(ballots) * SCALE;
    }
  }

  /** In every iteration the votes for candidates, the overvotes, the
      abstentions and the other exhausted votes add up to the number of
      voters. */
  lemma CountConserves(candidates: seq<string>, ballots: seq<Ballot>, kf: map<string, Decimal9>)
    requires U.Distinct(candidates) && KeysAmong(kf, candidates)
    ensures TotalVotes(candidates, CountVotes(candidates, ballots, kf)) == FromInt(V.TotalMultiple(ballots))
  {
    var t0 := EmptyTally(candidates);
    assert SumVotes(candidates, t0.votes) == 0 by { SumOfZeros(candidates, t0.votes); }
    DistributeConserves(candidates, ballots, kf, t0);
  }

  lemma {:induction false} SumOfZeros(candidates: seq<string>, votes: map<string, Decimal9>)
    requires forall c | c in votes :: votes[c] == ZERO
    ensures SumVotes(candidates, votes) == 0
  {
    if candidates != [] {
      SumOfZeros(candidates[1..], votes);
    }
  }

  /** No ballot is ever counted as "other exhausted". */
  lemma {:induction false} DistributeKeepsOtherExhausted(ballots: seq<Ballot>, kf: map<string, Decimal9>, t: IterTally)
    ensures Distribute(ballots, kf, t).otherExhausted == t.otherExhausted
  {
    if ballots != [] {
      WalkKeepsOtherExhausted(ballots[0].rankings, ballots[0].multiple, ONE, kf, t);
      DistributeKeepsOtherExhausted(ballots[1..], kf, Walk(ballots[0].rankings, ballots[0].multiple, ONE, kf, t));
    }
  }

  lemma {:induction false} WalkKeepsOtherExhausted(codes: seq<string>, m: int, w: Decimal9,
                                                   kf: map<string, Decimal9>, t: IterTally)
    ensures Walk(codes, m, w, kf, t).otherExhausted == t.otherExhausted
    decreases |codes|
  {
    if codes != [] && codes[0] != OVERVOTE {
      if codes[0] !in kf {
        WalkKeepsOtherExhausted(codes[1..], m, w, kf, t);
      } else {
        var a := Times(w, kf[codes[0]], Away);
        WalkKeepsOtherExhausted(codes[1..], m, Minus(w, a), kf, Credit(t, codes[0], TimesInt(a, m)));
      }
    }
  }

  /** Keep factors between zero and one. */
  predicate FactorsInRange(kf: map<string, Decimal9>) {
    forall c | c in kf :: 0 <= kf[c].scaled <= SCALE
  }

  /** No count is negative. */
  predicate NonNegative(t: IterTally) {
    (forall c | c in t.votes :: t.votes[c].scaled >= 0)
    && t.overvotes.scaled >= 0 && t.abstentions.scaled >= 0 && t.otherExhausted.scaled >= 0
  }

  /** A share w * k rounded away from zero, with 0 <= k <= 1, lies between
      zero and w. */
  lemma ShareBounds(w: Decimal9, k: Decimal9)
    requires w.scaled >= 0 && 0 <= k.scaled <= SCALE
    ensures 0 <= Times(w, k, Away).scaled <= w.scaled
  {
    AwayShare(w.scaled, k.scaled, w.scaled * k.scaled, Times(w, k, Away).scaled);
  }

  lemma AwayShare(w: int, k: int, n: int, a: int)
    requires w >= 0 && 0 <= k <= SCALE && n == w * k
    requires RoundedBy(n, SCALE, Away, a)
    ensures 0 <= a <= w
  {
    if w > 0 {
      MulPositive(w, k);
      ScaledCompare(w, k, SCALE);
    }
    assert 0 <= n <= w * SCALE;
    assert n <= a * SCALE < n + SCALE;
  }

  /** Crediting a share that is not negative keeps every count non-negative. */
  lemma CreditNonNegative(t: IterTally, c: string, x: Decimal9)
    requires NonNegative(t) && x.scaled >= 0
    ensures NonNegative(Credit(t, c, x))
  {
  }

  lemma {:induction false} WalkNonNegative(codes: seq<string>, m: int, w: Decimal9, kf: map<string, Decimal9>, t: IterTally)
    requires m >= 0 && w.scaled >= 0 && FactorsInRange(kf) && NonNegative(t)
    ensures NonNegative(Walk(codes, m, w, kf, t))
    decreases |codes|
  {
    if codes == [] || codes[0] == OVERVOTE {
      MulNonNegative(w.scaled, m);
    } else if codes[0] !in kf {
      WalkNonNegative(codes[1..], m, w, kf, t);
    } else {
      var a := Times(w, kf[codes[0]], Away);
      ShareBounds(w, kf[codes[0]]);
      MulNonNegative(a.scaled, m);
      CreditNonNegative(t, codes[0], TimesInt(a, m));
      WalkNonNegative(codes[1..], m, Minus(w, a), kf, Credit(t, codes[0], TimesInt(a, m)));
    }
  }

  lemma MulNonNegative(x: int, y: int)
    requires x >= 0 && y >= 0
    ensures x * y >= 0
  {
  }

  /** With keep factors between zero and one and positive multiples, no
      candidate and no exhausted category ever has a negative count. */
  lemma {:induction false} DistributeNonNegative(ballots: seq<Ballot>, kf: map<string, Decimal9>, t: IterTally)
    requires FactorsInRange(kf) && NonNegative(t)
    requires forall i | 0 <= i < |ballots| :: ballots[i].multiple >= 0
    ensures NonNegative(Distribute(ballots, kf, t))
  {
    if ballots != [] {
      WalkNonNegative(ballots[0].rankings, ballots[0].multiple, ONE, kf, t);
      DistributeNonNegative(ballots[1..], kf, Walk(ballots[0].rankings, ballots[0].multiple, ONE, kf, t));
    }
  }

  // ---------------------------------------------------------------------
  // Quota and surplus
  // ---------------------------------------------------------------------

  /** The quota: the votes for candidates divided by one more than the
      number of seats, truncated, plus one unit. */
  function Quota(vfc: Decimal9, seats: nat): (q: Decimal9)
    requires seats >= 1
  {
    var d := DivideByInt(vfc, seats + 1, Truncate);
    assert FromInt(seats + 1).scaled != 0;
    Plus(d.value, ULP)
  }

  /** The quota is the smallest value that seats + 1 candidates cannot all
      reach: seats + 1 quotas exceed the votes, and seats + 1 quotas less
      one unit each do not. */
  lemma QuotaBounds(vfc: Decimal9, seats: nat)
    requires seats >= 1 && vfc.scaled >= 0
    ensures var q := Quota(vfc, seats);
      (seats + 1) * (q.scaled - 1) <= vfc.scaled < (seats + 1) * q.scaled
  {
    var d := DivideByInt(vfc, seats + 1, Truncate);
    assert FromInt(seats + 1).scaled != 0;
    ValueConstants();
    TruncatedQuotient(vfc.scaled, seats + 1, d.value.scaled);
  }

  /** A truncated quotient d of v >= 0 by k: k * d <= v < k * (d + 1). */
  lemma TruncatedQuotient(v: int, k: int, d: int)
    requires v >= 0 && k >= 1 && RoundedBy(v, k, Truncate, d)
    ensures k * d <= v < k * (d + 1)
  {
    assert d * k == k * d;
    assert k * (d + 1) == k * d + k;
  }

  /** The scaled votes of the candidates in `group`. */
  function GroupVotes(candidates: seq<string>, group: set<string>, votes: map<string, Decimal9>): int {
    if candidates == [] then 0
    else (if candidates[0] in group then VotesFor(votes, candidates[0]).scaled else 0)
         + GroupVotes(candidates[1..], group, votes)
  }

  /** The number of candidates in `group`. */
  function GroupSize(candidates: seq<string>, group: set<string>): nat {
    if candidates == [] then 0
    else (if candidates[0] in group then 1 else 0) + GroupSize(candidates[1..], group)
  }

  /** When no count is negative, the votes of a group of candidates each
      at or above q are at most the votes for all candidates and at least
      q times the size of the group. */
  lemma {:induction false} GroupBounds(candidates: seq<string>, group: set<string>, votes: map<string, Decimal9>, q: int)
    requires forall c | c in candidates :: VotesFor(votes, c).scaled >= 0
    requires forall c | c in group :: VotesFor(votes, c).scaled >= q
    ensures GroupSize(candidates, group) * q <= GroupVotes(candidates, group, votes) <= SumVotes(candidates, votes)
  {
    if candidates != [] {
      GroupBounds(candidates[1..], group, votes, q);
    }
  }

  lemma {:induction false} GroupSizeIsCardinality(candidates: seq<string>, group: set<string>)
    requires U.Distinct(candidates) && group <= set c | c in candidates
    ensures GroupSize(candidates, group) == |group|
  {
    if candidates == [] {
      assert group == {};
    } else {
      var c0 := candidates[0];
      var rest := candidates[1..];
      assert U.Distinct(rest) by {
        forall i, j | 0 <= i < j < |rest| ensures rest[i] != rest[j] {
          assert rest[i] == candidates[i + 1] && rest[j] == candidates[j + 1];
        }
      }
      assert c0 !in rest by {
        forall i | 0 <= i < |rest| ensures rest[i] != c0 { assert rest[i] == candidates[i + 1]; }
      }
      var g := group - {c0};
      assert g <= set c | c in rest by {
        forall x | x in g ensures x in rest {
          assert x in candidates && x != c0;
          var i :| 0 <= i < |candidates| && candidates[i] == x;
          assert rest[i - 1] == x;
        }
      }
      GroupSizeIsCardinality(rest, g);
      GroupSizeIgnoresOutsiders(rest, group, c0);
    }
  }

  /** Removing a candidate that is not in the list changes no group size. */
  lemma {:induction false} GroupSizeIgnoresOutsiders(candidates: seq<string>, group: set<string>, x: string)
    requires x !in candidates
    ensures GroupSize(candidates, group) == GroupSize(candidates, group - {x})
  {
    if candidates != [] {
      GroupSizeIgnoresOutsiders(candidates[1..], group, x);
    }
  }

  /** No more candidates than there are seats can reach the quota at the
      same time, as long as no count is negative. */
  lemma QuotaLimitsWinners(candidates: seq<string>, votes: map<string, Decimal9>, seats: nat, reached: set<string>)
    requires seats >= 1 && U.Distinct(candidates)
    requires forall c | c in candidates :: VotesFor(votes, c).scaled >= 0
    requires reached <= set c | c in candidates
    requires forall c | c in reached ::
      VotesFor(votes, c).scaled >= Quota(Decimal9(SumVotes(candidates, votes)), seats).scaled
    ensures |reached| <= seats
  {
    var total := SumVotes(candidates, votes);
    var q := Quota(Decimal9(total), seats).scaled;
    GroupBounds(candidates, {}, votes, 0);
    QuotaBounds(Decimal9(total), seats);
    GroupBounds(candidates, reached, votes, q);
    GroupSizeIsCardinality(candidates, reached);
    FewerThanSeatsPlusOne(total, q, seats, |reached|);
  }

  /** If n shares of at least q fit in a total below (seats + 1) * q, then
      n <= seats. */
  lemma FewerThanSeatsPlusOne(total: int, q: int, seats: nat, n: nat)
    requires 0 <= total < (seats + 1) * q && n * q <= total
    ensures n <= seats
  {
    assert q > 0 by { MulPositive(seats + 1, q); }
    ScaledCompare(q, seats + 1, n);
    assert q * (seats + 1) == (seats + 1) * q && q * n == n * q;
  }

  /** The total surplus: the excess over the quota of the elected
      candidates' votes. */
  function Surplus(candidates: seq<string>, elected: set<string>, votes: map<string, Decimal9>, quota: Decimal9)
    : Decimal9
  {
    if candidates == [] then ZERO
    else
      var rest := Surplus(candidates[1..], elected, votes, quota);
      if candidates[0] in elected then Plus(Minus(VotesFor(votes, candidates[0]), quota), rest) else rest
  }

  /** The surplus is the elected candidates' votes less one quota for each
      of them. */
  lemma {:induction false} SurplusIsExcess(candidates: seq<string>, elected: set<string>, votes: map<string, Decimal9>,
                                           quota: Decimal9)
    ensures Surplus(candidates, elected, votes, quota).scaled
            == GroupVotes(candidates, elected, votes) - GroupSize(candidates, elected) * quota.scaled
  {
    if candidates != [] {
      SurplusIsExcess(candidates[1..], elected, votes, quota);
      Distrib(GroupSize(candidates[1..], elected), quota.scaled);
    }
  }

  lemma Distrib(g: int, q: int)
    ensures (1 + g) * q == q + g * q
  {
  }

  /** With nobody elected the surplus is zero, and it is never negative
      while every elected candidate holds at least the quota. */
  lemma SurplusBounds(candidates: seq<string>, elected: set<string>, votes: map<string, Decimal9>, quota: Decimal9)
    ensures (forall c | c in candidates :: c !in elected) ==> Surplus(candidates, elected, votes, quota) == ZERO
    ensures (forall c | c in elected :: VotesFor(votes, c).scaled >= quota.scaled)
            ==> Surplus(candidates, elected, votes, quota).scaled >= 0
  {
    SurplusIsExcess(candidates, elected, votes, quota);
    if forall c | c in candidates :: c !in elected {
      NoGroupMembers(candidates, elected, votes);
    }
    if forall c | c in elected :: VotesFor(votes, c).scaled >= quota.scaled {
      GroupExcess(candidates, elected, votes, quota.scaled);
    }
  }

  lemma {:induction false} NoGroupMembers(candidates: seq<string>, group: set<string>, votes: map<string, Decimal9>)
    requires forall c | c in candidates :: c !in group
    ensures GroupVotes(candidates, group, votes) == 0 && GroupSize(candidates, group) == 0
  {
    if candidates != [] {
      NoGroupMembers(candidates[1..], group, votes);
    }
  }

  lemma {:induction false} GroupExcess(candidates: seq<string>, group: set<string>, votes: map<string, Decimal9>, q: int)
    requires forall c | c in group :: VotesFor(votes, c).scaled >= q
    ensures GroupVotes(candidates, group, votes) >= GroupSize(candidates, group) * q
  {
    if candidates != [] {
      GroupExcess(candidates[1..], group, votes, q);
    }
  }

  // ---------------------------------------------------------------------
  // Keep factors
  // ---------------------------------------------------------------------

  /** An elected candidate's next keep factor: kf * quota / votes, each
      step rounded away from zero. It fails only on zero votes. */
  function NextKeepFactor(kf: Decimal9, quota: Decimal9, votes: Decimal9): (r: Result<Decimal9>)
    ensures r.Err? <==> votes.scaled == 0
  {
    DivideBy(Times(kf, quota, Away), votes, Away)
  }

  /** The next keep factor makes the candidate keep at least kf * quota of
      its votes, by less than two rounding units more. */
  lemma NextKeepFactorBounds(kf: Decimal9, quota: Decimal9, votes: Decimal9)
    requires kf.scaled >= 0 && quota.scaled >= 0 && votes.scaled > 0
    ensures var r := NextKeepFactor(kf, quota, votes);
      r.Ok? && kf.scaled * quota.scaled <= r.value.scaled * votes.scaled < kf.scaled * quota.scaled + SCALE + votes.scaled
  {
    var p := Times(kf, quota, Away);
    KeepFactorRounding(kf, quota, votes, p, DivideBy(p, votes, Away).value);
  }

  lemma KeepFactorRounding(kf: Decimal9, quota: Decimal9, votes: Decimal9, p: Decimal9, n: Decimal9)
    requires kf.scaled >= 0 && quota.scaled >= 0 && votes.scaled > 0
    requires RoundedBy(kf.scaled * quota.scaled, SCALE, Away, p.scaled)
    requires RoundedBy(p.scaled * SCALE, votes.scaled, Away, n.scaled)
    ensures kf.scaled * quota.scaled <= n.scaled * votes.scaled < kf.scaled * quota.scaled + SCALE + votes.scaled
  {
    assert kf.scaled * quota.scaled >= 0;
    assert p.scaled * SCALE >= kf.scaled * quota.scaled;
    assert p.scaled * SCALE < kf.scaled * quota.scaled + SCALE;
    assert n.scaled * votes.scaled >= p.scaled * SCALE;
    assert n.scaled * votes.scaled < p.scaled * SCALE + votes.scaled;
  }

  /** Some elected candidate has a zero count. */
  predicate ZeroElected(candidates: seq<string>, elected: set<string>, kf: map<string, Decimal9>,
                        votes: map<string, Decimal9>) {
    exists c | c in candidates :: c in elected && c in kf && VotesFor(votes, c).scaled == 0
  }

  /** The keep factors after one update: each elected candidate's is
      replaced by its next value and the others stay; an elected candidate
      with a zero count fails the update. */
  function UpdateKeepFactors(candidates: seq<string>, elected: set<string>, kf: map<string, Decimal9>,
                             votes: map<string, Decimal9>, quota: Decimal9): (r: Result<map<string, Decimal9>>)
    ensures r.Ok? ==> r.value.Keys == kf.Keys
  {
    if ZeroElected(candidates, elected, kf, votes) then Err(Failure(Decimal9Error, ERR_DIVIDE_BY_ZERO))
    else Ok(map c | c in kf :: if c in candidates && c in elected
                               then NextKeepFactor(kf[c], quota, VotesFor(votes, c)).value else kf[c])
  }

  /** Only the elected candidates' keep factors are updated. */
  lemma UpdateKeepsOthers(candidates: seq<string>, elected: set<string>, kf: map<string, Decimal9>,
                          votes: map<string, Decimal9>, quota: Decimal9)
    requires UpdateKeepFactors(candidates, elected, kf, votes, quota).Ok?
    ensures forall c | c in kf && !(c in candidates && c in elected) ::
      UpdateKeepFactors(candidates, elected, kf, votes, quota).value[c] == kf[c]
  {
  }

  // ---------------------------------------------------------------------
  // Iterating to a settled count
  // ---------------------------------------------------------------------

  /** The convergence threshold, 10^-6. */
  const OMEGA: Decimal9 := Decimal9(1000)

  lemma OmegaValue()
    ensures OMEGA == Make(1, -6)
  {
    assert Pow10(3) == 1000;
  }

  /** What the iterations of a round work with. */
  datatype Election = Election(candidates: seq<string>, ballots: seq<Ballot>, seats: nat)

  /** One iteration's count, its quota and its total surplus. */
  datatype Iteration = Iteration(tally: IterTally, quota: Decimal9, surplus: Decimal9)

  function CountOnce(e: Election, elected: set<string>, kf: map<string, Decimal9>): (it: Iteration)
    requires e.seats >= 1
  {
    var t := CountVotes(e.candidates, e.ballots, kf);
    var q := Quota(VotesForCandidates(e.candidates, t), e.seats);
    Iteration(t, q, Surplus(e.candidates, elected, t.votes, q))
  }

  /** Some hopeful has reached the quota. */
  predicate HopefulReached(candidates: seq<string>, hopeful: set<string>, it: Iteration) {
    exists c | c in candidates :: c in hopeful && VotesFor(it.tally.votes, c).scaled >= it.quota.scaled
  }

  /** The iterations stop when a hopeful reaches the quota, when the
      surplus falls below omega, or when it no longer falls. */
  predicate Settled(candidates: seq<string>, hopeful: set<string>, it: Iteration, previous: Option<Decimal9>) {
    HopefulReached(candidates, hopeful, it)
    || it.surplus.scaled < OMEGA.scaled
    || (previous.Some? && it.surplus.scaled >= previous.value.scaled)
  }

  /** Where the iterations of a round end: the last count, the keep factors
      it was made with and the number of iterations. */
  datatype Converged = Converged(last: Iteration, keepFactors: map<string, Decimal9>, iterations: nat)

  /** The iterations of a round, from iteration number `iteration` on: each
      counts the ballots and, unless the count has settled, updates the
      elected candidates' keep factors and counts again. */
  function Converge(e: Election, hopeful: set<string>, elected: set<string>, kf: map<string, Decimal9>,
                    iteration: nat, previous: Option<Decimal9>): Result<Converged>
    requires e.seats >= 1
    decreases if previous.None? then 1 else 0, if previous.Some? && previous.value.scaled > 0 then previous.value.scaled else 0
  {
    var it := CountOnce(e, elected, kf);
    if Settled(e.candidates, hopeful, it, previous) then Ok(Converged(it, kf, iteration))
    else
      var kf' :- UpdateKeepFactors(e.candidates, elected, kf, it.tally.votes, it.quota);
      Converge(e, hopeful, elected, kf', iteration + 1, Some(it.surplus))
  }

  /** What the end of the iterations, started from iteration number
      `iteration` with keep factors kf, looks like: the count is the one made
      with the final keep factors, it has settled unless it is the first,
      and only the elected candidates' keep factors have changed. */
  ghost predicate EndsWell(e: Election, hopeful: set<string>, elected: set<string>, kf: map<string, Decimal9>,
                           iteration: nat, previous: Option<Decimal9>, out: Converged)
    requires e.seats >= 1
  {
    && out.last == CountOnce(e, elected, out.keepFactors)
    && (HopefulReached(e.candidates, hopeful, out.last) || out.last.surplus.scaled < OMEGA.scaled
        || previous.Some? || out.iterations > iteration)
    && out.iterations >= iteration && out.keepFactors.Keys == kf.Keys
    && (forall c | c in kf && !(c in e.candidates && c in elected) :: out.keepFactors[c] == kf[c])
  }

  /** Where the iterations end. */
  lemma {:induction false} ConvergeResult(e: Election, hopeful: set<string>, elected: set<string>,
                                          kf: map<string, Decimal9>, iteration: nat, previous: Option<Decimal9>)
    requires e.seats >= 1
    ensures var r := Converge(e, hopeful, elected, kf, iteration, previous);
      r.Ok? ==> EndsWell(e, hopeful, elected, kf, iteration, previous, r.value)
    decreases if previous.None? then 1 else 0, if previous.Some? && previous.value.scaled > 0 then previous.value.scaled else 0
  {
    var it := CountOnce(e, elected, kf);
    if !Settled(e.candidates, hopeful, it, previous) {
      ConvergeStep(e, hopeful, elected, kf, iteration, previous);
      var u := UpdateKeepFactors(e.candidates, elected, kf, it.tally.votes, it.quota);
      if u.Ok? {
        var rest := Converge(e, hopeful, elected, u.value, iteration + 1, Some(it.surplus));
        ConvergeResult(e, hopeful, elected, u.value, iteration + 1, Some(it.surplus));
        if rest.Ok? {
          UpdateKeepsOthers(e.candidates, elected, kf, it.tally.votes, it.quota);
          EndsWellLift(e, hopeful, elected, kf, u.value, iteration, previous, it.surplus, rest.value);
        }
      }
    }
  }

  /** An end reached from the updated keep factors is reached from the
      keep factors before the update. */
  lemma EndsWellLift(e: Election, hopeful: set<string>, elected: set<string>, kf: map<string, Decimal9>,
                     kf': map<string, Decimal9>, iteration: nat, previous: Option<Decimal9>, surplus: Decimal9,
                     out: Converged)
    requires e.seats >= 1
    requires EndsWell(e, hopeful, elected, kf', iteration + 1, Some(surplus), out)
    requires kf'.Keys == kf.Keys
    requires forall c | c in kf && !(c in e.candidates && c in elected) :: kf'[c] == kf[c]
    ensures EndsWell(e, hopeful, elected, kf, iteration, previous, out)
  {
  }

  /** A settled count ends the iterations. */
  lemma ConvergeSettled(e: Election, hopeful: set<string>, elected: set<string>, kf: map<string, Decimal9>,
                        iteration: nat, previous: Option<Decimal9>, it: Iteration)
    requires e.seats >= 1 && it == CountOnce(e, elected, kf) && Settled(e.candidates, hopeful, it, previous)
    ensures Converge(e, hopeful, elected, kf, iteration, previous) == Ok(Converged(it, kf, iteration))
  {
  }

  /** An unsettled count updates the keep factors and counts again; its
      surplus is at least omega and below the previous one. */
  lemma ConvergeStep(e: Election, hopeful: set<string>, elected: set<string>, kf: map<string, Decimal9>,
                     iteration: nat, previous: Option<Decimal9>)
    requires e.seats >= 1 && !Settled(e.candidates, hopeful, CountOnce(e, elected, kf), previous)
    ensures var it := CountOnce(e, elected, kf);
      var u := UpdateKeepFactors(e.candidates, elected, kf, it.tally.votes, it.quota);
      && it.surplus.scaled >= OMEGA.scaled
      && (previous.Some? ==> it.surplus.scaled < previous.value.scaled)
      && (u.Err? ==> Converge(e, hopeful, elected, kf, iteration, previous) == Err(u.error))
      && (u.Ok? ==> Converge(e, hopeful, elected, kf, iteration, previous)
                    == Converge(e, hopeful, elected, u.value, iteration + 1, Some(it.surplus)))
  {
  }
}

