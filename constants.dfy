/** The centrally declared constants: the Decimal9 values ZERO, ONE and
    ULP, the two non-candidate ranking codes, the option names and their
    values, and the STATUS, DESTINY and ROUND enumerations with the strings
    that name them. */
module Constants {
  import opened Wrappers
  import opened Decimal9

  const ZERO: Decimal9 := FromInt(0)
  const ONE: Decimal9 := FromInt(1)
  /** The unit in the last place, 10^-9. */
  const ULP: Decimal9 := Make(1, -9)

  /** ZERO is the default value, ONE the whole number one, ULP one unit. */
  lemma ValueConstants()
    ensures ZERO.scaled == 0 && ONE.scaled == SCALE && ULP.scaled == 1
    ensures Plus(ZERO, ULP) == ULP && Times(ONE, ULP, Truncate) == ULP
  {
    RoundDivExact(1, SCALE, Truncate);
  }

  // ---------------------------------------------------------------------
  // Ranking codes
  // ---------------------------------------------------------------------

  const UNDERVOTE: string := ""
  const OVERVOTE: string := "#"
  const RANKING_CODES_NOT_A_CANDIDATE: set<string> := {UNDERVOTE, OVERVOTE}

  lemma RankingCodes()
    ensures |RANKING_CODES_NOT_A_CANDIDATE| == 2
    ensures forall c :: c in RANKING_CODES_NOT_A_CANDIDATE <==> c == "" || c == "#"
  {
  }

  // ---------------------------------------------------------------------
  // Case-insensitive comparison for the option values
  // ---------------------------------------------------------------------

  function LowerChar(c: char): char {
    if 'A' <= c <= 'Z' then (c as int + 32) as char else c
  }

  /** Equal up to ASCII letter case. */
  predicate SameIgnoringCase(a: string, b: string) {
    |a| == |b| && forall i | 0 <= i < |a| :: LowerChar(a[i]) == LowerChar(b[i])
  }

  // ---------------------------------------------------------------------
  // Options
  // ---------------------------------------------------------------------

  datatype OptionName = AlternativeDefeats | TypeOfAltDefs | AlwaysCountVotes | BallotTree

  function OptionNameText(o: OptionName): string {
    match o
    case AlternativeDefeats => "alternative_defeats"
    case TypeOfAltDefs => "type_of_altdefs"
    case AlwaysCountVotes => "always_count_votes"
    case BallotTree => "ballot_tree"
  }

  function ParseOptionName(s: string): (r: Option<OptionName>)
    ensures r.Some? ==> OptionNameText(r.value) == s
  {
    if s == "alternative_defeats" then Some(AlternativeDefeats)
    else if s == "type_of_altdefs" then Some(TypeOfAltDefs)
    else if s == "always_count_votes" then Some(AlwaysCountVotes)
    else if s == "ballot_tree" then Some(BallotTree)
    else None
  }

  const OPTION_NAMES: set<string> :=
    {"alternative_defeats", "type_of_altdefs", "always_count_votes", "ballot_tree"}

  /** There are exactly four option names, each read back as itself. */
  lemma OptionNames(o: OptionName, s: string)
    ensures |OPTION_NAMES| == 4
    ensures ParseOptionName(OptionNameText(o)) == Some(o)
    ensures ParseOptionName(s).Some? <==> s in OPTION_NAMES
  {
  }

  /** A per-round or whole-count alternative-defeats value: 'Y' or 'N'. */
  datatype YesNo = Yes | Never

  function YesNoText(v: YesNo): string {
    match v
    case Yes => "Y"
    case Never => "N"
  }

  /** Reads 'Y'/'N' in either letter case. */
  function ParseYesNo(s: string): (r: Option<YesNo>)
    ensures r.Some? ==> SameIgnoringCase(s, YesNoText(r.value))
  {
    if SameIgnoringCase(s, "Y") then Some(Yes)
    else if SameIgnoringCase(s, "N") then Some(Never)
    else None
  }

  datatype AltDefsType = PerReferenceRule | BeforeSingleDefeats | IfNoNewElecteds

  function AltDefsTypeText(t: AltDefsType): string {
    match t
    case PerReferenceRule => "per_reference_rule"
    case BeforeSingleDefeats => "before_single_defeats"
    case IfNoNewElecteds => "if_no_new_electeds"
  }

  function ParseAltDefsType(s: string): (r: Option<AltDefsType>)
    ensures r.Some? ==> SameIgnoringCase(s, AltDefsTypeText(r.value))
  {
    if SameIgnoringCase(s, "per_reference_rule") then Some(PerReferenceRule)
    else if SameIgnoringCase(s, "before_single_defeats") then Some(BeforeSingleDefeats)
    else if SameIgnoringCase(s, "if_no_new_electeds") then Some(IfNoNewElecteds)
    else None
  }

  datatype BallotTreeKind = Dynamic | Static | NoTree

  function BallotTreeText(b: BallotTreeKind): string {
    match b
    case Dynamic => "dynamic"
    case Static => "static"
    case NoTree => "none"
  }

  function ParseBallotTree(s: string): (r: Option<BallotTreeKind>)
    ensures r.Some? ==> SameIgnoringCase(s, BallotTreeText(r.value))
  {
    if SameIgnoringCase(s, "dynamic") then Some(Dynamic)
    else if SameIgnoringCase(s, "static") then Some(Static)
    else if SameIgnoringCase(s, "none") then Some(NoTree)
    else None
  }

  /** Each Y/N value is read back from its name, in upper or lower case. */
  lemma YesNoRoundTrip(v: YesNo)
    ensures ParseYesNo(YesNoText(v)) == Some(v)
    ensures ParseYesNo(if v == Yes then "y" else "n") == Some(v)
  {
    assert !SameIgnoringCase("N", "Y") by { assert LowerChar("N"[0]) != LowerChar("Y"[0]); }
    assert !SameIgnoringCase("n", "Y") by { assert LowerChar("n"[0]) != LowerChar("Y"[0]); }
  }

  /** Each of the three types of alternative defeats is read back. */
  lemma AltDefsTypeRoundTrip(t: AltDefsType)
    ensures ParseAltDefsType(AltDefsTypeText(t)) == Some(t)
  {
    assert !SameIgnoringCase("if_no_new_electeds", "per_reference_rule") by {
      assert LowerChar("if_no_new_electeds"[0]) != LowerChar("per_reference_rule"[0]);
    }
  }

  /** Each of the three ballot-tree values is read back. */
  lemma BallotTreeRoundTrip(b: BallotTreeKind)
    ensures ParseBallotTree(BallotTreeText(b)) == Some(b)
  {
  }

  /** A type of alternative defeats is read from its name in any mixture
      of letter cases, and only from such a spelling. */
  lemma AltDefsTypeIgnoresCase(s: string, t: AltDefsType)
    ensures ParseAltDefsType(s) == Some(t) <==> SameIgnoringCase(s, AltDefsTypeText(t))
  {
    if SameIgnoringCase(s, "if_no_new_electeds") {
      assert LowerChar(s[0]) == 'i';
      assert !SameIgnoringCase(s, "per_reference_rule");
    }
  }

  /** A ballot-tree value is read from its name in any mixture of letter
      cases, and only from such a spelling. */
  lemma BallotTreeIgnoresCase(s: string, b: BallotTreeKind)
    ensures ParseBallotTree(s) == Some(b) <==> SameIgnoringCase(s, BallotTreeText(b))
  {
  }

  // ---------------------------------------------------------------------
  // STATUS, DESTINY, ROUND
  // ---------------------------------------------------------------------

  datatype StatusKind = Hopeful | Defeated | Elected

  function StatusText(s: StatusKind): string {
    match s
    case Hopeful => "hopeful"
    case Defeated => "defeated"
    case Elected => "elected"
  }

  datatype Destiny = Normal | Excluded | Protected

  function DestinyText(d: Destiny): string {
    match d
    case Normal => "normal"
    case Excluded => "excluded"
    case Protected => "protected"
  }

  function RoundText(m: RoundMode): string {
    match m
    case Away => "away"
    case Truncate => "truncate"
    case Nearest => "nearest"
  }

  /** The enumerations are named by distinct strings. */
  lemma EnumerationNamesDistinct(s1: StatusKind, s2: StatusKind, d1: Destiny, d2: Destiny,
                                 m1: RoundMode, m2: RoundMode)
    ensures StatusText(s1) == StatusText(s2) ==> s1 == s2
    ensures DestinyText(d1) == DestinyText(d2) ==> d1 == d2
    ensures RoundText(m1) == RoundText(m2) ==> m1 == m2
  {
  }
}
