/** The Status record of one candidate: votes, the round of its last
    change, hopeful/elected/defeated, keep factor and destiny. */
module Statuses {
  import opened Wrappers
  import opened Digits
  import opened Decimal9
  import D9 = Decimal9
  import opened Constants
  import opened TextScan

  /** A status as a value. `votes` is None (JavaScript null) before the
      first round has counted. */
  datatype StatusValue = StatusValue(
    candidate: string,
    votes: Option<Decimal9>,
    nbrRound: int,
    status: StatusKind,
    keepFactor: Decimal9,
    destiny: Destiny)

  /** The candidate ID of `new Status()`. */
  const DEFAULT_CANDIDATE: string := ":???"

  /** `new Status(candidate)`: zero votes, round 0, hopeful, keep factor
      one, normal destiny. */
  function DefaultStatus(candidate: string): (s: StatusValue)
    ensures s.candidate == candidate && s.votes == Some(ZERO) && s.nbrRound == 0
    ensures s.status == Hopeful && s.keepFactor == ONE && s.destiny == Normal
  {
    StatusValue(candidate, Some(ZERO), 0, Hopeful, ONE, Normal)
  }

  /** The mutable record; its fields are reassigned in place. */
  class Status {
    var candidate: string
    var votes: Option<Decimal9>
    var nbrRound: int
    var status: StatusKind
    var keepFactor: Decimal9
    var destiny: Destiny

    function Value(): StatusValue
      reads this
    {
      StatusValue(candidate, votes, nbrRound, status, keepFactor, destiny)
    }

    /** `new Status(candidate, votes, nbrRound, status, keepFactor, destiny)`. */
    constructor (candidate: string, votes: Option<Decimal9>, nbrRound: int, status: StatusKind,
                 keepFactor: Decimal9, destiny: Destiny)
      ensures Value() == StatusValue(candidate, votes, nbrRound, status, keepFactor, destiny)
    {
      this.candidate := candidate;
      this.votes := votes;
      this.nbrRound := nbrRound;
      this.status := status;
      this.keepFactor := keepFactor;
      this.destiny := destiny;
    }

    /** `new Status(candidate)`, and `new Status()` with DEFAULT_CANDIDATE. */
    constructor Default(candidate: string)
      ensures Value() == DefaultStatus(candidate)
    {
      this.candidate := candidate;
      votes := Some(ZERO);
      nbrRound := 0;
      status := Hopeful;
      keepFactor := ONE;
      destiny := Normal;
    }

    /** `new Status(other)`: a fresh record with the same field values;
        later changes to either leave the other alone. */
    constructor Copy(other: Status)
      ensures Value() == other.Value()
    {
      candidate := other.candidate;
      votes := other.votes;
      nbrRound := other.nbrRound;
      status := other.status;
      keepFactor := other.keepFactor;
      destiny := other.destiny;
    }
  }

  /** A copy keeps its values when the original is changed afterwards. */
  method CopyIsIndependent(original: Status, newRound: int) returns (copy: Status)
    modifies original
    ensures copy.Value() == old(original.Value())
    ensures original.Value() == old(original.Value()).(nbrRound := newRound)
  {
    copy := new Status.Copy(original);
    original.nbrRound := newRound;
  }

  // ---------------------------------------------------------------------
  // asArray
  // ---------------------------------------------------------------------

  /** One entry of an array rendering: a string, an integer, a Decimal9 or
      null. */
  datatype Cell = Text(s: string) | Int(i: int) | Dec(d: Decimal9) | Nil

  function VotesCell(votes: Option<Decimal9>): Cell {
    match votes
    case Some(v) => Dec(v)
    case None => Nil
  }

  /** `asArray()`: [candidate, status, nbrRound, votes, keepFactor], with
      the destiny appended when it is not normal. */
  function AsArray(s: StatusValue): (r: seq<Cell>)
    ensures |r| == (if s.destiny == Normal then 5 else 6)
  {
    [Text(s.candidate), Text(StatusText(s.status)), Int(s.nbrRound), VotesCell(s.votes), Dec(s.keepFactor)]
      + (if s.destiny == Normal then [] else [Text(DestinyText(s.destiny))])
  }

  function ParseStatusKind(t: string): Option<StatusKind> {
    if t == "hopeful" then Some(Hopeful)
    else if t == "elected" then Some(Elected)
    else if t == "defeated" then Some(Defeated)
    else None
  }

  function ParseDestiny(t: string): Option<Destiny> {
    if t == "normal" then Some(Normal)
    else if t == "excluded" then Some(Excluded)
    else if t == "protected" then Some(Protected)
    else None
  }

  lemma EnumerationTexts(k: StatusKind, d: Destiny)
    ensures ParseStatusKind(StatusText(k)) == Some(k)
    ensures ParseDestiny(DestinyText(d)) == Some(d)
    ensures '"' !in StatusText(k) && '"' !in DestinyText(d)
  {
  }

  /** Reads an `asArray()` value back; five entries mean a normal destiny. */
  function FromArray(cells: seq<Cell>): Option<StatusValue> {
    if !(|cells| == 5 || |cells| == 6) then None
    else if !(cells[0].Text? && cells[1].Text? && cells[2].Int? && (cells[3].Dec? || cells[3].Nil?) && cells[4].Dec?) then None
    else
      var votes := if cells[3].Dec? then Some(cells[3].d) else None;
      var destiny :=
        if |cells| == 5 then Some(Normal)
        else if cells[5].Text? then ParseDestiny(cells[5].s)
        else None;
      match ParseStatusKind(cells[1].s)
      case None => None
      case Some(k) =>
        match destiny
        case None => None
        case Some(d) => Some(StatusValue(cells[0].s, votes, cells[2].i, k, cells[4].d, d))
  }

  lemma AsArrayRoundTrip(s: StatusValue)
    ensures FromArray(AsArray(s)) == Some(s)
  {
    EnumerationTexts(s.status, s.destiny);
  }

  // ---------------------------------------------------------------------
  // toString
  // ---------------------------------------------------------------------

  /** `toString()`: `{candidate: "G", status: "defeated", nbrRound: 6,
      votes: 11.0, keepFactor: 1.0}`, with `, destiny: "protected"` before
      the closing brace when the destiny is not normal. */
  function ToString(s: StatusValue): string {
    "{candidate: \"" + s.candidate + AfterCandidate(s)
  }

  function AfterCandidate(s: StatusValue): string {
    "\", status: \"" + StatusText(s.status) + AfterStatus(s)
  }

  function AfterStatus(s: StatusValue): string {
    "\", nbrRound: " + IntToString(s.nbrRound) + AfterRound(s)
  }

  function AfterRound(s: StatusValue): string {
    ", votes: " + VotesText(s.votes) + AfterVotes(s)
  }

  function AfterVotes(s: StatusValue): string {
    ", keepFactor: " + D9.ToString(s.keepFactor) + DestinyPart(s.destiny) + "}"
  }

  function VotesText(votes: Option<Decimal9>): string {
    match votes
    case Some(v) => D9.ToString(v)
    case None => "null"
  }

  function DestinyPart(d: Destiny): string {
    if d == Normal then "" else ", destiny: \"" + DestinyText(d) + "\""
  }

  /** Reads a `toString()` rendering back, field by field. */
  function ParseStatus(t: string): Option<StatusValue> {
    match StripPrefix("{candidate: \"", t)
    case None => None
    case Some(rest) =>
      var k := FindChar(rest, '"');
      ParseAfterCandidate(rest[..k], rest[k..])
  }

  function ParseAfterCandidate(candidate: string, t: string): Option<StatusValue> {
    match StripPrefix("\", status: \"", t)
    case None => None
    case Some(rest) =>
      var k := FindChar(rest, '"');
      match ParseStatusKind(rest[..k])
      case None => None
      case Some(kind) => ParseAfterStatus(candidate, kind, rest[k..])
  }

  function ParseAfterStatus(candidate: string, kind: StatusKind, t: string): Option<StatusValue> {
    match StripPrefix("\", nbrRound: ", t)
    case None => None
    case Some(rest) =>
      var k := FindChar(rest, ',');
      match ParseInt(rest[..k])
      case None => None
      case Some(n) => ParseAfterRound(candidate, kind, n, rest[k..])
  }

  function ParseAfterRound(candidate: string, kind: StatusKind, n: int, t: string): Option<StatusValue> {
    match StripPrefix(", votes: ", t)
    case None => None
    case Some(rest) =>
      var k := FindChar(rest, ',');
      var votesText := rest[..k];
      var votes := if votesText == "null" then Some(None) else
        match ParseDecimal(votesText)
        case Some(v) => Some(Some(v))
        case None => None;
      match votes
      case None => None
      case Some(v) => ParseAfterVotes(candidate, kind, n, v, rest[k..])
  }

  function ParseAfterVotes(candidate: string, kind: StatusKind, n: int, votes: Option<Decimal9>,
                           t: string): Option<StatusValue> {
    match StripPrefix(", keepFactor: ", t)
    case None => None
    case Some(rest) =>
      match StripSuffix("}", rest)
      case None => None
      case Some(body) =>
        var k := FindChar(body, ',');
        match ParseDecimal(body[..k])
        case None => None
        case Some(kf) =>
          match ParseDestinyPart(body[k..])
          case None => None
          case Some(d) => Some(StatusValue(candidate, votes, n, kind, kf, d))
  }

  function ParseDestinyPart(t: string): Option<Destiny> {
    if t == "" then Some(Normal)
    else
      match StripPrefix(", destiny: \"", t)
      case None => None
      case Some(rest) =>
        match StripSuffix("\"", rest)
        case None => None
        case Some(name) =>
          match ParseDestiny(name)
          case Some(Normal) => None
          case other => other
  }

  /** A Decimal9 rendering holds digits, '.' and '-' only. */
  lemma DecimalTextHasNoComma(x: Decimal9)
    ensures ',' !in D9.ToString(x)
    ensures D9.ToString(x) != "null"
  {
    D9.ToStringHasNo(x, ',');
    D9.ToStringHasNo(x, 'n');
  }

  lemma VotesTextRoundTrip(votes: Option<Decimal9>)
    ensures ',' !in VotesText(votes)
    ensures votes.None? <==> VotesText(votes) == "null"
    ensures votes.Some? ==> ParseDecimal(VotesText(votes)) == Some(votes.value)
  {
    if votes.Some? {
      DecimalTextHasNoComma(votes.value);
      D9.ToStringRoundTrip(votes.value);
    }
  }

  lemma DestinyPartRoundTrip(d: Destiny)
    ensures ParseDestinyPart(DestinyPart(d)) == Some(d)
  {
    if d != Normal {
      var name := DestinyText(d);
      StripPrefixOf(", destiny: \"", name + "\"");
      StripSuffixOf(name, "\"");
      EnumerationTexts(Hopeful, d);
    }
  }

  lemma AfterVotesRoundTrip(s: StatusValue)
    ensures ParseAfterVotes(s.candidate, s.status, s.nbrRound, s.votes, AfterVotes(s)) == Some(s)
  {
    var kf := D9.ToString(s.keepFactor);
    var dp := DestinyPart(s.destiny);
    var body := kf + dp;
    var t := AfterVotes(s);
    assert t == ", keepFactor: " + (body + "}");
    StripPrefixOf(", keepFactor: ", body + "}");
    StripSuffixOf(body, "}");
    BodySplits(kf, dp, s.keepFactor, s.destiny);
    D9.ToStringRoundTrip(s.keepFactor);
    DestinyPartRoundTrip(s.destiny);
  }

  lemma BodySplits(kf: string, dp: string, x: Decimal9, d: Destiny)
    requires kf == D9.ToString(x) && dp == DestinyPart(d)
    ensures var body := kf + dp;
      var k := FindChar(body, ',');
      body[..k] == kf && body[k..] == dp
  {
    DecimalTextHasNoComma(x);
    var body := kf + dp;
    if d == Normal {
      assert body == kf;
      assert body[..|kf|] == kf;
    } else {
      assert dp == [','] + dp[1..];
      assert body == kf + [','] + dp[1..];
      FindCharAfter(kf, ',', dp[1..]);
    }
  }

  lemma AfterRoundRoundTrip(s: StatusValue)
    ensures ParseAfterRound(s.candidate, s.status, s.nbrRound, AfterRound(s)) == Some(s)
  {
    var vt := VotesText(s.votes);
    var tail := AfterVotes(s);
    assert AfterRound(s) == ", votes: " + (vt + tail);
    StripPrefixOf(", votes: ", vt + tail);
    VotesTextRoundTrip(s.votes);
    FieldSplit(vt, ',', tail);
    AfterVotesRoundTrip(s);
  }

  lemma AfterStatusRoundTrip(s: StatusValue)
    ensures ParseAfterStatus(s.candidate, s.status, AfterStatus(s)) == Some(s)
  {
    var nt := IntToString(s.nbrRound);
    var tail := AfterRound(s);
    assert AfterStatus(s) == "\", nbrRound: " + (nt + tail);
    StripPrefixOf("\", nbrRound: ", nt + tail);
    IntToStringHasNo(s.nbrRound, ',');
    FieldSplit(nt, ',', tail);
    ParseIntRoundTrip(s.nbrRound);
    AfterRoundRoundTrip(s);
  }

  lemma AfterCandidateRoundTrip(s: StatusValue)
    ensures ParseAfterCandidate(s.candidate, AfterCandidate(s)) == Some(s)
  {
    var st := StatusText(s.status);
    var tail := AfterStatus(s);
    assert AfterCandidate(s) == "\", status: \"" + (st + tail);
    StripPrefixOf("\", status: \"", st + tail);
    EnumerationTexts(s.status, s.destiny);
    FieldSplit(st, '"', tail);
    AfterStatusRoundTrip(s);
  }

  /** A status whose candidate ID holds no double quote is read back from
      its rendering. */
  lemma ToStringRoundTrip(s: StatusValue)
    requires '"' !in s.candidate
    ensures ParseStatus(ToString(s)) == Some(s)
  {
    var tail := AfterCandidate(s);
    assert ToString(s) == "{candidate: \"" + (s.candidate + tail);
    StripPrefixOf("{candidate: \"", s.candidate + tail);
    FieldSplit(s.candidate, '"', tail);
    AfterCandidateRoundTrip(s);
  }

  // ---------------------------------------------------------------------
  // isEqual
  // ---------------------------------------------------------------------

  /** What `isEqual` may be given: a status or null. */
  datatype StatusOperand = StatusOf(s: StatusValue) | NullStatus

  /** `isEqual(other)`: all six fields equal by value; null is never equal. */
  function IsEqual(s: StatusValue, other: StatusOperand): (r: bool)
    ensures r <==> other == StatusOf(s)
  {
    match other
    case StatusOf(o) =>
      o.candidate == s.candidate && o.votes == s.votes && o.nbrRound == s.nbrRound
      && o.status == s.status && o.keepFactor == s.keepFactor && o.destiny == s.destiny
    case NullStatus => false
  }

  /** `isNotEqual(other)`: the negation of isEqual. */
  function IsNotEqual(s: StatusValue, other: StatusOperand): (r: bool)
    ensures r <==> other != StatusOf(s)
  {
    match other
    case StatusOf(o) =>
      o.candidate != s.candidate || o.votes != s.votes || o.nbrRound != s.nbrRound
      || o.status != s.status || o.keepFactor != s.keepFactor || o.destiny != s.destiny
    case NullStatus => true
  }
}
