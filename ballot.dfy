/** The Ballot record: a number of identical ballots and their rankings. */
module Ballots {
  import opened Wrappers
  import opened Digits
  import opened JsValues
  import opened TextScan

  /** `multiple` voters cast these `rankings`, most preferred first; a
      ranking code is a candidate ID, '' (undervote) or '#' (overvote). */
  datatype Ballot = Ballot(multiple: int, rankings: seq<string>)

  /** `new Ballot()`. */
  const DEFAULT_BALLOT: Ballot := Ballot(0, [])

  /** `toString()` and `valueOf()`:
      `{multiple: 17, rankings: ["C", "#", "B"]}`. */
  function ToString(b: Ballot): string {
    "{multiple: " + IntToString(b.multiple) + AfterMultiple(b.rankings)
  }

  function AfterMultiple(rankings: seq<string>): string {
    ", rankings: [" + QuotedList(rankings) + "]}"
  }

  /** Reads a rendering back. */
  function ParseBallot(s: string): Option<Ballot> {
    match StripPrefix("{multiple: ", s)
    case None => None
    case Some(rest) =>
      var k := FindChar(rest, ',');
      match ParseInt(rest[..k])
      case None => None
      case Some(m) =>
        match ParseAfterMultiple(rest[k..])
        case None => None
        case Some(rs) => Some(Ballot(m, rs))
  }

  function ParseAfterMultiple(t: string): Option<seq<string>> {
    match StripPrefix(", rankings: [", t)
    case None => None
    case Some(tail) =>
      match StripSuffix("]}", tail)
      case None => None
      case Some(listText) => ParseQuotedList(listText)
  }

  lemma AfterMultipleRoundTrip(rankings: seq<string>)
    requires NoQuotes(rankings)
    ensures ParseAfterMultiple(AfterMultiple(rankings)) == Some(rankings)
  {
    var q := QuotedList(rankings);
    assert AfterMultiple(rankings) == ", rankings: [" + (q + "]}");
    StripPrefixOf(", rankings: [", q + "]}");
    StripSuffixOf(q, "]}");
    QuotedListRoundTrip(rankings);
  }

  /** A ballot whose codes hold no double quote is read back from its
      rendering. */
  lemma ToStringRoundTrip(b: Ballot)
    requires NoQuotes(b.rankings)
    ensures ParseBallot(ToString(b)) == Some(b)
  {
    var n := IntToString(b.multiple);
    var tail := AfterMultiple(b.rankings);
    assert ToString(b) == "{multiple: " + (n + tail);
    StripPrefixOf("{multiple: ", n + tail);
    IntToStringHasNo(b.multiple, ',');
    FieldSplit(n, ',', tail);
    ParseIntRoundTrip(b.multiple);
    AfterMultipleRoundTrip(b.rankings);
  }

  /** Different ballots without quotes in their codes render differently. */
  lemma ToStringInjective(a: Ballot, b: Ballot)
    requires NoQuotes(a.rankings) && NoQuotes(b.rankings)
    requires ToString(a) == ToString(b)
    ensures a == b
  {
    ToStringRoundTrip(a);
    ToStringRoundTrip(b);
  }

  /** `asArray()`: `[multiple, rankings]`. */
  function AsArray(b: Ballot): Js {
    JArr([JInt(b.multiple), JArr(FromStrings(b.rankings))])
  }

  /** Reads an `asArray()` value back. */
  function FromArray(v: Js): (r: Option<Ballot>) {
    if v.JArr? && |v.items| == 2 && v.items[0].JInt? && v.items[1].JArr? && AllStrings(v.items[1].items)
    then Some(Ballot(v.items[0].i, Strings(v.items[1].items)))
    else None
  }

  lemma AsArrayRoundTrip(b: Ballot)
    ensures FromArray(AsArray(b)) == Some(b)
  {
    StringsRoundTrip(b.rankings, []);
  }

  /** What `isEqual` may be given: a ballot, a ballot whose rankings field
      is not an array, or null. */
  datatype BallotOperand = Given(b: Ballot) | NonArrayRankings(multiple: int) | NullBallot

  /** The rankings have the same length and the same codes position by
      position. */
  function SameRankings(a: seq<string>, b: seq<string>): (r: bool)
    ensures r <==> a == b
  {
    if |a| != |b| then false
    else if a == [] then true
    else
      assert a == [a[0]] + a[1..] && b == [b[0]] + b[1..];
      a[0] == b[0] && SameRankings(a[1..], b[1..])
  }

  /** `isEqual(other)`: the same multiple and the same rankings. */
  function IsEqual(b: Ballot, other: BallotOperand): (r: bool)
    ensures r <==> other == Given(b)
  {
    match other
    case Given(c) => b.multiple == c.multiple && SameRankings(b.rankings, c.rankings)
    case NonArrayRankings(_) => false
    case NullBallot => false
  }

  /** `isNotEqual(other)`: the negation of isEqual, null included. */
  function IsNotEqual(b: Ballot, other: BallotOperand): (r: bool)
    ensures r <==> other != Given(b)
  {
    match other
    case Given(c) => b.multiple != c.multiple || !SameRankings(b.rankings, c.rankings)
    case NonArrayRankings(_) => true
    case NullBallot => true
  }
}
