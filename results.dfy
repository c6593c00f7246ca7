/** Results: the sort keys that order the statuses and the tally rows,
    their comparison, and the text renderings of the elected list, the
    statuses and the tally. */
module Results {
  import opened Wrappers
  import opened Digits
  import opened Decimal9
  import D9 = Decimal9
  import opened Constants
  import opened Statuses
  import opened TextScan
  import U = UtilBasic

  /** The summary rows of the tally, in their fixed order. */
  const SUMMARY_LABELS: seq<string> := [
    ":Votes for candidates", ":Overvotes", ":Abstentions", ":Other exhausted",
    ":Total votes", ":Quota", ":Total surplus", ":Iterations"]

  /** What a tabulation returns: the elected candidates in order of
      election, the statuses by candidate and the tally rows by key.
      `candidates` and `tallyKeys` are the key orders of the two objects. */
  datatype TabulationResults = TabulationResults(
    elected: seq<string>,
    candidates: seq<string>,
    statuses: map<string, StatusValue>,
    tallyKeys: seq<string>,
    tally: map<string, seq<Cell>>)

  // ---------------------------------------------------------------------
  // getSortKey
  // ---------------------------------------------------------------------

  /** Elected candidates come first, then hopefuls, then defeated ones. */
  function StatusRank(k: StatusKind): int {
    match k
    case Elected => 1
    case Hopeful => 2
    case Defeated => 3
  }

  /** The votes entry of a candidate's key: the votes negated, so that
      more votes come first; no votes yet stays null. */
  function NegatedVotes(votes: Option<Decimal9>): Cell {
    match votes
    case Some(v) => Dec(Negative(v))
    case None => Nil
  }

  /** `getSortKey(key, statuses)`: a candidate's key is [1, rank, round
      (negated unless elected), negated votes, ID]; a summary label's is
      [2, its index, label]; any other key's is [3, 1, key]. Every key
      ends with the key itself. */
  function GetSortKey(key: string, statuses: map<string, StatusValue>): (r: seq<Cell>)
    ensures |r| >= 3 && r[|r| - 1] == Text(key)
    ensures r[0] == Int(1) <==> key in statuses
    ensures r[0] == Int(2) <==> key !in statuses && key in SUMMARY_LABELS
  {
    if key in statuses then
      var s := statuses[key];
      [Int(1), Int(StatusRank(s.status)),
       Int(if s.status == Elected then s.nbrRound else -s.nbrRound),
       NegatedVotes(s.votes), Text(key)]
    else if key in SUMMARY_LABELS then
      [Int(2), Int(U.FirstIndex(SUMMARY_LABELS, key)), Text(key)]
    else
      [Int(3), Int(1), Text(key)]
  }

  // ---------------------------------------------------------------------
  // compareSortKeys
  // ---------------------------------------------------------------------

  function Sign(x: int): int {
    if x < 0 then -1 else if x == 0 then 0 else 1
  }

  /** Entries of different kinds are ordered integer, decimal, string,
      null. The order between kinds is the model's own choice: in two keys
      GetSortKey builds, the first entries that differ are of different
      kinds only where a candidate without votes meets one with votes at
      the same rank and round, and there it puts the one with votes first. */
  function CellKind(c: Cell): int {
    match c
    case Int(_) => 0
    case Dec(_) => 1
    case Text(_) => 2
    case Nil => 3
  }

  /** Strings compare by code units, as JavaScript's `<` does. */
  function CompareText(a: string, b: string): int {
    if a == b then 0 else if U.LexLess(a, b) then -1 else 1
  }

  /** Two key entries: integers and decimals by value, strings by code
      units. */
  function CompareCells(a: Cell, b: Cell): (r: int)
    ensures r == -1 || r == 0 || r == 1
  {
    if CellKind(a) != CellKind(b) then Sign(CellKind(a) - CellKind(b))
    else
      match a
      case Int(i) => Sign(i - b.i)
      case Dec(x) => D9.Compare(x, b.d)
      case Text(s) => CompareText(s, b.s)
      case Nil => 0
  }

  /** `compareSortKeys(a, b)`: -1, 0 or 1, decided by the first entries
      that differ; a key that is a proper prefix of the other comes first. */
  function CompareSortKeys(a: seq<Cell>, b: seq<Cell>): (r: int)
    ensures r == -1 || r == 0 || r == 1
  {
    if a == [] then (if b == [] then 0 else -1)
    else if b == [] then 1
    else
      var c := CompareCells(a[0], b[0]);
      if c != 0 then c else CompareSortKeys(a[1..], b[1..])
  }

  /** The entry comparison is a total order. */
  lemma CompareCellsOrder(a: Cell, b: Cell, c: Cell)
    ensures CompareCells(b, a) == -CompareCells(a, b)
    ensures CompareCells(a, b) == 0 <==> a == b
    ensures CompareCells(a, b) < 0 && CompareCells(b, c) < 0 ==> CompareCells(a, c) < 0
  {
    if a.Text? && b.Text? {
      U.LexLessIrreflexive(a.s);
      U.LexLessTotal(a.s, b.s);
      if U.LexLess(a.s, b.s) && U.LexLess(b.s, a.s) {
        U.LexLessTransitive(a.s, b.s, a.s);
      }
      if c.Text? && U.LexLess(a.s, b.s) && U.LexLess(b.s, c.s) {
        U.LexLessTransitive(a.s, b.s, c.s);
      }
    }
  }

  /** Swapping the keys negates the result, and only equal keys compare
      equal. */
  lemma {:induction false} CompareSortKeysAntisymmetric(a: seq<Cell>, b: seq<Cell>)
    ensures CompareSortKeys(b, a) == -CompareSortKeys(a, b)
    ensures CompareSortKeys(a, b) == 0 <==> a == b
  {
    if a != [] && b != [] {
      CompareCellsOrder(a[0], b[0], b[0]);
      CompareSortKeysAntisymmetric(a[1..], b[1..]);
      assert a == [a[0]] + a[1..] && b == [b[0]] + b[1..];
    }
  }

  lemma {:induction false} CompareSortKeysTransitive(a: seq<Cell>, b: seq<Cell>, c: seq<Cell>)
    requires CompareSortKeys(a, b) < 0 && CompareSortKeys(b, c) < 0
    ensures CompareSortKeys(a, c) < 0
  {
    if a != [] && b != [] && c != [] {
      CompareCellsOrder(a[0], b[0], c[0]);
      if CompareCells(a[0], b[0]) == 0 && CompareCells(b[0], c[0]) == 0 {
        CompareSortKeysTransitive(a[1..], b[1..], c[1..]);
      }
    }
  }

  /** The first entries that differ decide the comparison. */
  lemma {:induction false} CompareSortKeysFirstDifference(a: seq<Cell>, b: seq<Cell>, i: nat)
    requires i < |a| && i < |b| && a[..i] == b[..i]
    requires CompareCells(a[i], b[i]) != 0
    ensures CompareSortKeys(a, b) == CompareCells(a[i], b[i])
  {
    if i > 0 {
      assert a[0] == a[..i][0] == b[..i][0] == b[0];
      CompareCellsOrder(a[0], b[0], b[0]);
      assert a[1..][..i - 1] == a[..i][1..] == b[..i][1..] == b[1..][..i - 1];
      CompareSortKeysFirstDifference(a[1..], b[1..], i - 1);
    }
  }

  /** A key that is a proper prefix of another comes before it. */
  lemma {:induction false} CompareSortKeysPrefix(a: seq<Cell>, b: seq<Cell>)
    requires |a| < |b| && b[..|a|] == a
    ensures CompareSortKeys(a, b) == -1
    ensures CompareSortKeys(b, a) == 1
  {
    if a != [] {
      assert b[0] == b[..|a|][0] == a[0];
      CompareCellsOrder(a[0], b[0], b[0]);
      assert b[1..][..|a| - 1] == b[..|a|][1..] == a[1..];
      CompareSortKeysPrefix(a[1..], b[1..]);
    }
  }

  // ---------------------------------------------------------------------
  // The order of keys
  // ---------------------------------------------------------------------

  /** a's sort key compares below b's. */
  predicate KeyPrecedes(statuses: map<string, StatusValue>, a: string, b: string) {
    CompareSortKeys(GetSortKey(a, statuses), GetSortKey(b, statuses)) < 0
  }

  function Before(statuses: map<string, StatusValue>): (string, string) -> bool {
    (a, b) => KeyPrecedes(statuses, a, b)
  }

  /** Sort keys order the keys strictly and totally: every key ends its
      own sort key, so different keys never compare equal. */
  lemma KeyPrecedesIsStrictTotalOrder(statuses: map<string, StatusValue>)
    ensures U.StrictTotalOrder(Before(statuses))
  {
    forall a: string ensures !Before(statuses)(a, a) {
      CompareSortKeysAntisymmetric(GetSortKey(a, statuses), GetSortKey(a, statuses));
    }
    forall a: string, b: string, c: string | Before(statuses)(a, b) && Before(statuses)(b, c)
      ensures Before(statuses)(a, c)
    {
      CompareSortKeysTransitive(GetSortKey(a, statuses), GetSortKey(b, statuses), GetSortKey(c, statuses));
    }
    forall a: string, b: string ensures a == b || Before(statuses)(a, b) || Before(statuses)(b, a) {
      CompareSortKeysAntisymmetric(GetSortKey(a, statuses), GetSortKey(b, statuses));
    }
  }

  /** Keys in sort-key order: `getTallyOrderAsArray` over the tally's
      keys, and the order in which statuses are rendered. */
  function SortedKeys(keys: seq<string>, statuses: map<string, StatusValue>): (r: seq<string>)
    ensures U.SortedBy(r, Before(statuses))
    ensures multiset(r) == multiset(keys)
    ensures |r| == |keys|
  {
    KeyPrecedesIsStrictTotalOrder(statuses);
    U.SortBy(keys, Before(statuses))
  }

  /** The sorted order depends only on which keys there are. */
  lemma SortedKeysIgnoresOrder(keys1: seq<string>, keys2: seq<string>, statuses: map<string, StatusValue>)
    requires multiset(keys1) == multiset(keys2)
    ensures SortedKeys(keys1, statuses) == SortedKeys(keys2, statuses)
  {
    KeyPrecedesIsStrictTotalOrder(statuses);
    U.SortedByUnique(SortedKeys(keys1, statuses), SortedKeys(keys2, statuses), Before(statuses));
  }

  /** Candidates come before every other key. */
  lemma CandidatesFirst(statuses: map<string, StatusValue>, a: string, b: string)
    requires a in statuses && b !in statuses
    ensures KeyPrecedes(statuses, a, b)
  {
  }

  /** Summary labels come before keys that are neither candidates nor
      labels. */
  lemma LabelsBeforeOthers(statuses: map<string, StatusValue>, a: string, b: string)
    requires a !in statuses && a in SUMMARY_LABELS
    requires b !in statuses && b !in SUMMARY_LABELS
    ensures KeyPrecedes(statuses, a, b)
  {
  }

  /** Summary labels come in their fixed order. */
  lemma LabelsInOrder(statuses: map<string, StatusValue>, a: string, b: string)
    requires a !in statuses && a in SUMMARY_LABELS
    requires b !in statuses && b in SUMMARY_LABELS
    ensures KeyPrecedes(statuses, a, b) <==> U.FirstIndex(SUMMARY_LABELS, a) < U.FirstIndex(SUMMARY_LABELS, b)
  {
    var ka, kb := GetSortKey(a, statuses), GetSortKey(b, statuses);
    assert CompareSortKeys(ka, kb) == CompareSortKeys(ka[1..], kb[1..]);
    if a == b {
      CompareSortKeysAntisymmetric(ka, kb);
    }
  }

  /** The status order: elected candidates by ascending round of election,
      then hopefuls, then defeated candidates by descending round of
      defeat; within one round, more votes first. */
  lemma CandidateKeyOrder(statuses: map<string, StatusValue>, a: string, b: string)
    requires a in statuses && b in statuses && KeyPrecedes(statuses, a, b)
    ensures StatusRank(statuses[a].status) <= StatusRank(statuses[b].status)
    ensures statuses[a].status == statuses[b].status == Elected
      ==> statuses[a].nbrRound <= statuses[b].nbrRound
    ensures statuses[a].status == statuses[b].status == Defeated
      ==> statuses[a].nbrRound >= statuses[b].nbrRound
    ensures statuses[a].status == statuses[b].status && statuses[a].nbrRound == statuses[b].nbrRound
      && statuses[a].votes.Some? && statuses[b].votes.Some?
      ==> statuses[a].votes.value.scaled >= statuses[b].votes.value.scaled
  {
    var ka, kb := GetSortKey(a, statuses), GetSortKey(b, statuses);
    assert CompareSortKeys(ka, kb) == CompareSortKeys(ka[1..], kb[1..]);
    if ka[1] == kb[1] {
      assert CompareSortKeys(ka[1..], kb[1..]) == CompareSortKeys(ka[2..], kb[2..]);
      if ka[2] == kb[2] {
        assert CompareSortKeys(ka[2..], kb[2..]) == CompareSortKeys(ka[3..], kb[3..]);
      }
    }
  }

  /** Positions in the rendered status order respect the status order. */
  lemma StatusesInOrder(keys: seq<string>, statuses: map<string, StatusValue>, i: nat, j: nat)
    requires i < j < |SortedKeys(keys, statuses)|
    requires SortedKeys(keys, statuses)[i] in statuses && SortedKeys(keys, statuses)[j] in statuses
    ensures var a, b := statuses[SortedKeys(keys, statuses)[i]], statuses[SortedKeys(keys, statuses)[j]];
      && StatusRank(a.status) <= StatusRank(b.status)
      && (a.status == b.status == Elected ==> a.nbrRound <= b.nbrRound)
      && (a.status == b.status == Defeated ==> a.nbrRound >= b.nbrRound)
  {
    var order := SortedKeys(keys, statuses);
    if order[i] != order[j] {
      assert Before(statuses)(order[i], order[j]);
      CandidateKeyOrder(statuses, order[i], order[j]);
    }
  }

  // ---------------------------------------------------------------------
  // getTallyOrderAsLookup
  // ---------------------------------------------------------------------

  /** `getTallyOrderAsLookup(tally, statuses)`: each key mapped to its
      position in the sorted order. */
  function GetTallyOrderAsLookup(keys: seq<string>, statuses: map<string, StatusValue>): (m: map<string, nat>)
    requires U.Distinct(keys)
    ensures m.Keys == set k | k in keys
    ensures forall k | k in m :: m[k] < |keys| && SortedKeys(keys, statuses)[m[k]] == k
  {
    var order := SortedKeys(keys, statuses);
    U.DistinctPermutation(keys, order);
    assert forall k :: k in order <==> k in multiset(order);
    U.Positions(order)
  }

  /** Lookup positions agree with the key order. */
  lemma LookupFollowsOrder(keys: seq<string>, statuses: map<string, StatusValue>, a: string, b: string)
    requires U.Distinct(keys) && a in keys && b in keys
    ensures var m := GetTallyOrderAsLookup(keys, statuses);
      m[a] < m[b] <==> KeyPrecedes(statuses, a, b)
  {
    var m := GetTallyOrderAsLookup(keys, statuses);
    var order := SortedKeys(keys, statuses);
    KeyPrecedesIsStrictTotalOrder(statuses);
    U.DistinctPermutation(keys, order);
    U.SortedPositions(order, Before(statuses), m[a], m[b]);
  }

  // ---------------------------------------------------------------------
  // Number and array text
  // ---------------------------------------------------------------------

  /** n written as m * 10^z with m not a multiple of ten. */
  function Significand(n: nat): (r: (nat, nat))
    requires n > 0
    ensures r.0 * Pow10(r.1) == n && r.0 % 10 != 0
  {
    if n % 10 != 0 then (n, 0)
    else
      var p := Significand(n / 10);
      MulTen(p.0, Pow10(p.1));
      (p.0, p.1 + 1)
  }

  /** The exponent form of d units, as JavaScript prints numbers below
      1e-6: the significant digits with '.' after the first, then 'e' and
      the power of ten, as in 1.1e-8. */
  function ExponentText(d: nat): string
    requires 0 < d
  {
    var p := Significand(d);
    var digits := NatToString(p.0);
    [digits[0]] + (if |digits| > 1 then "." + digits[1..] else "")
      + "e" + IntToString(p.1 + |digits| - 1 - 9)
  }

  /** A value as JavaScript prints the Number it stands for: the decimal
      rendering from 1e-6 upward in magnitude and for zero, the exponent
      form below. */
  function NumberText(x: Decimal9): string {
    if x.scaled == 0 || Abs(x.scaled) >= 1000 then D9.ToString(x)
    else (if x.scaled < 0 then "-" else "") + ExponentText(Abs(x.scaled))
  }

  /** The exponent form carries d's digits without trailing zeros, and its
      exponent is the power of ten of the first digit. */
  lemma ExponentTextValue(d: nat)
    requires 0 < d
    ensures var p := Significand(d);
      var digits := NatToString(p.0);
      DigitsValue(digits) * Pow10(p.1) == d && digits[|digits| - 1] != '0'
  {
    var p := Significand(d);
    NatToStringValue(p.0);
    var digits := NatToString(p.0);
    if p.0 >= 10 {
      assert digits[|digits| - 1] == DigitChar(p.0 % 10);
    }
  }

  /** From 1e-6 upward the text reads back as the value. */
  lemma NumberTextReadsBack(x: Decimal9)
    requires x.scaled == 0 || Abs(x.scaled) >= 1000
    ensures ParseDecimal(NumberText(x)) == Some(x)
  {
    D9.ToStringRoundTrip(x);
  }

  /** One entry of a rendered array: strings quoted, numbers as
      JavaScript prints them, null as null. */
  function CellText(c: Cell): string {
    match c
    case Text(s) => "\"" + s + "\""
    case Int(i) => IntToString(i)
    case Dec(x) => NumberText(x)
    case Nil => "null"
  }

  function JoinCells(cells: seq<Cell>): string {
    if cells == [] then ""
    else if |cells| == 1 then CellText(cells[0])
    else CellText(cells[0]) + ", " + JoinCells(cells[1..])
  }

  /** `[a, b, c]`. */
  function ArrayText(cells: seq<Cell>): string {
    "[" + JoinCells(cells) + "]"
  }

  /** The lines of a block, each but the last followed by a comma. */
  function WithCommas(lines: seq<string>): (r: seq<string>)
    ensures |r| == |lines|
    ensures forall i | 0 <= i < |lines| :: r[i] == lines[i] + (if i < |lines| - 1 then "," else "")
  {
    seq(|lines|, i requires 0 <= i < |lines| => lines[i] + (if i < |lines| - 1 then "," else ""))
  }

  /** The opening line, the item lines and the closing line, joined by
      newlines. */
  function Block(opening: string, lines: seq<string>, closing: string): string {
    U.Join([opening] + WithCommas(lines) + [closing], '\n')
  }

  // ---------------------------------------------------------------------
  // getElectedAsString, getStatusesAsString, getTallyAsString
  // ---------------------------------------------------------------------

  function Texts(ids: seq<string>): (r: seq<Cell>)
    ensures |r| == |ids| && forall i | 0 <= i < |ids| :: r[i] == Text(ids[i])
  {
    seq(|ids|, i requires 0 <= i < |ids| => Text(ids[i]))
  }

  /** `getElectedAsString(elected)`: `  "elected": ["A", "B", "E"]`. */
  function GetElectedAsString(elected: seq<string>): string {
    "  \"elected\": " + ArrayText(Texts(elected))
  }

  /** The three winners A, B and E render as `  "elected": ["A", "B", "E"]`. */
  lemma ElectedStringExample()
    ensures GetElectedAsString(["A", "B", "E"]) == "  \"elected\": [\"A\", \"B\", \"E\"]"
  {
    var cells := Texts(["A", "B", "E"]);
    assert cells == [Text("A"), Text("B"), Text("E")];
    assert cells[1..][1..] == [Text("E")];
    assert JoinCells(cells) == "\"A\", \"B\", \"E\"";
  }

  /** Joining the quoted entries of a list of IDs writes the list as
      QuotedList does. */
  lemma {:induction false} JoinTexts(ids: seq<string>)
    ensures JoinCells(Texts(ids)) == QuotedList(ids)
  {
    if |ids| > 1 {
      assert Texts(ids)[1..] == Texts(ids[1..]);
      JoinTexts(ids[1..]);
    }
  }

  /** For every list of IDs, the elected line is the opening text, the
      IDs quoted and comma-separated, and a closing bracket; when no ID
      holds a double quote, the bracketed part reads back as the list. */
  lemma ElectedStringReadsBack(elected: seq<string>)
    ensures GetElectedAsString(elected) == "  \"elected\": [" + QuotedList(elected) + "]"
    ensures NoQuotes(elected) ==>
      var s := GetElectedAsString(elected);
      |s| >= 15 && ParseQuotedList(s[14..|s| - 1]) == Some(elected)
  {
    JoinTexts(elected);
    var s := GetElectedAsString(elected);
    assert s[14..|s| - 1] == QuotedList(elected);
    if NoQuotes(elected) {
      QuotedListRoundTrip(elected);
    }
  }

  const STATUS_OPENING: string := "  \"status\": ["
  const STATUS_CLOSING: string := "  ]"
  const TALLY_OPENING: string := "  \"tally\": {"
  const TALLY_CLOSING: string := "  }"

  /** One status: its `asArray()` entries. */
  function StatusLine(s: StatusValue): string {
    "    " + ArrayText(AsArray(s))
  }

  /** One tally row: its key, then its entries. */
  function TallyLine(key: string, row: seq<Cell>): string {
    "    \"" + key + "\": " + ArrayText(row)
  }

  predicate AllIn<V>(keys: seq<string>, m: map<string, V>) {
    forall k | k in keys :: k in m
  }

  /** The sorted keys are the keys. */
  lemma SortedKeysMembers(keys: seq<string>, statuses: map<string, StatusValue>)
    ensures forall k :: k in SortedKeys(keys, statuses) <==> k in keys
  {
    var order := SortedKeys(keys, statuses);
    forall k ensures k in order <==> k in keys {
      assert k in order <==> k in multiset(order);
      assert k in keys <==> k in multiset(keys);
    }
  }

  lemma SortedKeysIn<V>(keys: seq<string>, statuses: map<string, StatusValue>, m: map<string, V>)
    requires AllIn(keys, m)
    ensures AllIn(SortedKeys(keys, statuses), m)
  {
    SortedKeysMembers(keys, statuses);
  }

  function StatusLines(order: seq<string>, statuses: map<string, StatusValue>): (r: seq<string>)
    requires AllIn(order, statuses)
    ensures |r| == |order|
    ensures forall i | 0 <= i < |order| :: r[i] == StatusLine(statuses[order[i]])
  {
    seq(|order|, i requires 0 <= i < |order| && AllIn(order, statuses) => StatusLine(statuses[order[i]]))
  }

  function TallyLines(order: seq<string>, tally: map<string, seq<Cell>>): (r: seq<string>)
    requires AllIn(order, tally)
    ensures |r| == |order|
    ensures forall i | 0 <= i < |order| :: r[i] == TallyLine(order[i], tally[order[i]])
  {
    seq(|order|, i requires 0 <= i < |order| && AllIn(order, tally) => TallyLine(order[i], tally[order[i]]))
  }

  /** `getStatusesAsString(statuses)`: one line per status, in sort-key
      order, between `"status": [` and `]`. */
  function GetStatusesAsString(keys: seq<string>, statuses: map<string, StatusValue>): string
    requires AllIn(keys, statuses)
  {
    SortedKeysIn(keys, statuses, statuses);
    var order := SortedKeys(keys, statuses);
    Block(STATUS_OPENING, StatusLines(order, statuses), STATUS_CLOSING)
  }

  /** `getTallyAsString(tally, statuses)`: one line per tally row, in
      sort-key order, between `"tally": {` and `}`. */
  function GetTallyAsString(keys: seq<string>, tally: map<string, seq<Cell>>,
                            statuses: map<string, StatusValue>): string
    requires AllIn(keys, tally)
  {
    SortedKeysIn(keys, statuses, tally);
    var order := SortedKeys(keys, statuses);
    Block(TALLY_OPENING, TallyLines(order, tally), TALLY_CLOSING)
  }

  // ---------------------------------------------------------------------
  // Reading the renderings back line by line
  // ---------------------------------------------------------------------

  lemma SignificantDigitsHaveNoNewline(d: nat)
    requires 0 < d
    ensures '\n' !in ExponentText(d)
  {
    var p := Significand(d);
    var digits := NatToString(p.0);
    AllDigitsHasNo(digits, '\n');
    IntToStringHasNo(p.1 + |digits| - 1 - 9, '\n');
    var mantissa := [digits[0]] + (if |digits| > 1 then "." + digits[1..] else "");
    assert '\n' !in mantissa by {
      if |digits| > 1 {
        assert mantissa == [digits[0]] + "." + digits[1..];
      }
    }
  }

  lemma CellTextHasNoNewline(c: Cell)
    requires c.Text? ==> '\n' !in c.s
    ensures '\n' !in CellText(c)
  {
    match c
    case Text(s) =>
    case Int(i) => IntToStringHasNo(i, '\n');
    case Dec(x) =>
      if x.scaled == 0 || Abs(x.scaled) >= 1000 {
        D9.ToStringHasNo(x, '\n');
      } else {
        SignificantDigitsHaveNoNewline(Abs(x.scaled));
      }
    case Nil =>
  }

  predicate NoNewlineTexts(cells: seq<Cell>) {
    forall i | 0 <= i < |cells| :: cells[i].Text? ==> '\n' !in cells[i].s
  }

  lemma {:induction false} ArrayTextHasNoNewline(cells: seq<Cell>)
    requires NoNewlineTexts(cells)
    ensures '\n' !in ArrayText(cells)
  {
    JoinCellsHasNoNewline(cells);
  }

  lemma {:induction false} JoinCellsHasNoNewline(cells: seq<Cell>)
    requires NoNewlineTexts(cells)
    ensures '\n' !in JoinCells(cells)
  {
    if cells != [] {
      CellTextHasNoNewline(cells[0]);
      if |cells| > 1 {
        JoinCellsHasNoNewline(cells[1..]);
      }
    }
  }

  lemma BlockLines(opening: string, lines: seq<string>, closing: string)
    requires '\n' !in opening && '\n' !in closing
    requires forall i | 0 <= i < |lines| :: '\n' !in lines[i]
    ensures var parts := U.Split(Block(opening, lines, closing), '\n');
      && |parts| == |lines| + 2
      && parts[0] == opening && parts[|lines| + 1] == closing
      && forall i | 0 <= i < |lines| ::
           parts[i + 1] == lines[i] + (if i < |lines| - 1 then "," else "")
  {
    var parts := [opening] + WithCommas(lines) + [closing];
    U.SplitJoin(parts, '\n');
  }

  /** No candidate ID, and so no status line, holds a line break. */
  predicate NoNewlineIds(keys: seq<string>, statuses: map<string, StatusValue>) {
    forall k | k in keys && k in statuses :: '\n' !in k && '\n' !in statuses[k].candidate
  }

  lemma StatusLineHasNoNewline(s: StatusValue)
    requires '\n' !in s.candidate
    ensures '\n' !in StatusLine(s)
  {
    var cells := AsArray(s);
    assert '\n' !in StatusText(s.status) && '\n' !in DestinyText(s.destiny);
    assert NoNewlineTexts(cells);
    ArrayTextHasNoNewline(cells);
  }

  /** The block of status lines over a given key order. */
  lemma StatusBlockLines(order: seq<string>, statuses: map<string, StatusValue>)
    requires AllIn(order, statuses) && NoNewlineIds(order, statuses)
    ensures var parts := U.Split(Block(STATUS_OPENING, StatusLines(order, statuses), STATUS_CLOSING), '\n');
      && |parts| == |order| + 2
      && parts[0] == STATUS_OPENING && parts[|order| + 1] == STATUS_CLOSING
      && forall i | 0 <= i < |order| ::
           parts[i + 1] == StatusLine(statuses[order[i]]) + (if i < |order| - 1 then "," else "")
  {
    var lines := StatusLines(order, statuses);
    forall i | 0 <= i < |order| ensures '\n' !in lines[i] {
      StatusLineHasNoNewline(statuses[order[i]]);
    }
    BlockLines(STATUS_OPENING, lines, STATUS_CLOSING);
  }

  lemma SortedNoNewlineIds(keys: seq<string>, statuses: map<string, StatusValue>)
    requires NoNewlineIds(keys, statuses)
    ensures NoNewlineIds(SortedKeys(keys, statuses), statuses)
  {
    SortedKeysMembers(keys, statuses);
  }

  /** The statuses text has one line per status, in sort-key order, between
      the opening and the closing line. */
  lemma StatusesAsStringLines(keys: seq<string>, statuses: map<string, StatusValue>)
    requires AllIn(keys, statuses) && NoNewlineIds(keys, statuses)
    ensures AllIn(SortedKeys(keys, statuses), statuses)
    ensures var parts := U.Split(GetStatusesAsString(keys, statuses), '\n');
      var order := SortedKeys(keys, statuses);
      && |parts| == |keys| + 2
      && parts[0] == STATUS_OPENING && parts[|keys| + 1] == STATUS_CLOSING
      && forall i | 0 <= i < |keys| ::
           parts[i + 1] == StatusLine(statuses[order[i]]) + (if i < |keys| - 1 then "," else "")
  {
    SortedKeysIn(keys, statuses, statuses);
    SortedNoNewlineIds(keys, statuses);
    StatusBlockLines(SortedKeys(keys, statuses), statuses);
  }

  /** No tally key or string entry holds a line break. */
  predicate NoNewlineRows(keys: seq<string>, tally: map<string, seq<Cell>>) {
    forall k | k in keys && k in tally :: '\n' !in k && NoNewlineTexts(tally[k])
  }

  /** The block of tally lines over a given key order. */
  lemma TallyBlockLines(order: seq<string>, tally: map<string, seq<Cell>>)
    requires AllIn(order, tally) && NoNewlineRows(order, tally)
    ensures var parts := U.Split(Block(TALLY_OPENING, TallyLines(order, tally), TALLY_CLOSING), '\n');
      && |parts| == |order| + 2
      && parts[0] == TALLY_OPENING && parts[|order| + 1] == TALLY_CLOSING
      && forall i | 0 <= i < |order| ::
           parts[i + 1] == TallyLine(order[i], tally[order[i]]) + (if i < |order| - 1 then "," else "")
  {
    var lines := TallyLines(order, tally);
    forall i | 0 <= i < |order| ensures '\n' !in lines[i] {
      ArrayTextHasNoNewline(tally[order[i]]);
    }
    BlockLines(TALLY_OPENING, lines, TALLY_CLOSING);
  }

  lemma SortedNoNewlineRows(keys: seq<string>, tally: map<string, seq<Cell>>, statuses: map<string, StatusValue>)
    requires NoNewlineRows(keys, tally)
    ensures NoNewlineRows(SortedKeys(keys, statuses), tally)
  {
    SortedKeysMembers(keys, statuses);
  }

  /** The tally text has one line per row, in sort-key order, between the
      opening and the closing line. */
  lemma TallyAsStringLines(keys: seq<string>, tally: map<string, seq<Cell>>, statuses: map<string, StatusValue>)
    requires AllIn(keys, tally) && NoNewlineRows(keys, tally)
    ensures AllIn(SortedKeys(keys, statuses), tally)
    ensures var parts := U.Split(GetTallyAsString(keys, tally, statuses), '\n');
      var order := SortedKeys(keys, statuses);
      && |parts| == |keys| + 2
      && parts[0] == TALLY_OPENING && parts[|keys| + 1] == TALLY_CLOSING
      && forall i | 0 <= i < |keys| ::
           parts[i + 1] == TallyLine(order[i], tally[order[i]]) + (if i < |keys| - 1 then "," else "")
  {
    SortedKeysIn(keys, statuses, tally);
    SortedNoNewlineRows(keys, tally, statuses);
    TallyBlockLines(SortedKeys(keys, statuses), tally);
  }
}
