/** Basic utilities: indenting a message, normalising a delimited string
    or an array into an array of strings, the order-keeping set operations,
    and the sorted list of an object's keys. */
module UtilBasic {
  import opened Wrappers
  import opened JsValues
  import opened Digits

  // ---------------------------------------------------------------------
  // indentMessage
  // ---------------------------------------------------------------------

  /** The indent used when none is given. */
  const DEFAULT_INDENT: nat := 2

  function Spaces(n: nat): (s: string)
    ensures |s| == n
    ensures forall i | 0 <= i < n :: s[i] == ' '
  {
    if n == 0 then [] else [' '] + Spaces(n - 1)
  }

  /** The message with n spaces after every newline that is not its last
      character. */
  function IndentBody(m: string, n: nat): (t: string)
    ensures |t| >= |m|
  {
    if m == [] then []
    else if m[0] == '\n' && |m| > 1 then "\n" + Spaces(n) + IndentBody(m[1..], n)
    else [m[0]] + IndentBody(m[1..], n)
  }

  /** `indentMessage(m, n)`: n spaces at the start of every line; a final
      newline starts no new line. IndentLines says line by line where the
      spaces go. */
  function IndentMessage(m: string, n: nat): (t: string)
    ensures |t| >= |m| + n
    ensures t[..n] == Spaces(n)
  {
    Spaces(n) + IndentBody(m, n)
  }

  /** `indentMessage(m)`: without an indent, two spaces. */
  function IndentMessageDefault(m: string): (t: string)
    ensures |t| >= |m| + 2 && t[..2] == "  "
    ensures Dedent(t, 2) == m
  {
    IndentRoundTrip(m, DEFAULT_INDENT);
    IndentMessage(m, DEFAULT_INDENT)
  }

  /** The lines of an indented message: each line of ps with n spaces in
      front, except the empty piece after a final newline. */
  function IndentPieces(ps: seq<string>, n: nat): (qs: seq<string>)
    requires |ps| >= 1
    ensures |qs| == |ps|
    ensures forall i | 0 <= i < |ps| ::
      qs[i] == (if 0 < i == |ps| - 1 && ps[i] == [] then [] else Spaces(n) + ps[i])
  {
    if |ps| == 1 then [Spaces(n) + ps[0]]
    else if |ps| == 2 && ps[1] == [] then [Spaces(n) + ps[0], []]
    else [Spaces(n) + ps[0]] + IndentPieces(ps[1..], n)
  }

  /** A piece without newlines passes through IndentBody unchanged. */
  lemma {:induction false} IndentBodyPlain(p: string, t: string, n: nat)
    requires '\n' !in p
    ensures IndentBody(p + t, n) == p + IndentBody(t, n)
  {
    if p == [] {
      assert p + t == t;
    } else {
      var s := p + t;
      assert s[0] == p[0] && p[0] != '\n';
      assert s[1..] == p[1..] + t;
      assert IndentBody(s, n) == [p[0]] + IndentBody(p[1..] + t, n);
      assert '\n' !in p[1..] by {
        assert forall k | 0 <= k < |p[1..]| :: p[1..][k] == p[k + 1];
      }
      IndentBodyPlain(p[1..], t, n);
      assert p == [p[0]] + p[1..];
    }
  }

  /** Indenting the joined lines joins the indented lines. */
  lemma {:induction false} IndentJoin(parts: seq<string>, n: nat)
    requires |parts| >= 1
    requires forall i | 0 <= i < |parts| :: '\n' !in parts[i]
    ensures IndentMessage(Join(parts, '\n'), n) == Join(IndentPieces(parts, n), '\n')
  {
    var p := parts[0];
    if |parts| == 1 {
      IndentBodyPlain(p, [], n);
      assert p + [] == p;
    } else {
      var tail := parts[1..];
      var rest := Join(tail, '\n');
      assert Join(parts, '\n') == p + ("\n" + rest);
      IndentBodyPlain(p, "\n" + rest, n);
      if rest == [] {
        assert |tail| == 1 && tail[0] == [];
        assert IndentBody("\n", n) == "\n";
      } else {
        IndentJoin(tail, n);
        assert ("\n" + rest)[1..] == rest;
        assert IndentPieces(parts, n)[1..] == IndentPieces(tail, n);
      }
    }
  }

  /** Line by line, the indented message is each line of m with n spaces
      in front; the empty piece after a final newline stays empty. */
  lemma IndentLines(m: string, n: nat)
    ensures var ps := Split(m, '\n'); var qs := Split(IndentMessage(m, n), '\n');
      |qs| == |ps|
      && forall i | 0 <= i < |ps| ::
        qs[i] == (if 0 < i == |ps| - 1 && ps[i] == [] then [] else Spaces(n) + ps[i])
  {
    var ps := Split(m, '\n');
    JoinSplit(m, '\n');
    IndentJoin(ps, n);
    var qs := IndentPieces(ps, n);
    forall i | 0 <= i < |qs| ensures '\n' !in qs[i] {
      assert '\n' !in Spaces(n);
    }
    SplitJoin(qs, '\n');
  }

  /** Removes the n spaces that follow each inner newline. */
  function DedentBody(t: string, n: nat): string
    decreases |t|
  {
    if t == [] then []
    else if t[0] == '\n' && |t| > n + 1 && t[1..n + 1] == Spaces(n) then "\n" + DedentBody(t[n + 1..], n)
    else [t[0]] + DedentBody(t[1..], n)
  }

  /** Removes an indent of n spaces from every line. */
  function Dedent(t: string, n: nat): string {
    if |t| >= n && t[..n] == Spaces(n) then DedentBody(t[n..], n) else DedentBody(t, n)
  }

  lemma {:induction false} DedentIndentBody(m: string, n: nat)
    ensures DedentBody(IndentBody(m, n), n) == m
  {
    if m != [] {
      DedentIndentBody(m[1..], n);
      var rest := IndentBody(m[1..], n);
      if m[0] == '\n' && |m| > 1 {
        var t := "\n" + Spaces(n) + rest;
        assert t[1..n + 1] == Spaces(n);
        assert t[n + 1..] == rest;
      } else {
        var t := [m[0]] + rest;
        assert t[1..] == rest;
      }
    }
  }

  /** Removing the indent gives back the message: indenting loses nothing. */
  lemma IndentRoundTrip(m: string, n: nat)
    ensures Dedent(IndentMessage(m, n), n) == m
  {
    var t := IndentMessage(m, n);
    assert t[..n] == Spaces(n);
    assert t[n..] == IndentBody(m, n);
    DedentIndentBody(m, n);
  }

  /** An indent of zero spaces changes nothing. */
  lemma IndentZero(m: string)
    ensures IndentMessage(m, 0) == m
  {
    IndentBodyZero(m);
    assert Spaces(0) == [];
  }

  lemma {:induction false} IndentBodyZero(m: string)
    ensures IndentBody(m, 0) == m
  {
    if m != [] {
      IndentBodyZero(m[1..]);
      assert Spaces(0) == [];
      assert IndentBody(m, 0) == [m[0]] + IndentBody(m[1..], 0);
      assert m == [m[0]] + m[1..];
    }
  }

  // ---------------------------------------------------------------------
  // toArrayOfStrings
  // ---------------------------------------------------------------------

  /** The pieces of s between the occurrences of d; there is always at
      least one piece, and no piece holds d. */
  function Split(s: string, d: char): (r: seq<string>)
    ensures |r| >= 1
    ensures forall i | 0 <= i < |r| :: d !in r[i]
  {
    if s == [] then [""]
    else
      var rest := Split(s[1..], d);
      if s[0] == d then [""] + rest else [[s[0]] + rest[0]] + rest[1..]
  }

  /** The pieces joined with d between each two. */
  function Join(parts: seq<string>, d: char): string
    requires |parts| >= 1
  {
    if |parts| == 1 then parts[0] else parts[0] + [d] + Join(parts[1..], d)
  }

  lemma JoinCons(c: char, rest: seq<string>, d: char)
    requires |rest| >= 1
    ensures Join([[c] + rest[0]] + rest[1..], d) == [c] + Join(rest, d)
  {
    var ps := [[c] + rest[0]] + rest[1..];
    if |rest| > 1 {
      assert ps[1..] == rest[1..];
    }
  }

  /** Joining the pieces gives back the string. */
  lemma {:induction false} JoinSplit(s: string, d: char)
    ensures Join(Split(s, d), d) == s
  {
    if s != [] {
      JoinSplit(s[1..], d);
      var rest := Split(s[1..], d);
      if s[0] == d {
        assert ([""] + rest)[1..] == rest;
        assert s == [d] + s[1..];
      } else {
        JoinCons(s[0], rest, d);
        assert s == [s[0]] + s[1..];
      }
    }
  }

  /** A string without the delimiter is a single piece. */
  lemma {:induction false} SplitNoDelimiter(p: string, d: char)
    requires d !in p
    ensures Split(p, d) == [p]
  {
    if p != [] {
      SplitNoDelimiter(p[1..], d);
      assert p == [p[0]] + p[1..];
    }
  }

  /** A delimiter after a piece without delimiters ends that piece. */
  lemma {:induction false} SplitAfterPiece(p: string, t: string, d: char)
    requires d !in p
    ensures Split(p + [d] + t, d) == [p] + Split(t, d)
  {
    var s := p + [d] + t;
    if p == [] {
      assert s[1..] == t;
    } else {
      assert s[1..] == p[1..] + [d] + t;
      SplitAfterPiece(p[1..], t, d);
      assert p == [p[0]] + p[1..];
    }
  }

  /** Splitting the joined pieces gives back the pieces when no piece
      holds the delimiter. */
  lemma {:induction false} SplitJoin(parts: seq<string>, d: char)
    requires |parts| >= 1
    requires forall i | 0 <= i < |parts| :: d !in parts[i]
    ensures Split(Join(parts, d), d) == parts
  {
    if |parts| == 1 {
      SplitNoDelimiter(parts[0], d);
    } else {
      SplitJoin(parts[1..], d);
      SplitAfterPiece(parts[0], Join(parts[1..], d), d);
      assert parts == [parts[0]] + parts[1..];
    }
  }

  /** A delimited string: its first character is the delimiter of the rest;
      the empty string holds no items. */
  function SplitDelimited(s: string): (r: seq<string>)
    ensures s != [] ==> |r| >= 1
  {
    if s == [] then [] else Split(s[1..], s[0])
  }

  const ERR_NOT_STRING_OR_ARRAY: string := "Value is not a string or array"
  const ERR_ITEM_NOT_STRING: string := "Array has an item that is not a string"

  /** `toArrayOfStrings`: a string or String is split by its first
      character; an array must hold only strings; anything else fails. */
  function ToArrayOfStrings(v: Js): (r: Result<seq<string>>)
    ensures r.Err? <==> !(IsString(v) || (v.JArr? && AllStrings(v.items)))
    ensures r.Err? ==> r.error.errorClass == UtilValueError
    ensures v.JArr? && !AllStrings(v.items) ==> r.error.message == ERR_ITEM_NOT_STRING
    ensures !IsString(v) && !v.JArr? ==> r.error.message == ERR_NOT_STRING_OR_ARRAY
    ensures IsString(v) && v.s != [] ==> r.Ok? && |r.value| >= 1 && Join(r.value, v.s[0]) == v.s[1..]
    ensures IsString(v) && v.s == [] ==> r == Ok([])
    ensures v.JArr? && AllStrings(v.items) ==> r == Ok(Strings(v.items))
  {
    match v
    case JStr(s) => JoinSplit(SplitDelimitedTail(s), DelimiterOf(s)); Ok(SplitDelimited(s))
    case JStrObj(s) => JoinSplit(SplitDelimitedTail(s), DelimiterOf(s)); Ok(SplitDelimited(s))
    case JArr(items) =>
      if AllStrings(items) then Ok(Strings(items))
      else Err(Failure(UtilValueError, ERR_ITEM_NOT_STRING))
    case _ => Err(Failure(UtilValueError, ERR_NOT_STRING_OR_ARRAY))
  }

  function DelimiterOf(s: string): char { if s == [] then ' ' else s[0] }

  function SplitDelimitedTail(s: string): string { if s == [] then [] else s[1..] }

  /** The items come back from any delimiter they do not hold, and from an
      array of strings. */
  lemma ToArrayOfStringsRoundTrip(parts: seq<string>, d: char)
    requires |parts| >= 1
    requires forall i | 0 <= i < |parts| :: d !in parts[i]
    ensures ToArrayOfStrings(JStr([d] + Join(parts, d))) == Ok(parts)
    ensures ToArrayOfStrings(JStrObj([d] + Join(parts, d))) == Ok(parts)
    ensures ToArrayOfStrings(JArr(FromStrings(parts))) == Ok(parts)
  {
    var s := [d] + Join(parts, d);
    assert s[1..] == Join(parts, d);
    SplitJoin(parts, d);
    StringsRoundTrip(parts, []);
  }

  // ---------------------------------------------------------------------
  // setUnion, setIntersection, setDifference
  // ---------------------------------------------------------------------

  predicate Distinct<T(==,!new)>(s: seq<T>) {
    forall i, j | 0 <= i < j < |s| :: s[i] != s[j]
  }

  /** Each ID mapped to its 0-based position in ids: the inverse of
      indexing a list without repeats. */
  function Positions(ids: seq<string>): (m: map<string, nat>)
    requires Distinct(ids)
    ensures m.Keys == set i | 0 <= i < |ids| :: ids[i]
    ensures forall i | 0 <= i < |ids| :: ids[i] in m && m[ids[i]] == i
    ensures forall k | k in m :: m[k] < |ids| && ids[m[k]] == k
  {
    var m := map k | k in ids :: FirstIndex(ids, k);
    assert forall i | 0 <= i < |ids| :: FirstIndex(ids, ids[i]) == i;
    m
  }

  /** The position of the first occurrence of x in s. */
  function FirstIndex<T(==,!new)>(s: seq<T>, x: T): (i: nat)
    requires x in s
    ensures i < |s| && s[i] == x && x !in s[..i]
  {
    if s[0] == x then 0 else 1 + FirstIndex(s[1..], x)
  }

  /** The elements of s not in `seen` whose membership in b is `inB`, each
      once, in the order of their first occurrence in s. */
  function Select<T(==,!new)>(s: seq<T>, seen: set<T>, b: seq<T>, inB: bool): seq<T> {
    if s == [] then []
    else if s[0] !in seen && (s[0] in b) == inB then [s[0]] + Select(s[1..], seen + {s[0]}, b, inB)
    else Select(s[1..], seen, b, inB)
  }

  /** Select keeps exactly the wanted elements. */
  lemma {:induction false} SelectMembers<T(!new)>(s: seq<T>, seen: set<T>, b: seq<T>, inB: bool)
    ensures forall x :: x in Select(s, seen, b, inB) <==> x in s && x !in seen && (x in b) == inB
  {
    if s != [] {
      var x := s[0];
      assert s == [x] + s[1..];
      if x !in seen && (x in b) == inB {
        SelectMembers(s[1..], seen + {x}, b, inB);
      } else {
        SelectMembers(s[1..], seen, b, inB);
      }
    }
  }

  /** Select keeps each wanted element once. */
  lemma {:induction false} SelectDistinct<T(!new)>(s: seq<T>, seen: set<T>, b: seq<T>, inB: bool)
    ensures Distinct(Select(s, seen, b, inB))
  {
    if s != [] {
      var x := s[0];
      if x !in seen && (x in b) == inB {
        SelectDistinct(s[1..], seen + {x}, b, inB);
        SelectMembers(s[1..], seen + {x}, b, inB);
        var rest := Select(s[1..], seen + {x}, b, inB);
        var r := [x] + rest;
        forall i, j | 0 <= i < j < |r| ensures r[i] != r[j] {
          assert r[j] == rest[j - 1];
          if i > 0 {
            assert r[i] == rest[i - 1];
          }
        }
      } else {
        SelectDistinct(s[1..], seen, b, inB);
      }
    }
  }

  /** Select keeps the order of first occurrence in s. */
  lemma {:induction false} SelectOrder<T(!new)>(s: seq<T>, seen: set<T>, b: seq<T>, inB: bool, i: nat, j: nat)
    requires i < j < |Select(s, seen, b, inB)|
    ensures Select(s, seen, b, inB)[i] in s && Select(s, seen, b, inB)[j] in s
    ensures FirstIndex(s, Select(s, seen, b, inB)[i]) < FirstIndex(s, Select(s, seen, b, inB)[j])
    decreases |s|, 1
  {
    var x := s[0];
    if x !in seen && (x in b) == inB {
      SelectOrderTaken(s, seen, b, inB, i, j);
    } else {
      var rest := Select(s[1..], seen, b, inB);
      assert Select(s, seen, b, inB) == rest;
      FirstIndexAfterHead(s, seen, b, inB, i);
      FirstIndexAfterHead(s, seen, b, inB, j);
      SelectOrder(s[1..], seen, b, inB, i, j);
    }
  }

  /** SelectOrder when the head of s is taken. */
  lemma {:induction false} SelectOrderTaken<T(!new)>(s: seq<T>, seen: set<T>, b: seq<T>, inB: bool, i: nat, j: nat)
    requires s != [] && s[0] !in seen && (s[0] in b) == inB
    requires i < j < |Select(s, seen, b, inB)|
    ensures Select(s, seen, b, inB)[i] in s && Select(s, seen, b, inB)[j] in s
    ensures FirstIndex(s, Select(s, seen, b, inB)[i]) < FirstIndex(s, Select(s, seen, b, inB)[j])
    decreases |s|, 0
  {
    var x := s[0];
    var seen' := seen + {x};
    var rest := Select(s[1..], seen', b, inB);
    var r := Select(s, seen, b, inB);
    assert r == [x] + rest;
    assert r[j] == rest[j - 1];
    FirstIndexAfterHead(s, seen', b, inB, j - 1);
    if i > 0 {
      assert r[i] == rest[i - 1];
      FirstIndexAfterHead(s, seen', b, inB, i - 1);
      SelectOrder(s[1..], seen', b, inB, i - 1, j - 1);
    } else {
      assert r[i] == x && FirstIndex(s, x) == 0;
    }
  }

  /** An element selected from the tail of s, when the head of s is not
      wanted, is found one position later in s than in the tail. */
  lemma FirstIndexAfterHead<T(!new)>(s: seq<T>, seen: set<T>, b: seq<T>, inB: bool, k: nat)
    requires s != [] && (s[0] in seen || (s[0] in b) != inB) && k < |Select(s[1..], seen, b, inB)|
    ensures var y := Select(s[1..], seen, b, inB)[k];
      y in s[1..] && y in s && FirstIndex(s, y) == 1 + FirstIndex(s[1..], y)
  {
    SelectMembers(s[1..], seen, b, inB);
    var y := Select(s[1..], seen, b, inB)[k];
    assert y in Select(s[1..], seen, b, inB);
    assert y != s[0];
  }

  lemma SelectSpec<T(!new)>(s: seq<T>, seen: set<T>, b: seq<T>, inB: bool)
    ensures var r := Select(s, seen, b, inB);
      Distinct(r)
      && (forall x :: x in r <==> x in s && x !in seen && (x in b) == inB)
      && (forall i, j | 0 <= i < j < |r| :: FirstIndex(s, r[i]) < FirstIndex(s, r[j]))
  {
    SelectMembers(s, seen, b, inB);
    SelectDistinct(s, seen, b, inB);
    var r := Select(s, seen, b, inB);
    forall i, j | 0 <= i < j < |r| ensures FirstIndex(s, r[i]) < FirstIndex(s, r[j]) {
      SelectOrder(s, seen, b, inB, i, j);
    }
  }

  /** `setUnion(a, b)`: every element of a or b once, in first-occurrence
      order over a then b. */
  function SetUnion<T(==,!new)>(a: seq<T>, b: seq<T>): (r: seq<T>)
    ensures Distinct(r)
    ensures forall x :: x in r <==> x in a || x in b
    ensures forall i, j | 0 <= i < j < |r| :: FirstIndex(a + b, r[i]) < FirstIndex(a + b, r[j])
  {
    SelectSpec(a + b, {}, [], false);
    Select(a + b, {}, [], false)
  }

  /** `setIntersection(a, b)`: the elements of a that occur in b, once each,
      in a's order. */
  function SetIntersection<T(==,!new)>(a: seq<T>, b: seq<T>): (r: seq<T>)
    ensures Distinct(r)
    ensures forall x :: x in r <==> x in a && x in b
    ensures forall i, j | 0 <= i < j < |r| :: FirstIndex(a, r[i]) < FirstIndex(a, r[j])
  {
    SelectSpec(a, {}, b, true);
    Select(a, {}, b, true)
  }

  /** `setDifference(a, b)`: the elements of a that do not occur in b, once
      each, in a's order. */
  function SetDifference<T(==,!new)>(a: seq<T>, b: seq<T>): (r: seq<T>)
    ensures Distinct(r)
    ensures forall x :: x in r <==> x in a && x !in b
    ensures forall i, j | 0 <= i < j < |r| :: FirstIndex(a, r[i]) < FirstIndex(a, r[j])
  {
    SelectSpec(a, {}, b, false);
    Select(a, {}, b, false)
  }

  // ---------------------------------------------------------------------
  // getSortedKeys
  // ---------------------------------------------------------------------

  /** Code-unit order on strings, the order of JavaScript's `<`. */
  predicate LexLess(a: string, b: string) {
    if a == [] then b != []
    else if b == [] then false
    else if a[0] != b[0] then a[0] < b[0]
    else LexLess(a[1..], b[1..])
  }

  lemma {:induction false} LexLessIrreflexive(a: string)
    ensures !LexLess(a, a)
  {
    if a != [] {
      LexLessIrreflexive(a[1..]);
    }
  }

  lemma {:induction false} LexLessTransitive(a: string, b: string, c: string)
    requires LexLess(a, b) && LexLess(b, c)
    ensures LexLess(a, c)
  {
    if a != [] && b != [] && c != [] && a[0] == b[0] && b[0] == c[0] {
      LexLessTransitive(a[1..], b[1..], c[1..]);
    }
  }

  lemma {:induction false} LexLessTotal(a: string, b: string)
    ensures a == b || LexLess(a, b) || LexLess(b, a)
  {
    if a != [] && b != [] && a[0] == b[0] {
      LexLessTotal(a[1..], b[1..]);
      if a[1..] == b[1..] {
        assert a == [a[0]] + a[1..] && b == [b[0]] + b[1..];
      }
    }
  }

  /** A canonical integer key: "0", or digits not starting with '0', with
      an optional '-' before a nonzero value. */
  predicate IsIntegerKey(k: string) {
    (|k| >= 1 && AllDigits(k) && (k[0] != '0' || |k| == 1))
    || (|k| >= 2 && k[0] == '-' && AllDigits(k[1..]) && k[1] != '0')
  }

  function IntegerKeyValue(k: string): int
    requires IsIntegerKey(k)
  {
    if k[0] == '-' then -(DigitsValue(k[1..]) as int) else DigitsValue(k)
  }

  /** The key order: integer keys first, by value; then the other keys by
      code units. Equal values are ordered by code units, which never
      happens between two different canonical keys but keeps the order
      total without that fact. */
  predicate KeyBefore(a: string, b: string) {
    if IsIntegerKey(a) && IsIntegerKey(b) then
      IntegerKeyValue(a) < IntegerKeyValue(b)
      || (IntegerKeyValue(a) == IntegerKeyValue(b) && LexLess(a, b))
    else if IsIntegerKey(a) then true
    else if IsIntegerKey(b) then false
    else LexLess(a, b)
  }

  /** KeyBefore is a strict total order. */
  lemma KeyOrder(a: string, b: string, c: string)
    ensures !KeyBefore(a, a)
    ensures KeyBefore(a, b) && KeyBefore(b, c) ==> KeyBefore(a, c)
    ensures a == b || KeyBefore(a, b) || KeyBefore(b, a)
  {
    LexLessIrreflexive(a);
    LexLessTotal(a, b);
    if KeyBefore(a, b) && KeyBefore(b, c) && LexLess(a, b) && LexLess(b, c) {
      LexLessTransitive(a, b, c);
    }
  }

  // ---------------------------------------------------------------------
  // Sorting by a comparator (Array.prototype.sort with a total order)
  // ---------------------------------------------------------------------

  /** `before` is irreflexive, transitive and total. */
  ghost predicate StrictTotalOrder<T(!new)>(before: (T, T) -> bool) {
    && (forall a :: !before(a, a))
    && (forall a, b, c :: before(a, b) && before(b, c) ==> before(a, c))
    && (forall a, b :: a == b || before(a, b) || before(b, a))
  }

  /** Each element is equal to or before every later one. */
  predicate SortedBy<T(==)>(s: seq<T>, before: (T, T) -> bool) {
    forall i, j | 0 <= i < j < |s| :: s[i] == s[j] || before(s[i], s[j])
  }

  /** x placed in front of the first element it comes before. */
  function InsertBy<T(==,!new)>(x: T, s: seq<T>, before: (T, T) -> bool): (r: seq<T>)
    requires StrictTotalOrder(before) && SortedBy(s, before)
    ensures SortedBy(r, before)
    ensures multiset(r) == multiset(s) + multiset{x}
    ensures |r| == |s| + 1
  {
    if s == [] then [x]
    else if x == s[0] || before(x, s[0]) then
      InsertFront(x, s, before);
      [x] + s
    else
      assert before(s[0], x);
      var rest := InsertBy(x, s[1..], before);
      InsertBehind(x, s, rest, before);
      [s[0]] + rest
  }

  lemma InsertFront<T(!new)>(x: T, s: seq<T>, before: (T, T) -> bool)
    requires StrictTotalOrder(before) && SortedBy(s, before)
    requires s != [] && (x == s[0] || before(x, s[0]))
    ensures SortedBy([x] + s, before)
  {
    var r := [x] + s;
    forall j | 0 < j < |r| ensures r[0] == r[j] || before(r[0], r[j]) {
      assert r[j] == s[j - 1];
      assert s[0] == s[j - 1] || before(s[0], s[j - 1]);
    }
  }

  lemma InsertBehind<T(!new)>(x: T, s: seq<T>, rest: seq<T>, before: (T, T) -> bool)
    requires StrictTotalOrder(before) && SortedBy(s, before)
    requires s != [] && before(s[0], x)
    requires SortedBy(rest, before) && multiset(rest) == multiset(s[1..]) + multiset{x}
    ensures SortedBy([s[0]] + rest, before)
    ensures multiset([s[0]] + rest) == multiset(s) + multiset{x}
  {
    assert s == [s[0]] + s[1..];
    var r := [s[0]] + rest;
    forall j | 0 < j < |r| ensures r[0] == r[j] || before(r[0], r[j]) {
      assert r[j] in multiset(rest);
      if r[j] != x {
        assert r[j] in multiset(s[1..]);
        var k :| 0 <= k < |s[1..]| && s[1..][k] == r[j];
        assert s[1 + k] == r[j];
      }
    }
  }

  /** The elements of s in the order `before`. */
  function SortBy<T(==,!new)>(s: seq<T>, before: (T, T) -> bool): (r: seq<T>)
    requires StrictTotalOrder(before)
    ensures SortedBy(r, before)
    ensures multiset(r) == multiset(s)
    ensures |r| == |s|
  {
    if s == [] then []
    else
      assert s == [s[0]] + s[1..];
      InsertBy(s[0], SortBy(s[1..], before), before)
  }

  /** In a sorted list without repeats, position order is the order
      `before`. */
  lemma SortedPositions<T(!new)>(s: seq<T>, before: (T, T) -> bool, i: nat, j: nat)
    requires StrictTotalOrder(before) && SortedBy(s, before) && Distinct(s)
    requires i < |s| && j < |s|
    ensures i < j <==> before(s[i], s[j])
  {
    if j < i {
      assert before(s[j], s[i]);
    }
  }

  /** A rearrangement of a list without repeats has no repeats. */
  lemma DistinctPermutation<T(!new)>(s: seq<T>, t: seq<T>)
    requires Distinct(s) && multiset(s) == multiset(t)
    ensures Distinct(t)
  {
    forall i, j | 0 <= i < j < |t| ensures t[i] != t[j] {
      if t[i] == t[j] {
        assert t == t[..j] + t[j..];
        assert t[i] in multiset(t[..j]) && t[j] in multiset(t[j..]);
        assert multiset(t)[t[i]] >= 2;
        DistinctCount(s, t[i]);
        assert false;
      }
    }
  }

  lemma {:induction false} DistinctCount<T(!new)>(s: seq<T>, x: T)
    requires Distinct(s)
    ensures multiset(s)[x] <= 1
  {
    if s != [] {
      assert s == [s[0]] + s[1..];
      assert Distinct(s[1..]);
      DistinctCount(s[1..], x);
      assert s[0] !in s[1..];
    }
  }

  /** Two sorted arrangements of the same elements are the same: the
      sorted order does not depend on the order of the input. */
  lemma {:induction false} SortedByUnique<T(!new)>(s: seq<T>, t: seq<T>, before: (T, T) -> bool)
    requires StrictTotalOrder(before)
    requires SortedBy(s, before) && SortedBy(t, before)
    requires multiset(s) == multiset(t)
    ensures s == t
    decreases |s|
  {
    assert |s| == |multiset(s)| == |multiset(t)| == |t|;
    if s != [] {
      SameFirst(s, t, before);
      assert s == [s[0]] + s[1..] && t == [t[0]] + t[1..];
      assert multiset(s) == multiset{s[0]} + multiset(s[1..]);
      assert multiset(t) == multiset{t[0]} + multiset(t[1..]);
      assert multiset(s[1..]) == multiset(s) - multiset{s[0]};
      assert multiset(t[1..]) == multiset(t) - multiset{t[0]};
      SortedTail(s, before);
      SortedTail(t, before);
      SortedByUnique(s[1..], t[1..], before);
    }
  }

  /** Sorted arrangements of the same elements start alike. */
  lemma SameFirst<T(!new)>(s: seq<T>, t: seq<T>, before: (T, T) -> bool)
    requires StrictTotalOrder(before)
    requires SortedBy(s, before) && SortedBy(t, before)
    requires multiset(s) == multiset(t) && s != [] && t != []
    ensures s[0] == t[0]
  {
    assert t[0] in multiset(s) && s[0] in multiset(t);
    FirstIsLeast(s, t[0], before);
    FirstIsLeast(t, s[0], before);
  }

  /** The first element of a sorted list is equal to or before each of its elements. */
  lemma FirstIsLeast<T(!new)>(s: seq<T>, x: T, before: (T, T) -> bool)
    requires SortedBy(s, before) && x in s
    ensures x == s[0] || before(s[0], x)
  {
    var k :| 0 <= k < |s| && s[k] == x;
    if k > 0 {
      assert s[0] == s[k] || before(s[0], s[k]);
    }
  }

  lemma SortedTail<T(!new)>(s: seq<T>, before: (T, T) -> bool)
    requires SortedBy(s, before) && s != []
    ensures SortedBy(s[1..], before)
  {
    forall i, j | 0 <= i < j < |s| - 1 ensures s[1..][i] == s[1..][j] || before(s[1..][i], s[1..][j]) {
      assert s[1..][i] == s[i + 1] && s[1..][j] == s[j + 1];
    }
  }

  /** Sorting two arrangements of the same elements gives one result. */
  lemma SortByIgnoresOrder<T(!new)>(s: seq<T>, t: seq<T>, before: (T, T) -> bool)
    requires StrictTotalOrder(before)
    requires multiset(s) == multiset(t)
    ensures SortBy(s, before) == SortBy(t, before)
  {
    SortedByUnique(SortBy(s, before), SortBy(t, before), before);
  }

  lemma KeyBeforeIsStrictTotalOrder()
    ensures StrictTotalOrder(KeyBefore)
  {
    forall a: string ensures !KeyBefore(a, a) {
      KeyOrder(a, a, a);
    }
    forall a: string, b: string, c: string | KeyBefore(a, b) && KeyBefore(b, c)
      ensures KeyBefore(a, c)
    {
      KeyOrder(a, b, c);
    }
    forall a: string, b: string ensures a == b || KeyBefore(a, b) || KeyBefore(b, a) {
      KeyOrder(a, b, b);
    }
  }

  /** `getSortedKeys` of an object's own keys: the same keys, integer
      keys first by value, then the others by code units. */
  function GetSortedKeys(keys: seq<string>): (r: seq<string>)
    ensures SortedBy(r, KeyBefore)
    ensures multiset(r) == multiset(keys)
  {
    KeyBeforeIsStrictTotalOrder();
    SortBy(keys, KeyBefore)
  }
}
