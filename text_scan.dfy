/** Scanning helpers for reading back the record renderings: the first
    occurrence of a character, a literal prefix, and a rendered integer. */
module TextScan {
  import opened Wrappers
  import opened Digits

  /** The position of the first c in s, or |s| when there is none. */
  function FindChar(s: string, c: char): (i: nat)
    ensures i <= |s|
    ensures i < |s| ==> s[i] == c
    ensures c !in s[..i]
  {
    if s == [] then 0
    else if s[0] == c then 0
    else
      var k := FindChar(s[1..], c);
      assert s[..1 + k] == [s[0]] + s[1..][..k];
      1 + k
  }

  /** The first c after a run without c is the one that ends the run. */
  lemma {:induction false} FindCharAfter(x: string, c: char, t: string)
    requires c !in x
    ensures FindChar(x + [c] + t, c) == |x|
  {
    if x != [] {
      assert (x + [c] + t)[1..] == x[1..] + [c] + t;
      FindCharAfter(x[1..], c, t);
    }
  }

  /** A field without c, followed by text starting with c, is cut off at
      that c. */
  lemma FieldSplit(x: string, c: char, tail: string)
    requires c !in x && |tail| >= 1 && tail[0] == c
    ensures var r := x + tail;
      var k := FindChar(r, c);
      r[..k] == x && r[k..] == tail
  {
    assert tail == [c] + tail[1..];
    assert x + tail == x + [c] + tail[1..];
    FindCharAfter(x, c, tail[1..]);
  }

  /** The rest of s after the literal prefix p. */
  function StripPrefix(p: string, s: string): (r: Option<string>)
    ensures r.Some? <==> |p| <= |s| && s[..|p|] == p
    ensures r.Some? ==> s == p + r.value
  {
    if |p| <= |s| && s[..|p|] == p then
      assert s == s[..|p|] + s[|p|..];
      Some(s[|p|..])
    else None
  }

  lemma StripPrefixOf(p: string, t: string)
    ensures StripPrefix(p, p + t) == Some(t)
  {
    assert (p + t)[..|p|] == p;
    assert (p + t)[|p|..] == t;
  }

  /** The text of s before its literal suffix q. */
  function StripSuffix(q: string, s: string): (r: Option<string>)
    ensures r.Some? <==> |q| <= |s| && s[|s| - |q|..] == q
    ensures r.Some? ==> s == r.value + q
  {
    if |q| <= |s| && s[|s| - |q|..] == q then
      assert s == s[..|s| - |q|] + s[|s| - |q|..];
      Some(s[..|s| - |q|])
    else None
  }

  lemma StripSuffixOf(t: string, q: string)
    ensures StripSuffix(q, t + q) == Some(t)
  {
    assert (t + q)[|t|..] == q;
    assert (t + q)[..|t|] == t;
  }

  /** Reads an optional '-' and one or more digits. */
  function ParseInt(t: string): Option<int> {
    if |t| >= 2 && t[0] == '-' && AllDigits(t[1..]) then Some(-(DigitsValue(t[1..]) as int))
    else if |t| >= 1 && AllDigits(t) then Some(DigitsValue(t))
    else None
  }

  /** A rendered integer is read back as itself. */
  lemma ParseIntRoundTrip(i: int)
    ensures ParseInt(IntToString(i)) == Some(i)
  {
    var s := IntToString(i);
    if i < 0 {
      var n := NatToString(-i);
      assert s == "-" + n;
      assert s[1..] == n;
      NatToStringValue(-i);
      assert ParseInt(s) == Some(-(DigitsValue(n) as int));
    } else {
      assert s == NatToString(i);
      assert IsDigit(s[0]);
      NatToStringValue(i);
      assert ParseInt(s) == Some(DigitsValue(s));
    }
  }

  /** A rendered integer holds only digits and a leading '-'. */
  lemma IntToStringHasNo(i: int, c: char)
    requires !IsDigit(c) && c != '-'
    ensures c !in IntToString(i)
  {
    if i < 0 {
      assert IntToString(i) == "-" + NatToString(-i);
    }
  }

  /** The items of xs, each wrapped in double quotes, joined by ", ". */
  function QuotedList(xs: seq<string>): string {
    if xs == [] then ""
    else if |xs| == 1 then "\"" + xs[0] + "\""
    else "\"" + xs[0] + "\", " + QuotedList(xs[1..])
  }

  /** Reads a list written by QuotedList. */
  function ParseQuotedList(s: string): Option<seq<string>>
    decreases |s|
  {
    if s == [] then Some([])
    else if s[0] != '"' then None
    else
      var k := FindChar(s[1..], '"');
      if k == |s[1..]| then None
      else
        var item := s[1..][..k];
        var rest := s[k + 2..];
        if rest == [] then Some([item])
        else if |rest| >= 3 && rest[..2] == ", " then
          Prepend(item, ParseQuotedList(rest[2..]))
        else None
  }

  function Prepend(x: string, r: Option<seq<string>>): Option<seq<string>> {
    match r
    case Some(tail) => Some([x] + tail)
    case None => None
  }

  /** One quoted item followed by the given text. */
  lemma ParseQuotedItem(x: string, tailText: string)
    requires '"' !in x
    ensures var s := "\"" + x + "\"" + tailText;
      ParseQuotedList(s) ==
        if tailText == [] then Some([x])
        else if |tailText| >= 3 && tailText[..2] == ", " then Prepend(x, ParseQuotedList(tailText[2..]))
        else None
  {
    var s := "\"" + x + "\"" + tailText;
    assert s[1..] == x + "\"" + tailText;
    FindCharAfter(x, '"', tailText);
    assert s[1..][..|x|] == x;
    assert s[|x| + 2..] == tailText;
  }

  predicate NoQuotes(xs: seq<string>) {
    forall i | 0 <= i < |xs| :: '"' !in xs[i]
  }

  /** Items without double quotes are read back from their list. */
  lemma {:induction false} QuotedListRoundTrip(xs: seq<string>)
    requires NoQuotes(xs)
    ensures ParseQuotedList(QuotedList(xs)) == Some(xs)
  {
    if |xs| == 1 {
      assert '"' !in xs[0];
      QuotedListOne(xs[0]);
      assert [xs[0]] == xs;
    } else if |xs| > 1 {
      assert NoQuotes(xs[1..]) by {
        forall i | 0 <= i < |xs[1..]| ensures '"' !in xs[1..][i] { assert xs[1..][i] == xs[i + 1]; }
      }
      QuotedListRoundTrip(xs[1..]);
      assert '"' !in xs[0];
      QuotedListStep(xs);
    }
  }

  lemma QuotedListOne(x: string)
    requires '"' !in x
    ensures ParseQuotedList(QuotedList([x])) == Some([x])
  {
    ParseQuotedItem(x, "");
    assert "\"" + x + "\"" + "" == QuotedList([x]);
  }

  /** The list of xs is read back when the list of its tail is. */
  lemma QuotedListStep(xs: seq<string>)
    requires |xs| > 1 && '"' !in xs[0]
    requires ParseQuotedList(QuotedList(xs[1..])) == Some(xs[1..])
    ensures ParseQuotedList(QuotedList(xs)) == Some(xs)
  {
    var q := QuotedList(xs[1..]);
    assert QuotedList(xs) == "\"" + xs[0] + "\", " + q;
    QuotedListNonEmpty(xs[1..]);
    ParseQuotedCons(xs[0], q);
    assert [xs[0]] + xs[1..] == xs;
  }

  /** A quoted item followed by ", " and more text is read as that item
      before the items of the text. */
  lemma ParseQuotedCons(x: string, q: string)
    requires '"' !in x && |q| >= 1
    ensures ParseQuotedList("\"" + x + "\", " + q) == Prepend(x, ParseQuotedList(q))
  {
    var tailText := ", " + q;
    assert "\"" + x + "\", " + q == "\"" + x + "\"" + tailText;
    ParseQuotedItem(x, tailText);
    assert tailText[2..] == q;
  }

  lemma QuotedListNonEmpty(xs: seq<string>)
    requires xs != []
    ensures |QuotedList(xs)| >= 2
  {
  }
}
