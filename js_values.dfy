/** The raw JavaScript values that the normalising and validating
    functions receive before any checking. */
module JsValues {

  /** A JavaScript value as far as the checks can tell them apart:
      - JStr: a primitive string; JStrObj: a boxed `new String(...)`;
      - JInt: a primitive Number with an integral value (any size);
      - JNum: any other primitive Number (a fraction, NaN, an infinity);
      - JBool, JNull, JUndef (also an array hole);
      - JArr: an array; JObj: a plain data object with its own keys in order;
      - JOther: anything else (a boxed Number, a RegExp, a Set, a function). */
  datatype Js =
    | JStr(s: string)
    | JStrObj(s: string)
    | JInt(i: int)
    | JNum
    | JBool(b: bool)
    | JNull
    | JUndef
    | JArr(items: seq<Js>)
    | JObj(fields: seq<(string, Js)>)
    | JOther

  predicate IsString(v: Js) { v.JStr? || v.JStrObj? }

  /** Every item is a primitive string. */
  predicate AllStrings(items: seq<Js>) {
    forall i | 0 <= i < |items| :: items[i].JStr?
  }

  /** The strings of an array of primitive strings. */
  function Strings(items: seq<Js>): (r: seq<string>)
    requires AllStrings(items)
    ensures |r| == |items|
    ensures forall i | 0 <= i < |items| :: r[i] == items[i].s
  {
    if items == [] then [] else [items[0].s] + Strings(items[1..])
  }

  /** The array of primitive strings holding the given strings. */
  function FromStrings(xs: seq<string>): (r: seq<Js>)
    ensures |r| == |xs| && AllStrings(r)
    ensures forall i | 0 <= i < |xs| :: r[i] == JStr(xs[i])
  {
    if xs == [] then [] else [JStr(xs[0])] + FromStrings(xs[1..])
  }

  /** Strings and FromStrings are inverse to each other. */
  lemma StringsRoundTrip(xs: seq<string>, items: seq<Js>)
    ensures Strings(FromStrings(xs)) == xs
    ensures AllStrings(items) ==> FromStrings(Strings(items)) == items
  {
    assert Strings(FromStrings(xs)) == xs;
    if AllStrings(items) {
      assert FromStrings(Strings(items)) == items;
    }
  }
}
