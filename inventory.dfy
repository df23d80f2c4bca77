/**
  The inventory sheet and the item matcher (server.js:84-104): rows with code,
  name, stock and price; the first row whose code or name occurs in the
  customer's text; availability as a positive stock.
 */
module Inventory {
  import opened Options
  import opened Text
  import Csv

  /**
    The result of `Number(cell || 0)` on a trimmed cell: an integer, or any other
    value (NaN, a fraction, an exponent or hexadecimal form) that the model does not track.
   */
  datatype Num = Int(value: int) | NotInteger

  predicate IsDigit(c: char) {
    '0' <= c <= '9'
  }

  predicate AllDigits(s: string) {
    forall i :: 0 <= i < |s| ==> IsDigit(s[i])
  }

  /** The value of a run of decimal digits, leading zeros allowed. */
  function DigitsValue(s: string): nat
    requires AllDigits(s)
  {
    if s == [] then 0 else DigitsValue(s[..|s| - 1]) * 10 + (s[|s| - 1] as int - '0' as int)
  }

  /** `Number(s || 0)` for the integer forms: an empty cell is 0, an optional sign, then digits. */
  function ParseNumber(s: string): (n: Num)
    ensures s == "" ==> n == Int(0)
    ensures s != "" && !IsDigit(s[0]) && s[0] != '-' && s[0] != '+' ==> n == NotInteger
    ensures n.Int? && s != "" && s[0] != '-' ==> n.value >= 0
  {
    if s == "" then Int(0)
    else if (s[0] == '-' || s[0] == '+') && |s| > 1 && AllDigits(s[1..]) then
      if s[0] == '-' then Int(-(DigitsValue(s[1..]) as int)) else Int(DigitsValue(s[1..]))
    else if AllDigits(s) then Int(DigitsValue(s))
    else NotInteger
  }

  /** The decimal digits of `n` without leading zeros, as `String(n)` writes them. */
  function Digits(n: nat): (s: string)
    ensures s != [] && AllDigits(s)
    ensures n > 0 ==> s[0] != '0'
  {
    var d := ['0' + (n % 10) as char];
    if n < 10 then d else Digits(n / 10) + d
  }

  lemma {:induction false} DigitsValueDigits(n: nat)
    ensures DigitsValue(Digits(n)) == n
  {
    if n >= 10 {
      DigitsValueDigits(n / 10);
      var s := Digits(n);
      assert s[..|s| - 1] == Digits(n / 10);
    }
  }

  /** Round trip: a number written out in decimal, with or without a minus sign, parses back to itself. */
  lemma ParseDigits(n: nat)
    ensures ParseNumber(Digits(n)) == Int(n)
    ensures ParseNumber("-" + Digits(n)) == Int(-(n as int))
  {
    DigitsValueDigits(n);
    assert ("-" + Digits(n))[1..] == Digits(n);
  }

  /** One inventory row, after decoding. */
  datatype Item = Item(code: string, name: string, stock: Num, price: Num)

  /** The row built from one data line's cells (server.js:86-92). */
  function DecodeItem(index: map<string, nat>, cols: seq<string>): (item: Item)
    ensures item.code == Csv.Cell(index, cols, "code") && item.name == Csv.Cell(index, cols, "name")
    ensures item.stock == ParseNumber(Csv.Cell(index, cols, "stock"))
    ensures item.price == ParseNumber(Csv.Cell(index, cols, "price"))
  {
    Item(Csv.Cell(index, cols, "code"), Csv.Cell(index, cols, "name"),
         ParseNumber(Csv.Cell(index, cols, "stock")), ParseNumber(Csv.Cell(index, cols, "price")))
  }

  /** The filter `x => x.code || x.name`. */
  predicate HasKey(item: Item) {
    item.code != "" || item.name != ""
  }

  /** The inventory rows of a parsed sheet, in sheet order, without the rows that have neither code nor name. */
  function Decode(t: Csv.Table): (items: seq<Item>)
    ensures |items| <= |t.rows|
    ensures forall k :: 0 <= k < |items| ==> HasKey(items[k])
  {
    Csv.DecodeRows(t.index, t.rows, DecodeItem, HasKey)
  }

  /** `inStock(item)`: `Number(item.stock) > 0`. */
  predicate InStock(item: Item) {
    item.stock.Int? && item.stock.value > 0
  }

  /**
    `findItemByText`'s test as written, on an already lower-cased text `t`: the text
    includes the row's lower-cased code or name, even when that code or name is empty.
   */
  predicate MatchesAsWritten(item: Item, t: string) {
    Contains(t, Lower(item.code)) || Contains(t, Lower(item.name))
  }

  /** A non-empty key of a row occurs, lower-cased, in the lower-cased text `t`. */
  predicate Mentions(t: string, key: string) {
    key != "" && Contains(t, Lower(key))
  }

  /** The intended test: the text mentions the row's code or its name. */
  predicate Matches(item: Item, t: string) {
    Mentions(t, item.code) || Mentions(t, item.name)
  }

  /** A row with an empty code or an empty name passes the test as written whatever the text. */
  lemma AsWrittenMatches(item: Item, t: string)
    ensures MatchesAsWritten(item, t) <==> item.code == "" || item.name == "" || Matches(item, t)
  {
    ContainsEmpty(t);
  }

  /** `inv.find(p)`: the position of the first row that passes `p`, in catalog order. */
  function FirstWhere(inv: seq<Item>, p: Item -> bool): (r: Option<nat>)
    ensures r.None? ==> forall k :: 0 <= k < |inv| ==> !p(inv[k])
    ensures r.Some? ==> r.value < |inv| && p(inv[r.value])
    ensures r.Some? ==> forall k :: 0 <= k < r.value ==> !p(inv[k])
  {
    if inv == [] then None
    else if p(inv[0]) then Some(0)
    else match FirstWhere(inv[1..], p)
      case None => None
      case Some(k) => Some(k + 1)
  }

  /** `findItemByText(inv, text)` as written, the lookup the bot makes: the first row that passes `MatchesAsWritten`. */
  function FindItemByTextAsWritten(inv: seq<Item>, text: string): Option<Item> {
    var t := Lower(text);
    match FirstWhere(inv, item => MatchesAsWritten(item, t))
    case None => None
    case Some(k) => Some(inv[k])
  }

  /**
    The row found as written is the first row that passes the test as written; nothing
    is found only when no row passes it.
   */
  lemma FindItemByTextAsWrittenFound(inv: seq<Item>, text: string)
    ensures var found := FindItemByTextAsWritten(inv, text);
            && (found.Some? ==> found.value in inv && MatchesAsWritten(found.value, Lower(text)))
            && (found.Some? ==> exists j :: 0 <= j < |inv| && found.value == inv[j]
                                  && forall k :: 0 <= k < j ==> !MatchesAsWritten(inv[k], Lower(text)))
            && (found.None? <==> forall k :: 0 <= k < |inv| ==> !MatchesAsWritten(inv[k], Lower(text)))
  {
    var t := Lower(text);
    var r := FirstWhere(inv, item => MatchesAsWritten(item, t));
    if r.Some? {
      var j := r.value;
      assert FindItemByTextAsWritten(inv, text) == Some(inv[j]);
      assert forall k :: 0 <= k < j ==> !MatchesAsWritten(inv[k], t);
    }
  }

  /** As written, a sheet whose first row has an empty code or name answers every text with that row. */
  lemma BlankKeyFirstRowFound(inv: seq<Item>, text: string)
    requires inv != [] && (inv[0].code == "" || inv[0].name == "")
    ensures FindItemByTextAsWritten(inv, text) == Some(inv[0])
  {
    AsWrittenMatches(inv[0], Lower(text));
  }

  /** As written, a sheet holding any row with an empty code or name finds some row for every text. */
  lemma BlankKeyAlwaysFinds(inv: seq<Item>, text: string, k: nat)
    requires k < |inv| && (inv[k].code == "" || inv[k].name == "")
    ensures FindItemByTextAsWritten(inv, text).Some?
  {
    AsWrittenMatches(inv[k], Lower(text));
  }

  /**
    The lookup the bot is meant to make: the first row whose non-empty code or name
    occurs in the text, ignoring case; nothing when no row is mentioned.
   */
  function FindItemByText(inv: seq<Item>, text: string): Option<Item> {
    var t := Lower(text);
    match FirstWhere(inv, item => Matches(item, t))
    case None => None
    case Some(k) => Some(inv[k])
  }

  /** An item found is a row the text mentions; nothing is found only when the text mentions no row. */
  lemma FindItemByTextMentioned(inv: seq<Item>, text: string)
    ensures var found := FindItemByText(inv, text);
            && (found.Some? ==> found.value in inv && Matches(found.value, Lower(text)))
            && (found.None? <==> forall k :: 0 <= k < |inv| ==> !Matches(inv[k], Lower(text)))
  {
  }

  /** The item found is the earliest row the text mentions. */
  lemma FindItemByTextFirst(inv: seq<Item>, text: string, k: nat)
    requires k < |inv| && Matches(inv[k], Lower(text))
    ensures FindItemByText(inv, text).Some?
    ensures exists j :: 0 <= j <= k && FindItemByText(inv, text) == Some(inv[j])
  {
    var t := Lower(text);
    var j := FirstWhere(inv, item => Matches(item, t)).value;
    assert j <= k;
  }

  /** When every row has both a code and a name, the lookup as written and the intended one agree. */
  lemma AsWrittenAgreesWhenKeyed(inv: seq<Item>, text: string)
    requires forall k :: 0 <= k < |inv| ==> inv[k].code != "" && inv[k].name != ""
    ensures FindItemByTextAsWritten(inv, text) == FindItemByText(inv, text)
  {
    var t := Lower(text);
    forall k | 0 <= k < |inv| ensures MatchesAsWritten(inv[k], t) <==> Matches(inv[k], t) {
      AsWrittenMatches(inv[k], t);
    }
    var a := FirstWhere(inv, item => MatchesAsWritten(item, t));
    var b := FirstWhere(inv, item => Matches(item, t));
    if a.Some? && b.Some? {
      assert !(a.value < b.value) && !(b.value < a.value);
    }
  }

  /**
    The discrepancy: a row with no code, such as `,oso de peluche,3,0`, is returned as
    written for a text that does not mention it at all, while the intended lookup finds nothing.
   */
  lemma BlankCodeAnswersAnything()
    ensures var row := Item("", "oso de peluche", Int(3), Int(0));
            && FindItemByTextAsWritten([row], "gracias") == Some(row)
            && FindItemByText([row], "gracias") == None
  {
    var row := Item("", "oso de peluche", Int(3), Int(0));
    var t := Lower("gracias");
    AsWrittenMatches(row, t);
    assert |Lower(row.name)| == 14 && |t| == 7;
    assert !Matches(row, t);
  }

  /** The lookup ignores case on both sides: the text and the code or name are both lower-cased. */
  lemma FindIgnoresCase(inv: seq<Item>, text: string)
    ensures FindItemByText(inv, Lower(text)) == FindItemByText(inv, text)
  {
    LowerIdempotent(text);
  }
}
