/**
  The operator-authored rule sheet and the rule matcher (server.js:123-172):
  rows with an enabled flag, an action type, a trigger and two payloads; a
  trigger `=x` that needs the whole text to equal `x`, any other trigger a
  substring; the first enabled, matching rule of a known type is acted on.
 */
module Rules {
  import opened Options
  import opened Text
  import Csv

  /** One rule row, after decoding: `type` is upper-cased, `p1`/`p2` are the payloads. */
  datatype Rule = Rule(enabled: bool, kind: string, trigger: string, payload1: string, payload2: string)

  /** The row built from one data line's cells (server.js:125-132). */
  function DecodeRule(index: map<string, nat>, cols: seq<string>): (r: Rule)
    ensures r.enabled <==> StartsWith(Lower(Csv.Cell(index, cols, "enabled")), "y")
    ensures r.kind == Upper(Csv.Cell(index, cols, "type"))
    ensures r.trigger == Csv.Cell(index, cols, "trigger")
    ensures r.payload1 == Csv.Cell(index, cols, "payload1") && r.payload2 == Csv.Cell(index, cols, "payload2")
  {
    Rule(StartsWith(Lower(Csv.Cell(index, cols, "enabled")), "y"),
         Upper(Csv.Cell(index, cols, "type")),
         Csv.Cell(index, cols, "trigger"),
         Csv.Cell(index, cols, "payload1"),
         Csv.Cell(index, cols, "payload2"))
  }

  /** A rule is enabled exactly when its `enabled` cell starts with `y` or `Y` ("yes", "Y", "Yes" all enable it). */
  lemma EnabledFlag(index: map<string, nat>, cols: seq<string>)
    ensures var c := Csv.Cell(index, cols, "enabled");
            DecodeRule(index, cols).enabled <==> c != "" && (c[0] == 'y' || c[0] == 'Y')
  {
    var c := Csv.Cell(index, cols, "enabled");
    if c != "" {
      assert Lower(c)[..1] == [LowerChar(c[0])];
    }
  }

  /** The filter `x => x.type && x.trigger`. */
  predicate Complete(r: Rule) {
    r.kind != "" && r.trigger != ""
  }

  /** The rules of a parsed sheet, in sheet order, without the rows lacking a type or a trigger. */
  function Decode(t: Csv.Table): (rules: seq<Rule>)
    ensures |rules| <= |t.rows|
    ensures forall k :: 0 <= k < |rules| ==> Complete(rules[k])
  {
    Csv.DecodeRows(t.index, t.rows, DecodeRule, Complete)
  }

  /** Whether a trigger fires on the lower-cased text `lower` (server.js:144-148). */
  predicate TriggerMatches(trigger: string, lower: string) {
    if StartsWith(trigger, "=") then lower == Lower(trigger[1..])
    else Contains(lower, Lower(trigger))
  }

  /** An exact trigger `=x` fires on a text only when the whole text is `x`, ignoring case. */
  lemma ExactTrigger(x: string, text: string)
    ensures TriggerMatches("=" + x, Lower(text)) <==> Lower(text) == Lower(x)
  {
    assert StartsWith("=" + x, "=");
    assert ("=" + x)[1..] == x;
  }

  /** `=foo` does not fire on "xfoox", while the plain trigger `foo` does. */
  lemma ExactVersusSubstring()
    ensures !TriggerMatches("=foo", Lower("xfoox"))
    ensures TriggerMatches("foo", Lower("xfoox"))
  {
    var t := Lower("xfoox");
    assert t == "xfoox";
    assert "=foo"[1..] == "foo";
    assert Lower("foo") == "foo";
    assert "foo"[..1] == "f";
    assert StartsWith(t[1..], "foo");
  }

  /** A plain trigger fires on every text that contains it, whatever the case of either. */
  lemma PlainTriggerSubstring(trigger: string, before: string, after: string)
    requires !StartsWith(trigger, "=")
    ensures TriggerMatches(trigger, Lower(before + trigger + after))
  {
    var t := Lower(before + trigger + after);
    assert t[|before|..][..|trigger|] == Lower(trigger);
    assert StartsWith(t[|before|..], Lower(trigger));
  }

  /** The action types `tryHandleDynamicFeature` knows; a rule of any other type is passed over. */
  predicate KnownKind(kind: string) {
    kind == "TEXT" || kind == "ALERT" || kind == "FORM"
  }

  /** The rule the loop stops at: enabled, matching, and of a known type. */
  predicate Actionable(r: Rule, lower: string) {
    r.enabled && TriggerMatches(r.trigger, lower) && KnownKind(r.kind)
  }

  /** The position of the first rule the loop acts on, in sheet order. */
  function FirstActionable(rules: seq<Rule>, lower: string): (r: Option<nat>)
    ensures r.None? ==> forall k :: 0 <= k < |rules| ==> !Actionable(rules[k], lower)
    ensures r.Some? ==> r.value < |rules| && Actionable(rules[r.value], lower)
    ensures r.Some? ==> forall k :: 0 <= k < r.value ==> !Actionable(rules[k], lower)
  {
    if rules == [] then None
    else if Actionable(rules[0], lower) then Some(0)
    else match FirstActionable(rules[1..], lower)
      case None => None
      case Some(k) => Some(k + 1)
  }

  /** Rules after the first actionable one are never looked at: appending more rules changes nothing. */
  lemma {:induction false} FirstActionableAppend(rules: seq<Rule>, more: seq<Rule>, lower: string)
    requires FirstActionable(rules, lower).Some?
    ensures FirstActionable(rules + more, lower) == FirstActionable(rules, lower)
  {
    var k := FirstActionable(rules, lower).value;
    var r := FirstActionable(rules + more, lower);
    assert (rules + more)[k] == rules[k];
    assert forall j :: 0 <= j < k ==> (rules + more)[j] == rules[j];
    assert r.Some?;
  }

  /** Trimmed and non-empty: what `s => s.trim()` followed by `filter(Boolean)` keeps. */
  predicate Trimmed(f: string) {
    f != "" && !IsSpace(f[0]) && !IsSpace(f[|f| - 1])
  }

  /** A form field as the source keeps it: trimmed, non-empty, free of `|`. */
  predicate IsField(f: string) {
    Trimmed(f) && '|' !in f
  }

  /** `(p1 || "").split("|").map(s => s.trim()).filter(Boolean)`. */
  function FormFields(p1: string): (fields: seq<string>)
    ensures forall k :: 0 <= k < |fields| ==> IsField(fields[k])
  {
    TrimmedNonEmptyTrimmed(Split(p1, '|'));
    TrimmedNonEmptyAvoids(Split(p1, '|'), '|');
    TrimmedNonEmpty(Split(p1, '|'))
  }

  /** `parts.map(s => s.trim()).filter(Boolean)`. */
  function TrimmedNonEmpty(parts: seq<string>): (r: seq<string>)
    ensures |r| <= |parts|
  {
    if parts == [] then [] else Kept(parts[0]) + TrimmedNonEmpty(parts[1..])
  }

  /** What one piece contributes: its trimmed text, or nothing when that is empty. */
  function Kept(p: string): (r: seq<string>)
    ensures |r| <= 1
  {
    var t := Trim(p);
    if t != "" then [t] else []
  }

  /** Every field kept is trimmed and non-empty. */
  lemma {:induction false} TrimmedNonEmptyTrimmed(parts: seq<string>)
    ensures forall k :: 0 <= k < |TrimmedNonEmpty(parts)| ==> Trimmed(TrimmedNonEmpty(parts)[k])
  {
    if parts != [] {
      var head, rest := Kept(parts[0]), TrimmedNonEmpty(parts[1..]);
      TrimmedNonEmptyTrimmed(parts[1..]);
      KeptTrimmed(parts[0]);
      forall k | 0 <= k < |head + rest|
        ensures Trimmed((head + rest)[k])
      {
        if k >= |head| {
          IndexOfAppend(head, rest, k);
        }
      }
    }
  }

  lemma KeptTrimmed(p: string)
    ensures forall k :: 0 <= k < |Kept(p)| ==> Trimmed(Kept(p)[k])
  {
  }

  /** A character absent from every piece is absent from every field kept. */
  lemma {:induction false} TrimmedNonEmptyAvoids(parts: seq<string>, c: char)
    requires forall k :: 0 <= k < |parts| ==> c !in parts[k]
    ensures forall k :: 0 <= k < |TrimmedNonEmpty(parts)| ==> c !in TrimmedNonEmpty(parts)[k]
  {
    if parts != [] {
      TrimAvoids(parts[0], c);
      TrimmedNonEmptyAvoids(parts[1..], c);
    }
  }

  /** Trimming and filtering two blocks of pieces gives the fields of the first block, then those of the second. */
  lemma {:induction false} TrimmedNonEmptyAppend(a: seq<string>, b: seq<string>)
    ensures TrimmedNonEmpty(a + b) == TrimmedNonEmpty(a) + TrimmedNonEmpty(b)
  {
    if a == [] {
      assert a + b == b;
    } else {
      var head := Kept(a[0]);
      TrimmedNonEmptyAppend(a[1..], b);
      TailOfAppend(a, b);
      calc {
        TrimmedNonEmpty(a + b);
        head + TrimmedNonEmpty(a[1..] + b);
        head + (TrimmedNonEmpty(a[1..]) + TrimmedNonEmpty(b));
        (head + TrimmedNonEmpty(a[1..])) + TrimmedNonEmpty(b);
      }
    }
  }

  /** One piece gives its trimmed text as a field, or nothing when that is empty. */
  lemma TrimmedNonEmptyOne(p: string)
    ensures TrimmedNonEmpty([p]) == if Trim(p) != "" then [Trim(p)] else []
  {
  }

  /** Round trip: fields already trimmed, non-empty and free of `|`, written as `a|b|c`, read back as themselves. */
  lemma FormFieldsJoin(fields: seq<string>)
    requires forall k :: 0 <= k < |fields| ==> IsField(fields[k])
    ensures FormFields(Join(fields, '|')) == fields
  {
    if fields == [] {
      assert Split("", '|') == [""];
      assert Trim("") == "";
    } else {
      SplitJoin(fields, '|');
      FieldsKept(fields);
    }
  }

  /** Fields that are already trimmed and non-empty survive trimming and filtering unchanged. */
  lemma {:induction false} FieldsKept(fields: seq<string>)
    requires forall k :: 0 <= k < |fields| ==> Trimmed(fields[k])
    ensures TrimmedNonEmpty(fields) == fields
  {
    if fields != [] {
      FieldsKept(fields[1..]);
      assert Trim(fields[0]) == fields[0];
    }
  }
}
