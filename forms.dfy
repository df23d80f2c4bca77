/**
  Operator-defined forms (server.js:164-166 and server.js:175-192): a title, the
  fields to ask for, the position `i` of the next field, the answers given so far
  and the message sent on completion.
 */
module Forms {
  import opened Options
  import opened Text

  /** The completion message when the rule's second payload is empty. */
  const DefaultThanks: string := "¡Listo! Gracias."

  /**
    `f.data`: answers keyed by field name. A JavaScript object keeps a key where it was
    first set and overwrites its value on a later set, so the pairs are kept in first-answer order.
   */
  type Entries = seq<(string, string)>

  /** The keys of the pairs, in order. */
  function Keys(d: Entries): (ks: seq<string>)
    ensures |ks| == |d|
  {
    if d == [] then [] else [d[0].0] + Keys(d[1..])
  }

  /** The key at each position is the key of the pair at that position. */
  lemma {:induction false} KeysAt(d: Entries)
    ensures forall i :: 0 <= i < |d| ==> Keys(d)[i] == d[i].0
  {
    if d != [] {
      KeysAt(d[1..]);
      forall i | 0 < i < |d| ensures Keys(d)[i] == d[i].0 {
        assert Keys(d)[i] == Keys(d[1..])[i - 1];
      }
    }
  }

  /** No key is stored twice. */
  predicate DistinctKeys(d: Entries) {
    d == [] || (d[0].0 !in Keys(d[1..]) && DistinctKeys(d[1..]))
  }

  /** `d[k]`: the value stored under `k`, if any. */
  function Get(d: Entries, k: string): (r: Option<string>)
    ensures r.Some? <==> k in Keys(d)
  {
    if d == [] then None
    else if d[0].0 == k then Some(d[0].1)
    else Get(d[1..], k)
  }

  /** `d[k] = v`: a key already present keeps its position, a new key goes at the end. */
  function Put(d: Entries, k: string, v: string): Entries {
    if d == [] then [(k, v)]
    else if d[0].0 == k then [(k, v)] + d[1..]
    else [d[0]] + Put(d[1..], k, v)
  }

  /** `d[k] = v` keeps the keys where they are and adds a new key at the end. */
  lemma {:induction false} PutKeys(d: Entries, k: string, v: string)
    ensures Keys(Put(d, k, v)) == if k in Keys(d) then Keys(d) else Keys(d) + [k]
  {
    if d != [] {
      var r := Put(d, k, v);
      if d[0].0 == k {
        assert r[1..] == d[1..];
      } else {
        PutKeys(d[1..], k, v);
        assert r[1..] == Put(d[1..], k, v);
        assert Keys(d) == [d[0].0] + Keys(d[1..]);
      }
    }
  }

  /** After `d[k] = v`, `d[k]` reads `v`. */
  lemma {:induction false} PutGet(d: Entries, k: string, v: string)
    ensures Get(Put(d, k, v), k) == Some(v)
  {
    if d != [] && d[0].0 != k {
      PutGet(d[1..], k, v);
      assert Put(d, k, v)[1..] == Put(d[1..], k, v);
    }
  }

  /** After `d[k] = v`, every other key reads what it read before. */
  lemma {:induction false} PutGetOther(d: Entries, k: string, v: string, k': string)
    requires k' != k
    ensures Get(Put(d, k, v), k') == Get(d, k')
  {
    if d != [] && d[0].0 != k {
      PutGetOther(d[1..], k, v, k');
      assert Put(d, k, v)[1..] == Put(d[1..], k, v);
    } else if d != [] {
      assert Put(d, k, v)[1..] == d[1..];
    }
  }

  /** `d[k] = v` never stores a key twice. */
  lemma {:induction false} PutDistinct(d: Entries, k: string, v: string)
    requires DistinctKeys(d)
    ensures DistinctKeys(Put(d, k, v))
  {
    if d != [] && d[0].0 != k {
      PutDistinct(d[1..], k, v);
      PutKeys(d[1..], k, v);
      var r := Put(d, k, v);
      assert r[1..] == Put(d[1..], k, v);
      assert d[0].0 !in Keys(r[1..]);
    } else if d != [] {
      assert Put(d, k, v)[1..] == d[1..];
    }
  }

  /** A form in a session; stored forms always have a field left to ask (`i < |fields|`). */
  datatype Form = Form(title: string, fields: seq<string>, i: nat, data: Entries, thanks: string)

  predicate Pending(f: Form) {
    f.i < |f.fields|
  }

  /** The form a FORM rule installs (server.js:166): nothing answered, the first field next. */
  function Start(title: string, fields: seq<string>, p2: string): (f: Form)
    requires fields != []
    ensures Pending(f) && f.i == 0 && f.data == [] && f.fields == fields && f.title == title
    ensures f.thanks == if p2 == "" then DefaultThanks else p2
  {
    Form(title, fields, 0, [], if p2 == "" then DefaultThanks else p2)
  }

  /**
    One answer (server.js:178-180): stored under the current field, and the position
    moves on by exactly one, so `i <= |fields|` still holds.
   */
  function Answer(f: Form, text: string): (g: Form)
    requires Pending(f)
    ensures g.i == f.i + 1 && g.i <= |g.fields|
    ensures g.fields == f.fields && g.title == f.title && g.thanks == f.thanks
    ensures g.data == Put(f.data, f.fields[f.i], text)
  {
    f.(data := Put(f.data, f.fields[f.i], text), i := f.i + 1)
  }

  /** The summary's lines: one `k: v` line per stored pair, in order. */
  function SummaryLines(d: Entries): seq<string> {
    seq(|d|, j requires 0 <= j < |d| => d[j].0 + ": " + d[j].1)
  }

  /** `Object.entries(f.data).map(([k, v]) => k + ": " + v).join("\n")`. */
  function Summary(d: Entries): string {
    Join(SummaryLines(d), '\n')
  }

  /** When no name or answer holds a line break, the summary splits back into exactly one `k: v` line per pair. */
  lemma SummarySplits(d: Entries)
    requires d != []
    requires forall j :: 0 <= j < |d| ==> '\n' !in d[j].0 && '\n' !in d[j].1
    ensures Split(Summary(d), '\n') == SummaryLines(d)
  {
    var lines := SummaryLines(d);
    forall j | 0 <= j < |lines| ensures '\n' !in lines[j] {
      assert lines[j] == d[j].0 + ": " + d[j].1;
    }
    SplitJoin(lines, '\n');
  }

  /** The form after a run of answers, one per field from position `f.i` on. */
  function AnswerAll(f: Form, answers: seq<string>): (g: Form)
    requires f.i + |answers| <= |f.fields|
    ensures g.i == f.i + |answers| && g.fields == f.fields && g.title == f.title && g.thanks == f.thanks
  {
    if answers == [] then f
    else Answer(AnswerAll(f, answers[..|answers| - 1]), answers[|answers| - 1])
  }

  /**
    The latest answer given for `k` in a run of answers that starts at field `start`:
    `answers[j]` answers `fields[start + j]`, and later answers win.
   */
  function Latest(fields: seq<string>, start: nat, answers: seq<string>, k: string): (r: Option<string>)
    requires start + |answers| <= |fields|
    ensures r.Some? <==> exists j :: start <= j < start + |answers| && fields[j] == k
  {
    if answers == [] then None
    else
      var n := |answers| - 1;
      if fields[start + n] == k then Some(answers[n])
      else Latest(fields, start, answers[..n], k)
  }

  /** The last answer of a run is stored under the field it answers, on top of the answers before it. */
  lemma AnswerAllLast(f: Form, answers: seq<string>)
    requires answers != [] && f.i + |answers| <= |f.fields|
    ensures var n := |answers| - 1;
            AnswerAll(f, answers).data == Put(AnswerAll(f, answers[..n]).data, f.fields[f.i + n], answers[n])
  {
  }

  /**
    After a run of answers, each field answered in the run holds its latest answer
    and every other key keeps what it held before.
   */
  lemma {:induction false} AnswerAllData(f: Form, answers: seq<string>, k: string)
    requires f.i + |answers| <= |f.fields|
    ensures var latest := Latest(f.fields, f.i, answers, k);
            Get(AnswerAll(f, answers).data, k) == if latest.Some? then latest else Get(f.data, k)
  {
    if answers != [] {
      var n := |answers| - 1;
      var prev := AnswerAll(f, answers[..n]).data;
      var field := f.fields[f.i + n];
      AnswerAllLast(f, answers);
      if k == field {
        PutGet(prev, field, answers[n]);
      } else {
        AnswerAllData(f, answers[..n], k);
        PutGetOther(prev, field, answers[n], k);
      }
    }
  }

  /** Answering keeps the answers one entry per field name. */
  lemma {:induction false} AnswerAllDistinct(f: Form, answers: seq<string>)
    requires f.i + |answers| <= |f.fields|
    requires DistinctKeys(f.data)
    ensures DistinctKeys(AnswerAll(f, answers).data)
  {
    if answers != [] {
      var n := |answers| - 1;
      AnswerAllDistinct(f, answers[..n]);
      PutDistinct(AnswerAll(f, answers[..n]).data, f.fields[f.i + n], answers[n]);
    }
  }

  /** The key order of an object after setting the keys `more` in turn on one whose keys were `ks`. */
  function AddKeys(ks: seq<string>, more: seq<string>): seq<string> {
    if more == [] then ks
    else
      var prev := AddKeys(ks, more[..|more| - 1]);
      if more[|more| - 1] in prev then prev else prev + [more[|more| - 1]]
  }

  /** Each field name once, at the place it first occurs. */
  function FirstOccurrences(fields: seq<string>): seq<string> {
    AddKeys([], fields)
  }

  /** Adding keys keeps the old ones in front and adds exactly the new ones. */
  lemma {:induction false} AddKeysMembers(ks: seq<string>, more: seq<string>)
    ensures |ks| <= |AddKeys(ks, more)| && AddKeys(ks, more)[..|ks|] == ks
    ensures forall k :: k in AddKeys(ks, more) <==> k in ks || k in more
  {
    if more != [] {
      var n := |more| - 1;
      AddKeysMembers(ks, more[..n]);
      assert more == more[..n] + [more[n]];
      var prev := AddKeys(ks, more[..n]);
      if more[n] !in prev {
        assert (prev + [more[n]])[..|ks|] == prev[..|ks|];
      }
    }
  }

  /** Keys that are all new and pairwise different go in the order given. */
  lemma {:induction false} AddKeysFresh(ks: seq<string>, more: seq<string>)
    requires forall j :: 0 <= j < |more| ==> more[j] !in ks
    requires forall i, j :: 0 <= i < j < |more| ==> more[i] != more[j]
    ensures AddKeys(ks, more) == ks + more
  {
    if more != [] {
      var n := |more| - 1;
      AddKeysFresh(ks, more[..n]);
      assert more[n] !in more[..n];
      assert ks + more == (ks + more[..n]) + [more[n]];
    }
  }

  /** Field names that never repeat come out as given; repeated ones come out once each. */
  lemma FirstOccurrencesOf(fields: seq<string>)
    ensures forall k :: k in FirstOccurrences(fields) <==> k in fields
    ensures (forall i, j :: 0 <= i < j < |fields| ==> fields[i] != fields[j]) ==> FirstOccurrences(fields) == fields
  {
    AddKeysMembers([], fields);
    if forall i, j :: 0 <= i < j < |fields| ==> fields[i] != fields[j] {
      AddKeysFresh([], fields);
    }
  }

  /** A run of answers sets the keys of the fields it answers, in turn, on the answers before it. */
  lemma {:induction false} AnswerAllKeys(f: Form, answers: seq<string>)
    requires f.i + |answers| <= |f.fields|
    ensures Keys(AnswerAll(f, answers).data) == AddKeys(Keys(f.data), f.fields[f.i..f.i + |answers|])
  {
    if answers != [] {
      var n := |answers| - 1;
      var prev := AnswerAll(f, answers[..n]).data;
      var run := f.fields[f.i..f.i + |answers|];
      AnswerAllLast(f, answers);
      AnswerAllKeys(f, answers[..n]);
      PutKeys(prev, f.fields[f.i + n], answers[n]);
      assert run[..n] == f.fields[f.i..f.i + n];
      assert run[n] == f.fields[f.i + n];
    }
  }

  /**
    A form answered to the end: it is complete, it holds one entry per distinct field,
    in the order the fields first occur, and each field holds the latest answer given
    for it (a repeated field keeps a single entry, at its first place, with the later answer).
   */
  lemma CompletedForm(title: string, fields: seq<string>, p2: string, answers: seq<string>)
    requires fields != [] && |answers| == |fields|
    ensures var g := AnswerAll(Start(title, fields, p2), answers);
            && g.i == |g.fields|
            && DistinctKeys(g.data)
            && Keys(g.data) == FirstOccurrences(fields)
            && (forall k :: k in Keys(g.data) <==> k in fields)
            && (forall k :: Get(g.data, k) == Latest(fields, 0, answers, k))
  {
    var f := Start(title, fields, p2);
    var g := AnswerAll(f, answers);
    AnswerAllDistinct(f, answers);
    AnswerAllKeys(f, answers);
    assert fields[0..|answers|] == fields;
    forall k
      ensures Get(g.data, k) == Latest(fields, 0, answers, k)
      ensures k in Keys(g.data) <==> k in fields
    {
      AnswerAllData(f, answers, k);
      if k in fields {
        var j :| 0 <= j < |fields| && fields[j] == k;
      }
    }
  }
}
