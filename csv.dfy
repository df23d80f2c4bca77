/**
  The comma-separated text both sheets are published as (server.js:79-93 and
  server.js:118-133): lines split on `\r?\n` with empty lines dropped, a header
  line naming the columns, and data lines split naively on every comma (no
  quoting).
 */
module Csv {
  import opened Options
  import opened Text

  /** A `\r` right before a line break belongs to the break. */
  function StripCR(p: string): (r: string)
    ensures r == p || r + "\r" == p
    ensures r == p <==> p == [] || p[|p| - 1] != '\r'
  {
    if |p| > 0 && p[|p| - 1] == '\r' then p[..|p| - 1] else p
  }

  /** `csv.split(/\r?\n/)`: only the pieces followed by a `\n` lose a trailing `\r`. */
  function SplitLines(csv: string): (lines: seq<string>)
    ensures |lines| >= 1
    ensures forall k :: 0 <= k < |lines| ==> '\n' !in lines[k]
  {
    var pieces := Split(csv, '\n');
    seq(|pieces|, k requires 0 <= k < |pieces| =>
      if k < |pieces| - 1 then StripCR(pieces[k]) else pieces[k])
  }

  /** `.filter(Boolean)` on strings: drops the empty ones, keeping the order of the rest. */
  function NonEmpty(xs: seq<string>): (r: seq<string>)
    ensures |r| <= |xs|
    ensures forall k :: 0 <= k < |r| ==> r[k] != [] && r[k] in xs
    ensures forall k :: 0 <= k < |xs| && xs[k] != [] ==> xs[k] in r
  {
    if xs == [] then []
    else (if xs[0] != [] then [xs[0]] else []) + NonEmpty(xs[1..])
  }

  /** Filtering two blocks gives the kept strings of the first block, then those of the second. */
  lemma {:induction false} NonEmptyAppend(a: seq<string>, b: seq<string>)
    ensures NonEmpty(a + b) == NonEmpty(a) + NonEmpty(b)
  {
    if a == [] {
      assert a + b == b;
    } else {
      var head := if a[0] != [] then [a[0]] else [];
      NonEmptyAppend(a[1..], b);
      TailOfAppend(a, b);
      calc {
        NonEmpty(a + b);
        head + NonEmpty(a[1..] + b);
        head + (NonEmpty(a[1..]) + NonEmpty(b));
        (head + NonEmpty(a[1..])) + NonEmpty(b);
      }
    }
  }

  /** One string is kept exactly when it is non-empty. */
  lemma NonEmptyOne(x: string)
    ensures NonEmpty([x]) == if x != [] then [x] else []
  {
  }

  /** The lines written with a `\r` before each line break, as a sheet exported with CRLF line ends has them. */
  function WithCR(lines: seq<string>): seq<string> {
    seq(|lines|, k requires 0 <= k < |lines| => if k < |lines| - 1 then lines[k] + "\r" else lines[k])
  }

  /** Round trip: lines joined with `\n` split back into those lines, unless one before the last ends in `\r`. */
  lemma SplitLinesLF(lines: seq<string>)
    requires |lines| >= 1
    requires forall k :: 0 <= k < |lines| ==> '\n' !in lines[k]
    requires forall k :: 0 <= k < |lines| - 1 ==> lines[k] == [] || lines[k][|lines[k]| - 1] != '\r'
    ensures SplitLines(Join(lines, '\n')) == lines
  {
    SplitJoin(lines, '\n');
  }

  /** Round trip: lines joined with `\r\n` split back into those lines. */
  lemma SplitLinesCRLF(lines: seq<string>)
    requires |lines| >= 1
    requires forall k :: 0 <= k < |lines| ==> '\n' !in lines[k]
    ensures SplitLines(Join(WithCR(lines), '\n')) == lines
  {
    var w := WithCR(lines);
    forall k | 0 <= k < |w| ensures '\n' !in w[k] {
      if k < |lines| - 1 {
        assert w[k] == lines[k] + "\r";
      }
    }
    SplitJoin(w, '\n');
    forall k | 0 <= k < |lines| - 1 ensures StripCR(w[k]) == lines[k] {
      assert w[k] == lines[k] + "\r";
      assert w[k][..|w[k]| - 1] == lines[k];
    }
  }

  /**
    Round trip the other way: each line before the last is its piece with the `\r` of a
    CRLF removed and nothing else, the last line is the last piece, and the pieces join back into the text.
   */
  lemma SplitLinesPieces(csv: string)
    ensures var pieces := Split(csv, '\n');
            var lines := SplitLines(csv);
            && |lines| == |pieces|
            && (forall k :: 0 <= k < |lines| - 1 ==> lines[k] == StripCR(pieces[k]))
            && lines[|lines| - 1] == pieces[|pieces| - 1]
            && Join(pieces, '\n') == csv
  {
    JoinSplit(csv, '\n');
  }

  /** The non-empty lines of the fetched text, in order. */
  function Lines(csv: string): seq<string> {
    NonEmpty(SplitLines(csv))
  }

  /** `h.trim().toLowerCase()`: the name a header cell is looked up by. */
  function HeaderKey(h: string): string {
    Lower(Trim(h))
  }

  /**
    The column map `idx` built by `header.split(",").forEach((h, i) => idx[key(h)] = i)`,
    over the header's keys: each key maps to a position that carries it, and no later
    position carries it, so for a repeated name the last column wins.
   */
  function LastPositions(keys: seq<string>): (idx: map<string, nat>)
    ensures idx.Keys == set i | 0 <= i < |keys| :: keys[i]
    ensures forall key :: key in idx ==> idx[key] < |keys| && keys[idx[key]] == key
    ensures forall i :: 0 <= i < |keys| ==> keys[i] in idx && i <= idx[keys[i]]
  {
    if keys == [] then map[]
    else
      var n := |keys| - 1;
      var earlier := LastPositions(keys[..n]);
      assert forall i :: 0 <= i < n ==> keys[..n][i] == keys[i];
      earlier[keys[n] := n]
  }

  /** The key of each header cell, column by column. */
  function HeaderKeys(cells: seq<string>): (keys: seq<string>)
    ensures |keys| == |cells|
    ensures forall i :: 0 <= i < |cells| ==> keys[i] == HeaderKey(cells[i])
  {
    seq(|cells|, i requires 0 <= i < |cells| => HeaderKey(cells[i]))
  }

  /** The column map of a header line's cells. */
  function HeaderIndex(cells: seq<string>): map<string, nat> {
    LastPositions(HeaderKeys(cells))
  }

  /** When no two columns share a name, each name maps to its own column. */
  lemma LastPositionsDistinct(keys: seq<string>)
    requires forall i, j :: 0 <= i < j < |keys| ==> keys[i] != keys[j]
    ensures forall i :: 0 <= i < |keys| ==> keys[i] in LastPositions(keys) && LastPositions(keys)[keys[i]] == i
  {
  }

  /** The header's column map and the data lines after it. */
  datatype Table = Table(index: map<string, nat>, rows: seq<string>)

  /** Parses the fetched text; `None` when it has no non-empty line (the source returns `[]`). */
  function ParseTable(csv: string): (t: Option<Table>)
    ensures t.None? <==> Lines(csv) == []
    ensures t.Some? ==> t.value.rows == Lines(csv)[1..]
    ensures t.Some? ==> t.value.index == HeaderIndex(Split(Lines(csv)[0], ','))
  {
    var lines := Lines(csv);
    if lines == [] then None
    else Some(Table(HeaderIndex(Split(lines[0], ',')), lines[1..]))
  }

  /** `get(key)`, that is `(cols[idx[key]] || "").trim()`: an unknown or missing column reads as "". */
  function Cell(index: map<string, nat>, cols: seq<string>, key: string): (v: string)
    ensures key !in index || index[key] >= |cols| ==> v == ""
    ensures key in index && index[key] < |cols| ==> v == Trim(cols[index[key]])
  {
    if key in index && index[key] < |cols| then Trim(cols[index[key]]) else ""
  }

  /** `rows.map(r => decode(r.split(","))).filter(keep)`. */
  function DecodeRows<T>(index: map<string, nat>, rows: seq<string>,
                         decode: (map<string, nat>, seq<string>) -> T, keep: T -> bool): (r: seq<T>)
    ensures |r| <= |rows|
    ensures forall k :: 0 <= k < |r| ==> keep(r[k])
  {
    if rows == [] then []
    else
      var x := decode(index, Split(rows[0], ','));
      (if keep(x) then [x] else []) + DecodeRows(index, rows[1..], decode, keep)
  }

  /** Decoding is line by line: decoding two blocks of lines concatenates their results, so kept rows keep their order. */
  lemma {:induction false} DecodeRowsAppend<T>(index: map<string, nat>, a: seq<string>, b: seq<string>,
                                               decode: (map<string, nat>, seq<string>) -> T, keep: T -> bool)
    ensures DecodeRows(index, a + b, decode, keep) == DecodeRows(index, a, decode, keep) + DecodeRows(index, b, decode, keep)
  {
    if a != [] {
      DecodeRowsAppend(index, a[1..], b, decode, keep);
      assert (a + b)[1..] == a[1..] + b;
    } else {
      assert a + b == b;
    }
  }

  /** A line is kept exactly when its decoded row passes the filter; nothing is kept twice or out of place. */
  lemma DecodeRowsOne<T>(index: map<string, nat>, line: string,
                         decode: (map<string, nat>, seq<string>) -> T, keep: T -> bool)
    ensures var x := decode(index, Split(line, ','));
            DecodeRows(index, [line], decode, keep) == if keep(x) then [x] else []
  {
  }

  /** The `k`-th line's row survives decoding exactly when it passes the filter, between the rows of the lines around it. */
  lemma DecodeRowsAt<T>(index: map<string, nat>, rows: seq<string>, k: nat,
                        decode: (map<string, nat>, seq<string>) -> T, keep: T -> bool)
    requires k < |rows|
    ensures var x := decode(index, Split(rows[k], ','));
            DecodeRows(index, rows, decode, keep)
              == DecodeRows(index, rows[..k], decode, keep) + (if keep(x) then [x] else [])
                 + DecodeRows(index, rows[k + 1..], decode, keep)
  {
    assert rows == rows[..k] + ([rows[k]] + rows[k + 1..]);
    DecodeRowsAppend(index, rows[..k], [rows[k]] + rows[k + 1..], decode, keep);
    DecodeRowsAppend(index, [rows[k]], rows[k + 1..], decode, keep);
    DecodeRowsOne(index, rows[k], decode, keep);
  }

  /** Two lines, neither holding a line break or the first ending in a carriage return, split back into those lines. */
  lemma LinesOfTwo(header: string, row: string)
    requires header != "" && row != ""
    requires '\n' !in header && '\n' !in row && '\r' !in header
    ensures Lines(header + "\n" + row) == [header, row]
  {
    var csv := header + "\n" + row;
    assert Join([header, row], '\n') == csv by {
      assert [header, row][1..] == [row];
    }
    SplitJoin([header, row], '\n');
    assert header[|header| - 1] in header;
    assert SplitLines(csv) == [header, row];
    assert [header, row][1..] == [row];
  }

  /**
    A sheet of one header line and one data line, neither holding a line break or a
    carriage return: the header's cells give the column map and the other line is the only row.
   */
  lemma ParseTwoLines(header: string, row: string)
    requires header != "" && row != ""
    requires '\n' !in header && '\n' !in row && '\r' !in header
    ensures ParseTable(header + "\n" + row) == Some(Table(HeaderIndex(Split(header, ',')), [row]))
  {
    LinesOfTwo(header, row);
    assert [header, row][1..] == [row];
  }
}
