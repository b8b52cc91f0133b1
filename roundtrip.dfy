/** Emitting records as a flat file (index.js:213-222) and parsing the text back
    (index.js:151-185) gives the records again, for tables the format can
    carry: every record has the first record's keys, keys do not repeat, and no
    key or value holds a line break or a character of the data separator or is
    surrounded by whitespace. Both line separators the emitter documents, `\n`
    and `\r\n`, are read back, since the parser trims the `\r` away. */
module FlatRoundTrip {
  import opened Wrappers
  import opened Text
  import opened Props
  import opened FlatFile
  import opened FlatFileProps
  import opened FlatEmit

  /** Text that survives as one trimmed line. */
  predicate LineSafe(x: string) {
    IsTrimmed(x) && '\n' !in x
  }

  /** A key or value the flat format carries unchanged. */
  predicate Plain(x: string, sep: string) {
    LineSafe(x) && Avoids(x, sep)
  }

  /** Every record has the first record's keys, which are distinct and not
      empty, and every key and value is plain. */
  predicate Tabular(recs: seq<Props<string>>, sep: string) {
    recs != [] ==>
      recs[0] != [] && DistinctKeys(recs[0])
      && (forall i :: 0 <= i < |recs| ==> KeysOf(recs[i]) == KeysOf(recs[0]))
      && (forall i, k :: 0 <= i < |recs| && 0 <= k < |recs[i]| ==> Plain(recs[i][k].0, sep) && Plain(recs[i][k].1, sep))
  }

  lemma ConcatLineSafe(a: string, b: string)
    requires LineSafe(a) && LineSafe(b)
    ensures LineSafe(a + b)
  {
    if a != [] && b != [] {
      assert (a + b)[0] == a[0] && (a + b)[|a + b| - 1] == b[|b| - 1];
    } else if a == [] {
      assert a + b == b;
    } else {
      assert a + b == a;
    }
  }

  /** Joining line-safe pieces with a line-safe separator is line-safe. */
  lemma {:induction false} JoinLineSafe(parts: seq<string>, sep: string)
    requires LineSafe(sep) && forall k :: 0 <= k < |parts| ==> LineSafe(parts[k])
    ensures LineSafe(Join(parts, sep))
    decreases |parts|
  {
    if |parts| > 1 {
      JoinLineSafe(parts[1..], sep);
      ConcatLineSafe(parts[0], sep);
      ConcatLineSafe(parts[0] + sep, Join(parts[1..], sep));
    }
  }

  lemma TrimAllTrimmed(xs: seq<string>)
    requires forall k :: 0 <= k < |xs| ==> IsTrimmed(xs[k])
    ensures TrimAll(xs) == xs
  {
    forall k | 0 <= k < |xs| ensures TrimAll(xs)[k] == xs[k] {
      TrimIdempotent(xs[k]);
    }
  }

  /** A line with the `\r` of a `\r\n` separator left on it trims back to the line. */
  lemma TrimCarriage(x: string, cr: string)
    requires LineSafe(x) && (cr == "" || cr == "\r")
    ensures Trim(x + cr) == x
  {
    TrimOf([], x, cr);
    assert [] + x + cr == x + cr;
  }

  lemma NonBlankOne(y: string)
    requires Trim(y) != []
    ensures NonBlank([y]) == [Trim(y)]
  {
    assert [y][..0] == [];
  }

  lemma NonBlankEmptyText()
    ensures NonBlank(Split("", "\n")) == []
  {
    SplitNone("", '\n');
    assert [""][..0] == [];
    TrimEmpty("");
  }

  lemma LastSplitOff(ls: string)
    requires ls == "\n" || ls == "\r\n"
    ensures ls == ls[..|ls| - 1] + ['\n']
  {
  }

  lemma Regroup<T>(x: seq<T>, cr: seq<T>, nl: T, t: seq<T>)
    ensures x + (cr + [nl]) + t == (x + cr) + [nl] + t
  {
  }

  lemma SeqByElements<T>(a: seq<T>, b: seq<T>)
    requires |a| == |b| && forall i :: 0 <= i < |a| ==> a[i] == b[i]
    ensures a == b
  {
  }

  /** The first terminated line is split off at its `\n`. */
  lemma SplitTerminatedCons(x: string, rest: seq<string>, ls: string)
    requires ls == "\n" || ls == "\r\n"
    requires LineSafe(x)
    ensures Split(Terminated([x] + rest, ls), "\n") == [x + ls[..|ls| - 1]] + Split(Terminated(rest, ls), "\n")
  {
    var cr := ls[..|ls| - 1];
    var t := Terminated(rest, ls);
    TerminatedCons(x, rest, ls);
    LastSplitOff(ls);
    Regroup(x, cr, '\n', t);
    assert '\n' !in x + cr;
    SplitFirst(x + cr, '\n', t);
  }

  /** The lines of a terminated text are read back as they were, whichever
      line separator was used. */
  lemma {:induction false} NonBlankOfTerminated(xs: seq<string>, ls: string)
    requires ls == "\n" || ls == "\r\n"
    requires forall k :: 0 <= k < |xs| ==> xs[k] != [] && LineSafe(xs[k])
    ensures NonBlank(Split(Terminated(xs, ls), "\n")) == xs
    decreases |xs|
  {
    if xs == [] {
      NonBlankEmptyText();
    } else {
      var x := xs[0];
      var rest := xs[1..];
      var cr := ls[..|ls| - 1];
      assert xs == [x] + rest;
      SplitTerminatedCons(x, rest, ls);
      NonBlankOfTerminated(rest, ls);
      NonBlankAppend([x + cr], Split(Terminated(rest, ls), "\n"));
      TrimCarriage(x, cr);
      NonBlankOne(x + cr);
    }
  }

  /** Every emitted line is line-safe. */
  lemma LinesSafe(recs: seq<Props<string>>, sep: string)
    requires LineSafe(sep) && Tabular(recs, sep)
    ensures forall k :: 0 <= k < |Lines(recs, sep)| ==> LineSafe(Lines(recs, sep)[k])
  {
    var lines := Lines(recs, sep);
    forall k | 0 <= k < |lines| ensures LineSafe(lines[k]) {
      if k == 0 {
        JoinLineSafe(KeysOf(recs[0]), sep);
      } else {
        var r := recs[k - 1];
        assert forall m :: 0 <= m < |r| ==> Plain(r[m].1, sep);
        JoinLineSafe(ValuesOf(r), sep);
      }
    }
  }

  /** A value line splits back into the record's values. */
  lemma RowLine(recs: seq<Props<string>>, sep: string, j: nat)
    requires sep != [] && Tabular(recs, sep) && j < |recs|
    ensures Split(Join(ValuesOf(recs[j]), sep), sep) == ValuesOf(recs[j])
    ensures |ValuesOf(recs[j])| == |KeysOf(recs[0])|
  {
    var r := recs[j];
    assert |r| == |KeysOf(recs[j])|;
    assert forall m :: 0 <= m < |r| ==> Plain(r[m].1, sep);
    SplitJoin(ValuesOf(r), sep);
  }

  /** A record whose keys are distinct and whose keys and values are trimmed is
      rebuilt by the parser from its keys and its values. */
  lemma RecordRestored(r: Props<string>, keys: seq<string>)
    requires KeysOf(r) == keys && Distinct(keys)
    requires forall m :: 0 <= m < |r| ==> IsTrimmed(r[m].0) && IsTrimmed(r[m].1)
    ensures RowRecord(keys, ValuesOf(r)) == r
  {
    TrimAllTrimmed(keys);
    TrimAllTrimmed(ValuesOf(r));
    AssignAllZip(keys, ValuesOf(r));
    PropsByKeysValues(RowRecord(keys, ValuesOf(r)), r);
  }

  /** Data line `j` splits into as many cells as there are keys, and the
      parser builds record `j` from them. */
  lemma ParsedRow(recs: seq<Props<string>>, sep: string, j: nat)
    requires sep != [] && Tabular(recs, sep) && j < |recs|
    ensures var row := Lines(recs, sep)[j + 1];
      |Split(row, sep)| == |KeysOf(recs[0])| && RowRecord(KeysOf(recs[0]), Split(row, sep)) == recs[j]
  {
    var r := recs[j];
    RowLine(recs, sep, j);
    assert forall m :: 0 <= m < |r| ==> Plain(r[m].0, sep) && Plain(r[m].1, sep);
    RecordRestored(r, KeysOf(recs[0]));
  }

  lemma DataRows(recs: seq<Props<string>>, sep: string)
    requires sep != [] && Tabular(recs, sep) && recs != []
    ensures var rows := Lines(recs, sep)[1..];
      |rows| == |recs|
      && forall j :: 0 <= j < |rows| ==>
           |Split(rows[j], sep)| == |KeysOf(recs[0])| && RowRecord(KeysOf(recs[0]), Split(rows[j], sep)) == recs[j]
  {
    var lines := Lines(recs, sep);
    var rows := lines[1..];
    forall j | 0 <= j < |rows|
      ensures |Split(rows[j], sep)| == |KeysOf(recs[0])| && RowRecord(KeysOf(recs[0]), Split(rows[j], sep)) == recs[j]
    {
      assert rows[j] == lines[j + 1];
      ParsedRow(recs, sep, j);
    }
  }

  /** Rows that each rebuild the matching record parse to those records. */
  lemma RowsAreRecords(keys: seq<string>, rows: seq<string>, recs: seq<Props<string>>, sep: string)
    requires |rows| == |recs|
    requires forall j :: 0 <= j < |rows| ==>
      |Split(rows[j], sep)| == |keys| && RowRecord(keys, Split(rows[j], sep)) == recs[j]
    ensures Rows(keys, rows, sep) == Ok(recs)
  {
    assert AllMatch(keys, rows, sep);
    RowsOk(keys, rows, sep);
    var parsed := Rows(keys, rows, sep).value;
    SeqByElements(parsed, recs);
  }

  /** The data lines parse to the records. */
  lemma ParsedRows(recs: seq<Props<string>>, sep: string)
    requires sep != [] && Tabular(recs, sep) && recs != []
    ensures Rows(KeysOf(recs[0]), Lines(recs, sep)[1..], sep) == Ok(recs)
  {
    DataRows(recs, sep);
    RowsAreRecords(KeysOf(recs[0]), Lines(recs, sep)[1..], recs, sep);
  }

  /** `parseFlatFile(parseJSONForFlatFile(records))` gives the records back. */
  lemma RoundTrip(recs: seq<Props<string>>, ls: string, sep: string)
    requires ls == "\n" || ls == "\r\n"
    requires sep != [] && LineSafe(sep) && Tabular(recs, sep)
    requires forall k :: 0 <= k < |Lines(recs, sep)| ==> Lines(recs, sep)[k] != []
    ensures FlatSpec(EmitSpec(recs, ls, sep), sep) == Ok(recs)
  {
    var lines := Lines(recs, sep);
    LinesSafe(recs, sep);
    NonBlankOfTerminated(lines, ls);
    if recs != [] {
      assert forall m :: 0 <= m < |recs[0]| ==> Plain(recs[0][m].0, sep);
      SplitJoin(KeysOf(recs[0]), sep);
      ParsedRows(recs, sep);
    }
  }
}
