/** What `parseFlatFile` (index.js:151-185) promises about its result: one
    record per data line under the header, each mapping the trimmed header
    fields to the trimmed cells, and the first line with the wrong number of
    fields named in the error. */
module FlatFileProps {
  import opened Wrappers
  import opened Text
  import opened Props
  import opened FlatFile

  /** Every data row has as many fields as the header. */
  predicate AllMatch(keys: seq<string>, rows: seq<string>, sep: string) {
    forall j :: 0 <= j < |rows| ==> |Split(rows[j], sep)| == |keys|
  }

  lemma AllMatchSnoc(keys: seq<string>, rows: seq<string>, row: string, sep: string)
    ensures AllMatch(keys, rows + [row], sep) <==> AllMatch(keys, rows, sep) && |Split(row, sep)| == |keys|
  {
    assert forall j :: 0 <= j < |rows| ==> (rows + [row])[j] == rows[j];
    assert (rows + [row])[|rows|] == row;
  }

  /** The rows parse exactly when every one of them has the header's field
      count, and then row `j` gives record `j`. */
  lemma {:induction false} RowsOk(keys: seq<string>, rows: seq<string>, sep: string)
    ensures Rows(keys, rows, sep).Ok? <==> AllMatch(keys, rows, sep)
    ensures Rows(keys, rows, sep).Ok? ==>
      forall j :: 0 <= j < |rows| ==>
        |Split(rows[j], sep)| == |keys| && Rows(keys, rows, sep).value[j] == RowRecord(keys, Split(rows[j], sep))
    decreases |rows|
  {
    if rows != [] {
      var n := |rows| - 1;
      var init := rows[..n];
      var row := rows[n];
      assert rows == init + [row];
      RowsOk(keys, init, sep);
      RowsSnoc(keys, init, row, sep);
      AllMatchSnoc(keys, init, row, sep);
      if Rows(keys, rows, sep).Ok? {
        var recs := Rows(keys, init, sep).value;
        assert Rows(keys, rows, sep).value == recs + [RowRecord(keys, Split(row, sep))];
        forall j | 0 <= j < |rows|
          ensures |Split(rows[j], sep)| == |keys| && Rows(keys, rows, sep).value[j] == RowRecord(keys, Split(rows[j], sep))
        {
          if j < n {
            assert rows[j] == init[j];
          }
        }
      }
    }
  }

  lemma CutAt<T>(s: seq<T>, j: nat)
    requires j < |s|
    ensures s[..j + 1] == s[..j] + [s[j]] && s[..j + 1] + s[j + 1..] == s
  {
  }

  /** The first row with the wrong field count is the one the error names. */
  lemma FirstMismatch(keys: seq<string>, rows: seq<string>, sep: string, j: nat)
    requires j < |rows| && |Split(rows[j], sep)| != |keys|
    requires AllMatch(keys, rows[..j], sep)
    ensures Rows(keys, rows, sep) == Err(DataMismatch(rows[j]))
  {
    RowsOk(keys, rows[..j], sep);
    RowsSnoc(keys, rows[..j], rows[j], sep);
    CutAt(rows, j);
    RowsErrSticky(keys, rows[..j + 1], rows[j + 1..], sep);
  }

  /** Row `j` is the first whose field count differs from the header's. */
  predicate MismatchAt(keys: seq<string>, rows: seq<string>, sep: string, j: int) {
    0 <= j < |rows| && |Split(rows[j], sep)| != |keys| && AllMatch(keys, rows[..j], sep)
  }

  /** An error always names the first row with the wrong field count. */
  lemma {:induction false} RowsErrFirst(keys: seq<string>, rows: seq<string>, sep: string)
    requires Rows(keys, rows, sep).Err?
    ensures exists j :: MismatchAt(keys, rows, sep, j) && Rows(keys, rows, sep) == Err(DataMismatch(rows[j]))
    decreases |rows|
  {
    var n := |rows| - 1;
    var init := rows[..n];
    assert rows == init + [rows[n]];
    RowsSnoc(keys, init, rows[n], sep);
    if Rows(keys, init, sep).Err? {
      RowsErrFirst(keys, init, sep);
      var j :| MismatchAt(keys, init, sep, j) && Rows(keys, init, sep) == Err(DataMismatch(init[j]));
      assert rows[j] == init[j] && rows[..j] == init[..j];
      assert MismatchAt(keys, rows, sep, j);
    } else {
      RowsOk(keys, init, sep);
      assert MismatchAt(keys, rows, sep, n);
    }
  }

  /** The lines `parseFlatFile` looks at: trimmed, never blank. */
  lemma {:induction false} NonBlankLines(lines: seq<string>)
    ensures forall k :: 0 <= k < |NonBlank(lines)| ==> NonBlank(lines)[k] != [] && IsTrimmed(NonBlank(lines)[k])
    decreases |lines|
  {
    if lines != [] {
      var n := |lines| - 1;
      NonBlankLines(lines[..n]);
      assert lines[..n + 1] == lines;
      NonBlankSnoc(lines, n);
    }
  }

  lemma {:induction false} NonBlankAppend(a: seq<string>, b: seq<string>)
    ensures NonBlank(a + b) == NonBlank(a) + NonBlank(b)
    decreases |b|
  {
    if b == [] {
      assert a + b == a;
    } else {
      var b' := b[..|b| - 1];
      assert (a + b)[..|a + b| - 1] == a + b';
      NonBlankAppend(a, b');
    }
  }

  /** Blank lines anywhere, and the line structure around them, do not matter:
      only the sequence of non-blank trimmed lines does. */
  lemma BlankLinesIgnored(a: seq<string>, b: seq<string>, blank: string, sep: string)
    requires AllWhitespace(blank)
    ensures ScanLines(a + [blank] + b, sep) == ScanLines(a + b, sep)
  {
    ScanIsSummary(a + [blank] + b, sep);
    ScanIsSummary(a + b, sep);
    BlankDropped(a, b, blank);
    SummaryOfNonBlank(a + [blank] + b, a + b, sep);
  }

  lemma BlankDropped(a: seq<string>, b: seq<string>, blank: string)
    requires AllWhitespace(blank)
    ensures NonBlank(a + [blank] + b) == NonBlank(a + b)
  {
    var na := NonBlank(a);
    NonBlankAppend(a + [blank], b);
    NonBlankAppend(a, [blank]);
    NonBlankAppend(a, b);
    assert [blank][..0] == [];
    TrimEmpty(blank);
    assert NonBlank([blank]) == [];
    assert na + [] == na;
  }

  lemma SummaryOfNonBlank(x: seq<string>, y: seq<string>, sep: string)
    requires NonBlank(x) == NonBlank(y)
    ensures Summary(x, sep) == Summary(y, sep)
  {
  }

  /** The whole file: with `nb` its non-blank trimmed lines, the parse fails
      exactly when some line after the first has a field count different from
      the first's; otherwise there is one record per line after the first. */
  lemma FlatSpecRecords(ffString: string, sep: string)
    ensures var nb := NonBlank(Split(ffString, "\n"));
      && (nb == [] ==> FlatSpec(ffString, sep) == Ok([]))
      && (nb != [] ==>
            (FlatSpec(ffString, sep).Ok? <==> AllMatch(Split(nb[0], sep), nb[1..], sep))
            && (FlatSpec(ffString, sep).Ok? ==>
                  |FlatSpec(ffString, sep).value| == |nb| - 1
                  && forall j :: 1 <= j < |nb| ==>
                       |Split(nb[j], sep)| == |Split(nb[0], sep)|
                       && FlatSpec(ffString, sep).value[j - 1] == RowRecord(Split(nb[0], sep), Split(nb[j], sep))))
  {
    var nb := NonBlank(Split(ffString, "\n"));
    if nb != [] {
      var keys := Split(nb[0], sep);
      RowsOk(keys, nb[1..], sep);
      if FlatSpec(ffString, sep).Ok? {
        forall j | 1 <= j < |nb|
          ensures |Split(nb[j], sep)| == |keys| && FlatSpec(ffString, sep).value[j - 1] == RowRecord(keys, Split(nb[j], sep))
        {
          assert nb[1..][j - 1] == nb[j];
        }
      }
    }
  }

  /** The first line after the header with the wrong field count is the one
      `parseFlatFile` reports. */
  lemma FlatSpecMismatch(ffString: string, sep: string, j: nat)
    requires var nb := NonBlank(Split(ffString, "\n"));
      1 <= j < |nb| && |Split(nb[j], sep)| != |Split(nb[0], sep)|
      && forall k :: 1 <= k < j ==> |Split(nb[k], sep)| == |Split(nb[0], sep)|
    ensures FlatSpec(ffString, sep) == Err(DataMismatch(NonBlank(Split(ffString, "\n"))[j]))
  {
    var nb := NonBlank(Split(ffString, "\n"));
    var keys := Split(nb[0], sep);
    var rows := nb[1..];
    assert rows[j - 1] == nb[j];
    var before := rows[..j - 1];
    assert AllMatch(keys, before, sep) by {
      forall k | 0 <= k < |before| ensures |Split(before[k], sep)| == |keys| {
        assert before[k] == nb[k + 1];
      }
    }
    FirstMismatch(keys, rows, sep, j - 1);
  }

  /** Line `j` of the non-blank lines `nb` is the first after the header whose
      field count differs from the header's. */
  predicate FirstBadLine(nb: seq<string>, sep: string, j: int) {
    1 <= j < |nb| && |Split(nb[j], sep)| != |Split(nb[0], sep)|
    && forall k :: 1 <= k < j ==> |Split(nb[k], sep)| == |Split(nb[0], sep)|
  }

  /** When `parseFlatFile` fails, the message names a line after the header
      whose field count differs from the header's, and every line between them
      matched. */
  lemma FlatSpecFailure(ffString: string, sep: string)
    requires FlatSpec(ffString, sep).Err?
    ensures var e := FlatSpec(ffString, sep).error;
      Message(e) == "Invalid Flat file data: Data mismatch with the header on the line:." + e.line
    ensures exists j :: FirstBadLine(NonBlank(Split(ffString, "\n")), sep, j)
                 && FlatSpec(ffString, sep).error.line == NonBlank(Split(ffString, "\n"))[j]
  {
    var nb := NonBlank(Split(ffString, "\n"));
    var keys := Split(nb[0], sep);
    var rows := nb[1..];
    RowsErrFirst(keys, rows, sep);
    var i :| MismatchAt(keys, rows, sep, i) && Rows(keys, rows, sep) == Err(DataMismatch(rows[i]));
    assert rows[i] == nb[i + 1];
    forall k | 1 <= k < i + 1 ensures |Split(nb[k], sep)| == |keys| {
      assert rows[..i][k - 1] == nb[k];
    }
    assert FlatSpec(ffString, sep) == Rows(keys, rows, sep);
    assert FirstBadLine(nb, sep, i + 1);
  }

  /** A record never holds a field twice, whatever the header repeats. */
  lemma RowRecordDistinct(keys: seq<string>, cells: seq<string>)
    requires |keys| == |cells|
    ensures DistinctKeys(RowRecord(keys, cells))
  {
    AssignAllDistinct(TrimAll(keys), TrimAll(cells));
  }

  /** A field's value is the trimmed cell under the last header field with
      that trimmed name. */
  lemma RowRecordLookup(keys: seq<string>, cells: seq<string>, i: nat)
    requires |keys| == |cells| && i < |keys|
    requires forall j :: i < j < |keys| ==> Trim(keys[j]) != Trim(keys[i])
    ensures Lookup(RowRecord(keys, cells), Trim(keys[i])) == Some(Trim(cells[i]))
  {
    var tk := TrimAll(keys);
    assert LastAt(tk, i) by {
      forall j | i < j < |tk| ensures tk[j] != tk[i] {
        assert tk[j] == Trim(keys[j]);
      }
    }
    AssignAllLookup(tk, TrimAll(cells), i);
  }

  /** A name that no trimmed header field has is not a field of the record. */
  lemma RowRecordMissing(keys: seq<string>, cells: seq<string>, k: string)
    requires |keys| == |cells| && forall j :: 0 <= j < |keys| ==> Trim(keys[j]) != k
    ensures Lookup(RowRecord(keys, cells), k) == None
  {
    AssignAllMissing(TrimAll(keys), TrimAll(cells), k);
  }

  /** With distinct trimmed header fields, the record lists the trimmed header
      fields in order, each with the trimmed cell below it. */
  lemma RowRecordZip(keys: seq<string>, cells: seq<string>)
    requires |keys| == |cells| && Distinct(TrimAll(keys))
    ensures KeysOf(RowRecord(keys, cells)) == TrimAll(keys)
    ensures ValuesOf(RowRecord(keys, cells)) == TrimAll(cells)
  {
    AssignAllZip(TrimAll(keys), TrimAll(cells));
  }
}
