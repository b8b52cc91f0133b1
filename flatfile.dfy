/** `parseFlatFile` (index.js:151-185): a delimiter-separated table. The first
    non-blank line is the header; every later non-blank line becomes a record
    that maps each trimmed header field to the trimmed cell below it, and a line
    whose field count differs from the header's aborts the parse. */
module FlatFile {
  import opened Wrappers
  import opened Text
  import opened Props

  datatype FlatError = DataMismatch(line: string)

  /** The text of the `Error` that index.js:177-180 throws, naming the line. */
  function Message(e: FlatError): string {
    "Invalid Flat file data: Data mismatch with the header on the line:." + e.line
  }

  /** A parsed row: field names to cells, in header order. */
  type Record = Props<string>

  /** The object the inner loop builds: `currentObj[key.trim()] = cell.trim()`
      for each field in turn, so a repeated field name keeps its first place and
      its last cell. */
  function RowRecord(keys: seq<string>, cells: seq<string>): Record
    requires |keys| == |cells|
  {
    AssignAll(TrimAll(keys), TrimAll(cells))
  }

  /** The trimmed lines that are not blank, in order. */
  function NonBlank(lines: seq<string>): (r: seq<string>)
    ensures |r| <= |lines|
  {
    if lines == [] then []
    else
      var t := Trim(lines[|lines| - 1]);
      NonBlank(lines[..|lines| - 1]) + (if t == "" then [] else [t])
  }

  /** The data rows under the header fields `keys`, stopping at the first row
      whose field count differs. */
  function Rows(keys: seq<string>, rows: seq<string>, sep: string): (r: Result<seq<Record>, FlatError>)
    ensures r.Ok? ==> |r.value| == |rows|
  {
    if rows == [] then Ok([])
    else
      match Rows(keys, rows[..|rows| - 1], sep)
      case Err(e) => Err(e)
      case Ok(recs) =>
        var row := rows[|rows| - 1];
        var cells := Split(row, sep);
        if |cells| == |keys| then Ok(recs + [RowRecord(keys, cells)]) else Err(DataMismatch(row))
  }

  /** What `parseFlatFile` returns or throws. */
  function FlatSpec(ffString: string, sep: string): Result<seq<Record>, FlatError> {
    var lines := NonBlank(Split(ffString, "\n"));
    if lines == [] then Ok([]) else Rows(Split(lines[0], sep), lines[1..], sep)
  }

  /** Once a row has failed, later rows do not matter. */
  lemma {:induction false} RowsErrSticky(keys: seq<string>, a: seq<string>, b: seq<string>, sep: string)
    requires Rows(keys, a, sep).Err?
    ensures Rows(keys, a + b, sep) == Rows(keys, a, sep)
    decreases |b|
  {
    if b == [] {
      assert a + b == a;
    } else {
      var b' := b[..|b| - 1];
      assert (a + b)[..|a + b| - 1] == a + b';
      RowsErrSticky(keys, a, b', sep);
    }
  }

  lemma RowRecordSnoc(keys: seq<string>, cells: seq<string>, i: nat)
    requires |keys| == |cells| && i < |keys|
    ensures RowRecord(keys[..i + 1], cells[..i + 1])
      == Assign(RowRecord(keys[..i], cells[..i]), Trim(keys[i]), Trim(cells[i]))
  {
    TakeSnoc(keys, i);
    TakeSnoc(cells, i);
    AssignAllSnoc(TrimAll(keys[..i]), TrimAll(cells[..i]), Trim(keys[i]), Trim(cells[i]));
  }

  /** The inner loop of index.js:167-172. */
  method BuildRecord(keyList: seq<string>, objLine: seq<string>) returns (currentObj: Record)
    requires |keyList| == |objLine|
    ensures currentObj == RowRecord(keyList, objLine)
  {
    currentObj := [];
    var index := 0;
    while index < |keyList|
      invariant 0 <= index <= |keyList|
      invariant currentObj == RowRecord(keyList[..index], objLine[..index])
    {
      var key := Trim(keyList[index]);
      var value := Trim(objLine[index]);
      RowRecordSnoc(keyList, objLine, index);
      currentObj := Assign(currentObj, key, value);
      index := index + 1;
    }
    assert keyList[..index] == keyList && objLine[..index] == objLine;
  }

  lemma NonBlankSnoc(lines: seq<string>, i: nat)
    requires i < |lines|
    ensures NonBlank(lines[..i + 1])
      == NonBlank(lines[..i]) + (if Trim(lines[i]) == "" then [] else [Trim(lines[i])])
  {
    assert lines[..i + 1][..i] == lines[..i];
  }

  lemma RowsSnoc(keys: seq<string>, rows: seq<string>, line: string, sep: string)
    ensures Rows(keys, rows + [line], sep)
      == match Rows(keys, rows, sep)
         case Err(e) => Err(e)
         case Ok(recs) =>
           if |Split(line, sep)| == |keys| then Ok(recs + [RowRecord(keys, Split(line, sep))])
           else Err(DataMismatch(line))
  {
    assert (rows + [line])[..|rows|] == rows;
  }

  /** The loop's variables between two lines: `keyList`, `keyLine` and `result`. */
  datatype Scan = Scan(keyList: seq<string>, keyLine: nat, result: seq<Record>)

  /** One turn of the loop of index.js:158-184 on the raw line `raw`. */
  function Step(st: Scan, raw: string, sep: string): Result<Scan, FlatError> {
    var line := Trim(raw);
    if line == "" then Ok(st)
    else if st.keyLine == 0 then Ok(st.(keyList := Split(line, sep), keyLine := st.keyLine + 1))
    else
      var objLine := Split(line, sep);
      if |objLine| == |st.keyList| then Ok(st.(result := st.result + [RowRecord(st.keyList, objLine)]))
      else Err(DataMismatch(line))
  }

  /** The loop run over `lines`; the first error ends it. */
  function ScanLines(lines: seq<string>, sep: string): Result<Scan, FlatError> {
    if lines == [] then Ok(Scan([], 0, []))
    else
      match ScanLines(lines[..|lines| - 1], sep)
      case Err(e) => Err(e)
      case Ok(st) => Step(st, lines[|lines| - 1], sep)
  }

  /** What the loop has seen after `lines`, read off the non-blank lines: the
      first is the header and the rest are data rows. */
  function Summary(lines: seq<string>, sep: string): Result<Scan, FlatError> {
    var nb := NonBlank(lines);
    if nb == [] then Ok(Scan([], 0, []))
    else
      match Rows(Split(nb[0], sep), nb[1..], sep)
      case Err(e) => Err(e)
      case Ok(recs) => Ok(Scan(Split(nb[0], sep), 1, recs))
  }

  lemma TailSnoc<T>(a: seq<T>, x: T)
    requires a != []
    ensures (a + [x])[0] == a[0] && (a + [x])[1..] == a[1..] + [x]
  {
  }

  /** The loop computes the header-then-rows reading of the file. */
  lemma {:induction false} ScanIsSummary(lines: seq<string>, sep: string)
    ensures ScanLines(lines, sep) == Summary(lines, sep)
    decreases |lines|
  {
    if lines != [] {
      var n := |lines| - 1;
      var init := lines[..n];
      assert lines[..n + 1] == lines;
      ScanIsSummary(init, sep);
      NonBlankSnoc(lines, n);
      var nb := NonBlank(init);
      var line := Trim(lines[n]);
      var all := NonBlank(lines);
      if line == "" {
        assert all == nb;
      } else if nb != [] {
        TailSnoc(nb, line);
        RowsSnoc(Split(nb[0], sep), nb[1..], line, sep);
      } else {
        assert all == [line];
        assert all[1..] == [];
      }
    }
  }

  lemma TakeSnoc<T>(s: seq<T>, i: nat)
    requires i < |s|
    ensures s[..i + 1][..i] == s[..i] && s[..i + 1][i] == s[i] && |s[..i + 1]| == i + 1
  {
  }

  /** One more line is one more step. */
  lemma ScanSnoc(lines: seq<string>, i: nat, sep: string)
    requires i < |lines|
    ensures ScanLines(lines[..i], sep).Err? ==> ScanLines(lines[..i + 1], sep) == ScanLines(lines[..i], sep)
    ensures ScanLines(lines[..i], sep).Ok? ==> ScanLines(lines[..i + 1], sep) == Step(ScanLines(lines[..i], sep).value, lines[i], sep)
  {
    TakeSnoc(lines, i);
  }

  /** After an error the remaining lines do not matter. */
  lemma {:induction false} ScanErrSticky(lines: seq<string>, n: nat, sep: string)
    requires n <= |lines| && ScanLines(lines[..n], sep).Err?
    ensures ScanLines(lines, sep) == ScanLines(lines[..n], sep)
    decreases |lines| - n
  {
    if n < |lines| {
      assert lines[..n + 1][..n] == lines[..n];
      ScanErrSticky(lines, n + 1, sep);
    } else {
      assert lines[..n] == lines;
    }
  }

  /** The file's records, or the error, from the loop's final state. */
  lemma FlatSpecByScan(ffString: string, sep: string)
    ensures FlatSpec(ffString, sep)
      == match ScanLines(Split(ffString, "\n"), sep)
         case Err(e) => Err(e)
         case Ok(st) => Ok(st.result)
  {
    ScanIsSummary(Split(ffString, "\n"), sep);
  }

  /** One turn of the loop of index.js:158-184: `trim`, `continue` on a blank
      line, the header `split` on the first line, otherwise the data branch. */
  method ScanLine(st: Scan, raw: string, dataSeparator: string) returns (r: Result<Scan, FlatError>)
    ensures r == Step(st, raw, dataSeparator)
  {
    var line := Trim(raw);
    if line == "" {
      r := Ok(st);
    } else if st.keyLine == 0 {
      r := Ok(st.(keyList := Split(line, dataSeparator), keyLine := st.keyLine + 1));
    } else {
      r := DataLine(st, raw, line, dataSeparator);
    }
  }

  /** The data branch of index.js:167-180: `split` the line, build and push the
      record when the field counts agree, otherwise the mismatch `throw`. */
  method DataLine(st: Scan, raw: string, line: string, dataSeparator: string) returns (r: Result<Scan, FlatError>)
    requires line == Trim(raw) && line != "" && st.keyLine != 0
    ensures r == Step(st, raw, dataSeparator)
  {
    var objLine := Split(line, dataSeparator);
    if |objLine| == |st.keyList| {
      var currentObj := BuildRecord(st.keyList, objLine);
      r := Ok(st.(result := st.result + [currentObj]));
    } else {
      r := Err(DataMismatch(line));
    }
  }

  /** The loop of index.js:158-184 over the lines of the file. */
  method ScanAll(lines: seq<string>, dataSeparator: string) returns (r: Result<seq<Record>, FlatError>)
    ensures r == match ScanLines(lines, dataSeparator)
                 case Err(e) => Err(e)
                 case Ok(s) => Ok(s.result)
  {
    var result: seq<Record> := [];
    var keyList: seq<string> := [];
    var keyLine: nat := 0;
    var i := 0;
    assert lines[..0] == [];
    while i < |lines|
      invariant 0 <= i <= |lines|
      invariant ScanLines(lines[..i], dataSeparator) == Ok(Scan(keyList, keyLine, result))
    {
      ScanSnoc(lines, i, dataSeparator);
      var next := ScanLine(Scan(keyList, keyLine, result), lines[i], dataSeparator);
      if next.Err? {
        ScanErrSticky(lines, i + 1, dataSeparator);
        return Err(next.error);
      }
      keyList, keyLine, result := next.value.keyList, next.value.keyLine, next.value.result;
      i := i + 1;
    }
    assert lines[..i] == lines;
    r := Ok(result);
  }

  /** `parseFlatFile`: split into lines, then scan them. */
  method ParseFlatFile(ffString: string, dataSeparator: string) returns (r: Result<seq<Record>, FlatError>)
    ensures r == FlatSpec(ffString, dataSeparator)
  {
    var lines := Split(ffString, "\n");
    FlatSpecByScan(ffString, dataSeparator);
    r := ScanAll(lines, dataSeparator);
  }
}
