/** The emission loop of `parseJSONForFlatFile` (index.js:213-222) over records
    already decoded from JSON: the first record's keys make the header line, and
    every record's values make one line each, every line followed by the line
    separator. A record is an object's own properties in order, every value
    already a string. */
module FlatEmit {
  import opened Text
  import opened Props

  /** The lines written, without separators: none for no records, otherwise the
      first record's keys and then every record's values. */
  function Lines(recs: seq<Props<string>>, ds: string): (r: seq<string>)
    ensures recs == [] ==> r == []
    ensures recs != [] ==> |r| == |recs| + 1 && r[0] == Join(KeysOf(recs[0]), ds)
    ensures recs != [] ==> forall i :: 0 <= i < |recs| ==> r[i + 1] == Join(ValuesOf(recs[i]), ds)
  {
    if recs == [] then []
    else
      var n := |recs| - 1;
      var init := recs[..n];
      assert n > 0 ==> init[0] == recs[0];
      assert forall i :: 0 <= i < n ==> init[i] == recs[i];
      (if n == 0 then [Join(KeysOf(recs[0]), ds)] else Lines(init, ds)) + [Join(ValuesOf(recs[n]), ds)]
  }

  /** Every line followed by the line separator. */
  function Terminated(xs: seq<string>, ls: string): string {
    if xs == [] then "" else Terminated(xs[..|xs| - 1], ls) + xs[|xs| - 1] + ls
  }

  /** The string `parseJSONForFlatFile` returns for the decoded records. */
  function EmitSpec(recs: seq<Props<string>>, ls: string, ds: string): string {
    Terminated(Lines(recs, ds), ls)
  }

  lemma TerminatedSnoc(xs: seq<string>, x: string, ls: string)
    ensures Terminated(xs + [x], ls) == Terminated(xs, ls) + x + ls
  {
    assert (xs + [x])[..|xs|] == xs;
  }

  lemma Reassociate(a: string, b: string, c: string, d: string)
    ensures (a + b) + c + d == a + (b + c + d)
  {
  }

  /** Read from the front: the first line, its separator, then the rest. */
  lemma {:induction false} TerminatedCons(x: string, xs: seq<string>, ls: string)
    ensures Terminated([x] + xs, ls) == x + ls + Terminated(xs, ls)
    decreases |xs|
  {
    if xs == [] {
      assert [x] + xs == [] + [x];
      TerminatedSnoc([], x, ls);
    } else {
      var init := xs[..|xs| - 1];
      var last := xs[|xs| - 1];
      assert xs == init + [last];
      assert [x] + xs == ([x] + init) + [last];
      TerminatedSnoc([x] + init, last, ls);
      TerminatedCons(x, init, ls);
      TerminatedSnoc(init, last, ls);
      Reassociate(x + ls, Terminated(init, ls), last, ls);
    }
  }

  /** One more record adds its value line, and the first also the header. */
  lemma LinesSnoc(recs: seq<Props<string>>, i: nat, ds: string)
    requires i < |recs|
    ensures Lines(recs[..i + 1], ds)
      == (if i == 0 then [Join(KeysOf(recs[0]), ds)] else Lines(recs[..i], ds)) + [Join(ValuesOf(recs[i]), ds)]
  {
    assert recs[..i + 1][..i] == recs[..i];
    assert recs[..i + 1][0] == recs[0];
  }

  /** The loop of index.js:216-222. */
  method EmitFlatFile(jsonObjArray: seq<Props<string>>, lineSeparator: string, dataSeparator: string)
    returns (result: string)
    ensures result == EmitSpec(jsonObjArray, lineSeparator, dataSeparator)
  {
    result := "";
    var index := 0;
    while index < |jsonObjArray|
      invariant 0 <= index <= |jsonObjArray|
      invariant result == EmitSpec(jsonObjArray[..index], lineSeparator, dataSeparator)
    {
      var jsonObj := jsonObjArray[index];
      var before := Lines(jsonObjArray[..index], dataSeparator);
      var values := Join(ValuesOf(jsonObj), dataSeparator);
      LinesSnoc(jsonObjArray, index, dataSeparator);
      if index == 0 {
        var keys := Join(KeysOf(jsonObj), dataSeparator);
        TerminatedSnoc([], keys, lineSeparator);
        TerminatedSnoc([keys], values, lineSeparator);
        result := result + keys + lineSeparator;
      } else {
        TerminatedSnoc(before, values, lineSeparator);
      }
      result := result + values + lineSeparator;
      index := index + 1;
    }
    assert jsonObjArray[..index] == jsonObjArray;
  }

  /** No records, no output. */
  lemma EmitEmpty(ls: string, ds: string)
    ensures EmitSpec([], ls, ds) == ""
  {
  }

  /** The output is the header line, then one line per record, each line ended
      by the line separator. */
  lemma EmitShape(recs: seq<Props<string>>, ls: string, ds: string)
    requires recs != []
    ensures var lines := Lines(recs, ds);
      EmitSpec(recs, ls, ds) == Join(KeysOf(recs[0]), ds) + ls + Terminated(lines[1..], ls)
  {
    var lines := Lines(recs, ds);
    assert lines == [lines[0]] + lines[1..];
    TerminatedCons(lines[0], lines[1..], ls);
  }

  /** Only the first record's keys are written: records that agree on the first
      record's keys and on every record's values give the same output, whatever
      the keys of the later records. */
  lemma EmitFirstKeysOnly(recs: seq<Props<string>>, other: seq<Props<string>>, ls: string, ds: string)
    requires |recs| == |other| && recs != []
    requires KeysOf(recs[0]) == KeysOf(other[0])
    requires forall i :: 0 <= i < |recs| ==> ValuesOf(recs[i]) == ValuesOf(other[i])
    ensures EmitSpec(recs, ls, ds) == EmitSpec(other, ls, ds)
  {
    var a := Lines(recs, ds);
    var b := Lines(other, ds);
    forall k | 0 <= k < |a| ensures a[k] == b[k] {
      if k > 0 {
        assert a[k] == Join(ValuesOf(recs[k - 1]), ds);
      }
    }
    assert a == b;
  }
}
