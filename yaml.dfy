/** `parseYAML` (index.js:31-114): a line-by-line state machine for a small YAML
    subset. `Step` is one turn of its loop, `Run` the loop over a prefix of the
    lines, and `ParseYAML` the loop itself, proved to compute `ParseSpec`. */
module Yaml {
  import opened Wrappers
  import opened Text
  import opened Props
  import opened Values
  import opened Heap

  datatype YamlError = MissingStartMarker

  /** The text of the `Error` that index.js:106-108 throws. */
  function Message(e: YamlError): string {
    "Invalid YAML string: Missing '---' document start marker"
  }

  /** A saved `{ object, array }` pair on the stack. */
  datatype Frame = Frame(obj: nat, list: Option<nat>)

  /** The loop's variables: the heap, `resultList` (docs), `result`,
      `currentIndent`, `currentObj`, `stack`, `currentArray`, `currentKey`
      and `startFound`. */
  datatype State = State(
    heap: Arena,
    docs: seq<nat>,
    result: nat,
    indent: int,
    current: nat,
    stack: seq<Frame>,
    list: Option<nat>,
    key: Option<string>,
    started: bool)

  /** The parsed documents: addresses of their root objects in the heap. */
  datatype Output = Output(heap: Arena, docs: seq<nat>)

  predicate FrameOk(h: Arena, base: nat, f: Frame) {
    base <= f.obj < |h|
    && (f.list.Some? ==> base <= f.list.value < |h| && h[f.list.value].isArray)
  }

  /** Where closed document `k` ends: at the next closed root, or at the current
      root for the last one. */
  function DocEnd(docs: seq<nat>, result: nat, k: nat): nat
    requires k < |docs|
  {
    if k + 1 < |docs| then docs[k + 1] else result
  }

  /** Each closed document's nodes refer only to one another. */
  predicate Segmented(h: Arena, docs: seq<nat>, result: nat) {
    forall k :: 0 <= k < |docs| ==> SelfContained(h, docs[k], DocEnd(docs, result, k))
  }

  /** The closed documents and the current root. Each closed document has at
      least one key and refers only to its own nodes, everything below the
      current root is sealed, and the current document refers only to nodes at
      or above its root. */
  predicate HeapOk(h: Arena, result: nat, docs: seq<nat>) {
    result < |h| && !h[result].isArray
    && (forall k :: 0 <= k < |docs| ==> docs[k] < result && !h[docs[k]].isArray && |h[docs[k]].props| > 0)
    && (forall k, l :: 0 <= k < l < |docs| ==> docs[k] < docs[l])
    && Closed(h) && ClosedBelow(h, result)
    && SelfContained(h, result, |h|) && Segmented(h, docs, result)
  }

  /** The containers the parser may still write to all lie in the current
      document (at or above its root), `currentArray` is an array, and a key
      has been opened whenever the stack is non-empty. */
  predicate ContextOk(st: State) {
    var h := st.heap;
    st.result <= st.current < |h|
    && (st.list.Some? ==> st.result <= st.list.value < |h| && h[st.list.value].isArray)
    && (forall k :: 0 <= k < |st.stack| ==> FrameOk(h, st.result, st.stack[k]))
    && (|st.stack| > 0 ==> st.key.Some?)
  }

  predicate Valid(st: State) {
    HeapOk(st.heap, st.result, st.docs) && ContextOk(st)
  }

  /** The two states belong to the same document. */
  predicate SameDocument(st: State, r: State) {
    r.result == st.result && r.docs == st.docs && r.started == st.started
  }

  /** A later state of the same document: only its own nodes were written. */
  predicate Advances(st: State, r: State) {
    SameDocument(st, r) && Grows(st.heap, r.heap, st.result)
  }

  lemma HeapOkGrows(h: Arena, h': Arena, result: nat, docs: seq<nat>)
    requires HeapOk(h, result, docs) && Grows(h, h', result) && Closed(h')
    requires SelfContained(h', result, |h'|)
    ensures HeapOk(h', result, docs)
  {
    assert forall a :: 0 <= a < result ==> h'[a] == h[a];
    forall k | 0 <= k < |docs| ensures SelfContained(h', docs[k], DocEnd(docs, result, k)) {
      SelfContainedKept(h, h', docs[k], DocEnd(docs, result, k));
    }
  }

  /** A `---` line closes the current document, or merges its nodes into the
      last closed document's range when it is dropped for having no key. */
  lemma ResetSegmented(h: Arena, result: nat, docs: seq<nat>, docs': seq<nat>)
    requires HeapOk(h, result, docs)
    requires docs' == docs + [result] || docs' == docs
    ensures Segmented(h + [EmptyObjectNode], docs', |h|)
  {
    var h' := h + [EmptyObjectNode];
    assert forall a :: 0 <= a < |h| ==> h'[a] == h[a];
    forall k | 0 <= k < |docs'| ensures SelfContained(h', docs'[k], DocEnd(docs', |h|, k)) {
      if k == |docs| {
        SelfContainedKept(h, h', result, |h|);
      } else if docs' == docs && k == |docs| - 1 {
        SelfContainedJoin(h, docs[k], result, |h|);
        SelfContainedKept(h, h', docs[k], |h|);
      } else {
        assert docs'[k] == docs[k] && DocEnd(docs', |h|, k) == DocEnd(docs, result, k);
        SelfContainedKept(h, h', docs[k], DocEnd(docs, result, k));
      }
    }
  }

  lemma FramesGrow(h: Arena, h': Arena, base: nat, stack: seq<Frame>)
    requires forall k :: 0 <= k < |stack| ==> FrameOk(h, base, stack[k])
    requires Grows(h, h', base)
    ensures forall k :: 0 <= k < |stack| ==> FrameOk(h', base, stack[k])
  {
  }

  function Init(): (st: State)
    ensures Valid(st) && !st.started && st.docs == []
  {
    State([EmptyObjectNode], [], 0, 0, 0, [], None, None, false)
  }

  /** The key a property is written under: JavaScript turns `null` into "null". */
  function KeyName(k: Option<string>): string {
    match k
    case Some(s) => s
    case None => "null"
  }

  /** A `---` line (index.js:48-60): close the document if it has a key, and
      start a fresh one. */
  function Reset(st: State): (r: State)
    requires Valid(st)
    ensures Valid(r) && r.started
  {
    var docs := if |st.heap[st.result].props| != 0 then st.docs + [st.result] else st.docs;
    var n := |st.heap|;
    ClosedAlloc(st.heap, EmptyObjectNode);
    ResetSegmented(st.heap, st.result, st.docs, docs);
    State(st.heap + [EmptyObjectNode], docs, n, 0, n, [], None, None, true)
  }

  /** One turn of the pop loop (index.js:73-77). The popped object is always a
      container, so `object || currentObj` is the popped object. */
  function PopFrame(st: State): (r: State)
    requires Valid(st) && |st.stack| > 0
    ensures Valid(r) && Advances(st, r)
  {
    var f := st.stack[|st.stack| - 1];
    assert FrameOk(st.heap, st.result, f);
    var h := if st.list.Some? then SetProp(st.heap, f.obj, KeyName(st.key), Ref(st.list.value)) else st.heap;
    assert Closed(h) && Grows(st.heap, h, st.result) && SelfContained(h, st.result, |h|) by {
      if st.list.Some? {
        ClosedSetProp(st.heap, f.obj, KeyName(st.key), Ref(st.list.value));
        SelfContainedSetProp(st.heap, st.result, f.obj, KeyName(st.key), Ref(st.list.value));
        GrowsSetProp(st.heap, f.obj, KeyName(st.key), Ref(st.list.value), st.result);
      }
    }
    HeapOkGrows(st.heap, h, st.result, st.docs);
    FramesGrow(st.heap, h, st.result, st.stack);
    st.(heap := h, current := f.obj, list := f.list, indent := st.indent - 2, stack := st.stack[..|st.stack| - 1])
  }

  /** The turn of the pop loop field by field. */
  lemma PopFrameFields(st: State)
    requires Valid(st) && |st.stack| > 0
    ensures PopFrame(st)
      == st.(heap := if st.list.Some? then SetProp(st.heap, st.stack[|st.stack| - 1].obj, KeyName(st.key), Ref(st.list.value)) else st.heap,
             current := st.stack[|st.stack| - 1].obj, list := st.stack[|st.stack| - 1].list,
             indent := st.indent - 2, stack := st.stack[..|st.stack| - 1])
  {
  }

  /** The pop loop (index.js:72-78). */
  function Dedent(st: State, ind: int): (r: State)
    requires Valid(st)
    ensures Valid(r) && Advances(st, r)
    decreases |st.stack|
  {
    if ind < st.indent && |st.stack| > 0 then
      var p := PopFrame(st);
      var r := Dedent(p, ind);
      GrowsTrans(st.heap, p.heap, r.heap, st.result);
      r
    else st
  }

  /** Indentation handling (index.js:65-79): deeper only records the new
      indentation, shallower pops. */
  function Reindent(st: State, ind: int): (r: State)
    requires Valid(st)
    ensures Valid(r) && Advances(st, r)
  {
    if ind > st.indent then st.(indent := ind)
    else if ind < st.indent then Dedent(st, ind)
    else st
  }

  /** A `- item` line (index.js:85-89), `c` being `parseValue` of the trimmed
      remainder. */
  function ListItem(st: State, c: Coerced): (r: State)
    requires Valid(st)
    ensures Valid(r) && Advances(st, r)
  {
    var m := Materialize(st.heap, c);
    var h1 := m.0;
    ClosedMaterialize(st.heap, c);
    GrowsMaterialize(st.heap, c, st.result);
    SelfContainedMaterialize(st.heap, st.result, c);
    var hasArray := st.list.Some? && h1[st.list.value].isArray;
    var h2 := if hasArray then h1 else h1 + [EmptyArrayNode];
    var arr := if hasArray then st.list.value else |h1|;
    assert Closed(h2) && Grows(h1, h2, st.result) && SelfContained(h2, st.result, |h2|) by {
      if !hasArray {
        ClosedAlloc(h1, EmptyArrayNode);
        GrowsAlloc(h1, EmptyArrayNode, st.result);
        SelfContainedAlloc(h1, st.result, EmptyArrayNode);
      }
    }
    ClosedPushItem(h2, arr, m.1);
    SelfContainedPushItem(h2, st.result, arr, m.1);
    var h3 := PushItem(h2, arr, m.1);
    GrowsPushItem(h2, arr, m.1, st.result);
    GrowsTrans(st.heap, h1, h2, st.result);
    GrowsTrans(st.heap, h2, h3, st.result);
    HeapOkGrows(st.heap, h3, st.result, st.docs);
    FramesGrow(st.heap, h3, st.result, st.stack);
    st.(heap := h3, current := arr, list := Some(arr))
  }

  /** The trimmed pieces of a key line split at every colon. */
  function LineParts(text: string): (parts: seq<string>)
    ensures |parts| >= 1
  {
    TrimAll(Split(text, ":"))
  }

  /** `key` of `const [key, value] = line.split(":").map(trim)`. */
  function LineKey(text: string): string {
    LineParts(text)[0]
  }

  /** `value` of the same destructuring: the text between the first and the
      second colon, or None (`undefined`) when there is no colon. */
  function LineValue(text: string): Option<string> {
    var parts := LineParts(text);
    if |parts| > 1 then Some(parts[1]) else None
  }

  /** A `key:` line with an empty value (index.js:95-99). */
  function OpenKey(st: State, key: string): (r: State)
    requires Valid(st)
    ensures Valid(r) && Advances(st, r)
  {
    var n := |st.heap|;
    var h1 := st.heap + [EmptyObjectNode];
    ClosedAlloc(st.heap, EmptyObjectNode);
    GrowsAlloc(st.heap, EmptyObjectNode, st.result);
    var h2 := SetProp(h1, st.current, key, Ref(n));
    ClosedSetProp(h1, st.current, key, Ref(n));
    SelfContainedAlloc(st.heap, st.result, EmptyObjectNode);
    SelfContainedSetProp(h1, st.result, st.current, key, Ref(n));
    GrowsSetProp(h1, st.current, key, Ref(n), st.result);
    GrowsTrans(st.heap, h1, h2, st.result);
    HeapOkGrows(st.heap, h2, st.result, st.docs);
    FramesGrow(st.heap, h2, st.result, st.stack);
    st.(heap := h2, key := Some(key), stack := st.stack + [Frame(st.current, st.list)], current := n)
  }

  /** A `key: value` line (index.js:100-102), or a line without a colon, whose
      value is `undefined`. */
  function SetValue(st: State, key: string, c: Coerced): (r: State)
    requires Valid(st)
    ensures Valid(r) && Advances(st, r)
  {
    var m := Materialize(st.heap, c);
    ClosedMaterialize(st.heap, c);
    GrowsMaterialize(st.heap, c, st.result);
    var h := SetProp(m.0, st.current, key, m.1);
    ClosedSetProp(m.0, st.current, key, m.1);
    SelfContainedMaterialize(st.heap, st.result, c);
    SelfContainedSetProp(m.0, st.result, st.current, key, m.1);
    GrowsSetProp(m.0, st.current, key, m.1, st.result);
    GrowsTrans(st.heap, m.0, h, st.result);
    HeapOkGrows(st.heap, h, st.result, st.docs);
    FramesGrow(st.heap, h, st.result, st.stack);
    st.(heap := h, list := None)
  }

  /** A key line (index.js:92-103). */
  function KeyLine(st: State, text: string): (r: State)
    requires Valid(st)
    ensures Valid(r) && Advances(st, r)
  {
    var value := LineValue(text);
    if value == Some("") then OpenKey(st, LineKey(text)) else SetValue(st, LineKey(text), ParseOptionalValue(value))
  }

  /** A content line after the start marker (index.js:63-104). */
  function Content(st: State, line: string): (r: State)
    requires Valid(st)
    ensures Valid(r) && Advances(st, r)
  {
    var st1 := Reindent(st, FirstNonWhitespace(line));
    var t := Trim(line);
    var r := if StartsWith(t, "- ") then ListItem(st1, ParseValue(Trim(t[2..]))) else KeyLine(st1, t);
    GrowsTrans(st.heap, st1.heap, r.heap, st.result);
    r
  }

  /** Empty lines and lines beginning with `#` are skipped (index.js:46). */
  predicate IsSkipped(line: string) {
    line == "" || StartsWith(line, "#")
  }

  predicate IsMarker(line: string) {
    !IsSkipped(line) && Trim(line) == "---"
  }

  predicate IsContent(line: string) {
    !IsSkipped(line) && Trim(line) != "---"
  }

  /** One turn of the loop over the lines (index.js:44-110). */
  function Step(st: State, line: string): (r: Result<State, YamlError>)
    requires Valid(st)
    ensures r.Ok? ==> Valid(r.value)
  {
    if IsSkipped(line) then Ok(st)
    else if Trim(line) == "---" then Ok(Reset(st))
    else if st.started then Ok(Content(st, line))
    else Err(MissingStartMarker)
  }

  /** The loop over the first |lines| lines. */
  function Run(lines: seq<string>): (r: Result<State, YamlError>)
    ensures r.Ok? ==> Valid(r.value)
  {
    if lines == [] then Ok(Init())
    else
      match Run(lines[..|lines| - 1])
      case Err(e) => Err(e)
      case Ok(st) => Step(st, lines[|lines| - 1])
  }

  /** What `parseYAML` returns: the final document is always appended. */
  function ParseSpec(yamlStr: string): Result<Output, YamlError> {
    match Run(Split(yamlStr, "\n"))
    case Err(e) => Err(e)
    case Ok(st) => Ok(Output(st.heap, st.docs + [st.result]))
  }

  /** Once the loop has thrown, later lines do not matter. */
  lemma {:induction false} RunErrExtends(lines: seq<string>, i: nat)
    requires i <= |lines| && Run(lines[..i]).Err?
    ensures Run(lines) == Run(lines[..i])
  {
    if i < |lines| {
      var init := lines[..|lines| - 1];
      assert init[..i] == lines[..i];
      RunErrExtends(init, i);
    } else {
      assert lines[..i] == lines;
    }
  }

  /** The pop loop of index.js:72-78 over the loop's variables. */
  method PopLoop(st: State, indent: int) returns (r: State)
    requires Valid(st)
    ensures r == Dedent(st, indent)
  {
    var heap, currentIndent, currentObj, stack, currentArray := st.heap, st.indent, st.current, st.stack, st.list;
    ghost var cur := st;
    while indent < currentIndent && |stack| > 0
      invariant cur == st.(heap := heap, indent := currentIndent, current := currentObj, stack := stack, list := currentArray)
      invariant Valid(cur)
      invariant Dedent(st, indent) == Dedent(cur, indent)
      decreases |stack|
    {
      assert Dedent(cur, indent) == Dedent(PopFrame(cur), indent);
      PopFrameFields(cur);
      var frame := stack[|stack| - 1];
      stack := stack[..|stack| - 1];
      currentObj := frame.obj;
      if currentArray.Some? {
        heap := SetProp(heap, currentObj, KeyName(st.key), Ref(currentArray.value));
      }
      currentArray := frame.list;
      currentIndent := currentIndent - 2;
      cur := PopFrame(cur);
    }
    r := st.(heap := heap, indent := currentIndent, current := currentObj, stack := stack, list := currentArray);
  }

  /** The indentation test of index.js:65-79: a deeper line sets `currentIndent`,
      a shallower one runs the pop loop, an equal one changes nothing. */
  method Unwind(st: State, indent: int) returns (r: State)
    requires Valid(st)
    ensures r == Reindent(st, indent)
  {
    if indent > st.indent {
      r := st.(indent := indent);
    } else if indent < st.indent {
      r := PopLoop(st, indent);
    } else {
      r := st;
    }
  }

  /** The list branch of index.js:85-89: `parseValue` of the text after `- `,
      a new `currentArray` unless one is pending, `push`, and `currentObj = currentArray`. */
  method ListLine(st: State, value: Coerced) returns (r: State)
    requires Valid(st)
    ensures r == ListItem(st, value)
  {
    var heap, currentArray := st.heap, st.list;
    var m := Materialize(heap, value);
    heap := m.0;
    if !(currentArray.Some? && heap[currentArray.value].isArray) {
      heap := heap + [EmptyArrayNode];
      currentArray := Some(|heap| - 1);
    }
    heap := PushItem(heap, currentArray.value, m.1);
    r := st.(heap := heap, current := currentArray.value, list := currentArray);
  }

  /** The `value === ""` branch of index.js:95-99: `currentObj[key] = {}`, then
      `currentKey`, the pushed `{ object, array }` frame and `currentObj` descending. */
  method OpenKeyStep(st: State, key: string) returns (r: State)
    requires Valid(st)
    ensures r == OpenKey(st, key)
  {
    var heap, currentObj, stack := st.heap, st.current, st.stack;
    heap := heap + [EmptyObjectNode];
    heap := SetProp(heap, currentObj, key, Ref(|heap| - 1));
    var currentKey := Some(key);
    stack := stack + [Frame(currentObj, st.list)];
    currentObj := |heap| - 1;
    r := st.(heap := heap, current := currentObj, stack := stack, key := currentKey);
  }

  /** The `else` branch of index.js:100-102: `currentObj[key] = parseValue(value)`
      and `currentArray = null`. */
  method SetValueStep(st: State, key: string, value: Option<string>) returns (r: State)
    requires Valid(st)
    ensures r == SetValue(st, key, ParseOptionalValue(value))
  {
    var m := Materialize(st.heap, ParseOptionalValue(value));
    var heap := SetProp(m.0, st.current, key, m.1);
    var currentArray: Option<nat> := None;
    r := st.(heap := heap, list := currentArray);
  }

  /** The key branch of index.js:92-103: destructure the trimmed `split(":")`
      fields, then open a nested object or set a value. */
  method KeyLineStep(st: State, t: string) returns (r: State)
    requires Valid(st)
    ensures r == KeyLine(st, t)
  {
    var parts := TrimAll(Split(t, ":"));
    var key := parts[0];
    var value := if |parts| > 1 then Some(parts[1]) else None;
    assert key == LineKey(t) && value == LineValue(t);
    if value == Some("") {
      r := OpenKeyStep(st, key);
    } else {
      r := SetValueStep(st, key, value);
    }
  }

  /** The `startFound` branch of index.js:63-104: `search(/\S/)`, the indentation
      test, `trim`, then the list branch or the key branch. */
  method ContentLine(st: State, line: string) returns (r: State)
    requires Valid(st)
    ensures r == Content(st, line)
  {
    var st1 := Unwind(st, FirstNonWhitespace(line));
    var t := Trim(line);
    if StartsWith(t, "- ") {
      r := ListLine(st1, ParseValue(Trim(t[2..])));
    } else {
      r := KeyLineStep(st1, t);
    }
  }

  /** The `---` branch of index.js:48-60: push `result` if it has a key, then reset
      `result`, `currentIndent`, `currentObj`, `stack`, `currentArray` and `currentKey`. */
  method StartDocument(st: State) returns (r: State)
    requires Valid(st)
    ensures r == Reset(st)
  {
    var heap, resultList, result := st.heap, st.docs, st.result;
    if |heap[result].props| != 0 {
      resultList := resultList + [result];
    }
    heap := heap + [EmptyObjectNode];
    result := |heap| - 1;
    r := State(heap, resultList, result, 0, result, [], None, None, true);
  }

  /** `parseYAML`, written as the loop it is. */
  method ParseYAML(yamlStr: string) returns (r: Result<Output, YamlError>)
    ensures r == ParseSpec(yamlStr)
  {
    var lines := Split(yamlStr, "\n");
    var heap: Arena := [EmptyObjectNode];
    var result: nat := 0;
    var currentIndent: int := 0;
    var currentObj: nat := result;
    var stack: seq<Frame> := [];
    var currentArray: Option<nat> := None;
    var currentKey: Option<string> := None;
    var startFound := false;
    var resultList: seq<nat> := [];
    var i := 0;
    assert lines[..0] == [];
    while i < |lines|
      invariant 0 <= i <= |lines|
      invariant Run(lines[..i])
        == Ok(State(heap, resultList, result, currentIndent, currentObj, stack, currentArray, currentKey, startFound))
    {
      var line := lines[i];
      ghost var st := State(heap, resultList, result, currentIndent, currentObj, stack, currentArray, currentKey, startFound);
      assert lines[..i + 1][..i] == lines[..i];
      assert Run(lines[..i + 1]) == Step(st, line);
      if line == "" || StartsWith(line, "#") {
        // empty lines and comments are skipped
        assert Step(st, line) == Ok(st);
      } else if Trim(line) == "---" {
        assert Step(st, line) == Ok(Reset(st));
        var next := StartDocument(State(heap, resultList, result, currentIndent, currentObj, stack, currentArray, currentKey, startFound));
        heap, resultList, result, currentIndent, currentObj, stack, currentArray, currentKey, startFound :=
          next.heap, next.docs, next.result, next.indent, next.current, next.stack, next.list, next.key, next.started;
      } else if startFound {
        assert Step(st, line) == Ok(Content(st, line));
        var next := ContentLine(State(heap, resultList, result, currentIndent, currentObj, stack, currentArray, currentKey, startFound), line);
        heap, currentIndent, currentObj, stack, currentArray, currentKey := next.heap, next.indent, next.current, next.stack, next.list, next.key;
        assert next == State(heap, resultList, result, currentIndent, currentObj, stack, currentArray, currentKey, startFound);
      } else {
        RunErrExtends(lines, i + 1);
        return Err(MissingStartMarker);
      }
      i := i + 1;
    }
    assert lines[..i] == lines;
    resultList := resultList + [result];
    r := Ok(Output(heap, resultList));
  }
}
