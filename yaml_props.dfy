/** What `parseYAML` (index.js:31-114) guarantees, proved about the loop of the
    `Yaml` module: when it throws, how documents are closed and then left alone,
    how the pop loop unwinds the stack, and what each kind of line does to the
    current container. */
module YamlProps {
  import opened Wrappers
  import opened Text
  import opened Props
  import opened Values
  import opened Heap
  import opened Yaml

  /** Some line among `lines` is a `---` marker. */
  predicate Started(lines: seq<string>) {
    lines != [] && (Started(lines[..|lines| - 1]) || IsMarker(lines[|lines| - 1]))
  }

  /** Some content line comes before every `---` marker. */
  predicate ContentBeforeMarker(lines: seq<string>) {
    lines != []
    && (ContentBeforeMarker(lines[..|lines| - 1])
        || (IsContent(lines[|lines| - 1]) && !Started(lines[..|lines| - 1])))
  }

  /** `startFound` holds exactly when a `---` line has been read. */
  lemma {:induction false} RunStarted(lines: seq<string>)
    requires Run(lines).Ok?
    ensures Run(lines).value.started <==> Started(lines)
  {
    if lines != [] {
      var init := lines[..|lines| - 1];
      var line := lines[|lines| - 1];
      RunStarted(init);
      var st := Run(init).value;
      if !IsSkipped(line) && Trim(line) != "---" {
        assert Step(st, line) == Ok(Content(st, line));
      }
    }
  }

  /** The loop fails exactly when a line that is neither skipped nor a marker
      comes before the first marker, and it fails with the missing-marker error. */
  lemma {:induction false} RunFails(lines: seq<string>)
    ensures Run(lines).Err? <==> ContentBeforeMarker(lines)
    ensures Run(lines).Err? ==> Run(lines).error == MissingStartMarker
  {
    if lines != [] {
      var init := lines[..|lines| - 1];
      RunFails(init);
      if Run(init).Ok? {
        RunStarted(init);
      }
    }
  }

  /** `parseYAML` throws "Missing '---' document start marker" exactly when a
      non-empty line that does not begin with `#` and is not `---` precedes every
      `---` line. */
  lemma MarkerRequired(yamlStr: string)
    ensures ParseSpec(yamlStr).Err? <==> ContentBeforeMarker(Split(yamlStr, "\n"))
    ensures ParseSpec(yamlStr).Err? ==> ParseSpec(yamlStr).error == MissingStartMarker
    ensures ParseSpec(yamlStr).Err? ==>
      Message(ParseSpec(yamlStr).error) == "Invalid YAML string: Missing '---' document start marker"
  {
    RunFails(Split(yamlStr, "\n"));
  }

  /** The result is a non-empty list of objects; every document except the last
      has at least one key; every reference in the heap points into it. The
      documents are independent: the nodes from one root up to the next (the
      last: up to the end of the heap) refer only to one another, so no
      document shares an object with another. */
  lemma Documents(yamlStr: string)
    requires ParseSpec(yamlStr).Ok?
    ensures var out := ParseSpec(yamlStr).value;
      |out.docs| >= 1
      && (forall k :: 0 <= k < |out.docs| ==> out.docs[k] < |out.heap| && !out.heap[out.docs[k]].isArray)
      && (forall k :: 0 <= k < |out.docs| - 1 ==> |out.heap[out.docs[k]].props| > 0)
      && Closed(out.heap)
    ensures var out := ParseSpec(yamlStr).value;
      (forall k :: 0 <= k < |out.docs| - 1 ==> SelfContained(out.heap, out.docs[k], out.docs[k + 1]))
      && SelfContained(out.heap, out.docs[|out.docs| - 1], |out.heap|)
  {
    var st := Run(Split(yamlStr, "\n")).value;
    assert Valid(st);
    var out := ParseSpec(yamlStr).value;
    assert out.docs == st.docs + [st.result];
    forall k | 0 <= k < |out.docs| - 1 ensures SelfContained(out.heap, out.docs[k], out.docs[k + 1]) {
      assert out.docs[k] == st.docs[k] && out.docs[k + 1] == DocEnd(st.docs, st.result, k);
    }
  }

  /** A `---` line keeps the document read so far exactly when it has a key, and
      starts an empty one with every other variable back at its initial value. */
  lemma MarkerLine(st: State, line: string)
    requires Valid(st) && IsMarker(line)
    ensures Step(st, line).Ok?
    ensures var r := Step(st, line).value;
      r.started
      && (r.docs == st.docs + [st.result] <==> |st.heap[st.result].props| > 0)
      && (r.docs == st.docs <==> |st.heap[st.result].props| == 0)
      && r.result == r.current && r.result >= |st.heap| && r.heap[r.result] == EmptyObjectNode
      && r.indent == 0 && r.stack == [] && r.list == None && r.key == None
      && r.heap[..|st.heap|] == st.heap
  {
    var r := Reset(st);
    assert |r.docs| == |st.docs| + 1 <==> |st.heap[st.result].props| > 0;
  }

  /** `b` only extends what `a` closed. */
  predicate Seals(a: State, b: State) {
    |a.docs| <= |b.docs| && b.docs[..|a.docs|] == a.docs
    && a.result <= b.result && Grows(a.heap, b.heap, a.result)
  }

  lemma SealsTrans(a: State, b: State, c: State)
    requires Seals(a, b) && Seals(b, c)
    ensures Seals(a, c)
  {
    assert c.docs[..|a.docs|] == c.docs[..|b.docs|][..|a.docs|];
    GrowsLower(b.heap, c.heap, a.result, b.result);
    GrowsTrans(a.heap, b.heap, c.heap, a.result);
  }

  lemma SealsRefl(st: State)
    ensures Seals(st, st)
  {
    assert st.docs[..|st.docs|] == st.docs;
  }

  lemma ResetSeals(st: State)
    requires Valid(st)
    ensures Seals(st, Reset(st))
  {
    var b := Reset(st);
    assert b.heap == st.heap + [EmptyObjectNode];
    GrowsAlloc(st.heap, EmptyObjectNode, st.result);
    assert b.docs[..|st.docs|] == st.docs;
  }

  lemma ContentSeals(st: State, line: string)
    requires Valid(st)
    ensures Seals(st, Content(st, line))
  {
    var b := Content(st, line);
    assert b.docs == st.docs;
    SealsRefl(st);
  }

  /** One line only extends what the state before it closed. */
  lemma StepSeals(st: State, line: string)
    requires Valid(st) && Step(st, line).Ok?
    ensures Seals(st, Step(st, line).value)
  {
    if IsSkipped(line) {
      SealsRefl(st);
    } else if Trim(line) == "---" {
      ResetSeals(st);
    } else {
      assert Step(st, line).value == Content(st, line);
      ContentSeals(st, line);
    }
  }

  /** Later states only extend what earlier ones closed: the list of documents
      grows at its end, the current root moves forward, and no node below an
      earlier root is ever written again. */
  lemma {:induction false} RunSeals(lines: seq<string>, i: nat)
    requires i <= |lines| && Run(lines).Ok?
    ensures Run(lines[..i]).Ok? && Seals(Run(lines[..i]).value, Run(lines).value)
  {
    if i == |lines| {
      assert lines[..i] == lines;
    } else {
      var init := lines[..|lines| - 1];
      assert init[..i] == lines[..i];
      RunSeals(init, i);
      var st := Run(init).value;
      StepSeals(st, lines[|lines| - 1]);
      SealsTrans(Run(lines[..i]).value, st, Run(lines).value);
    }
  }

  /** A closed document is frozen: its root and every node its properties and
      items can refer to keep their contents for the rest of the parse. */
  lemma ClosedDocumentsFrozen(lines: seq<string>, i: nat, k: nat)
    requires i <= |lines| && Run(lines).Ok?
    requires Run(lines[..i]).Ok? && k < |Run(lines[..i]).value.docs|
    ensures var a := Run(lines[..i]).value; var b := Run(lines).value;
      k < |b.docs| && b.docs[k] == a.docs[k]
      && ClosedBelow(a.heap, a.result) && a.docs[k] < a.result && |a.heap| <= |b.heap|
      && (forall x :: 0 <= x < a.result ==> b.heap[x] == a.heap[x])
  {
    RunSeals(lines, i);
    var a := Run(lines[..i]).value;
    var b := Run(lines).value;
    assert Valid(a);
    assert b.docs[k] == b.docs[..|a.docs|][k];
  }

  /** One pop restores the saved container and array, lowers the indentation by
      two, and stores a pending array under the last opened key, which is never
      the "null" of an unset `currentKey`. */
  lemma PopFrameEffect(st: State)
    requires Valid(st) && |st.stack| > 0
    ensures var r := PopFrame(st); var f := st.stack[|st.stack| - 1];
      r.stack == st.stack[..|st.stack| - 1] && r.indent == st.indent - 2
      && r.current == f.obj && r.list == f.list && r.key == st.key
      && st.key.Some? && KeyName(st.key) == st.key.value
      && (st.list.Some? ==> Lookup(r.heap[f.obj].props, st.key.value) == Some(Ref(st.list.value)))
      && (st.list.None? ==> r.heap == st.heap)
  {
  }

  /** `r` is `st` with the last `p` frames popped, for the least `p` that
      brings the indentation to `ind` or below or empties the stack: the
      indentation drops by 2 per frame, and the deepest frame removed is
      resumed. */
  predicate PoppedTo(st: State, r: State, ind: int) {
    var p := |st.stack| - |r.stack|;
    |r.stack| <= |st.stack| && r.stack == st.stack[..|r.stack|]
    && r.indent == st.indent - 2 * p
    && (p > 0 ==> ind < st.indent - 2 * (p - 1))
    && (r.stack == [] || ind >= r.indent)
    && (p > 0 ==> r.current == st.stack[|r.stack|].obj && r.list == st.stack[|r.stack|].list)
    && (p == 0 ==> r == st)
  }

  /** One pop in front of a closed-form unwinding is again one. */
  lemma PoppedToStep(st: State, q: State, r: State, ind: int)
    requires |st.stack| > 0 && ind < st.indent
    requires q.stack == st.stack[..|st.stack| - 1] && q.indent == st.indent - 2
    requires q.current == st.stack[|st.stack| - 1].obj && q.list == st.stack[|st.stack| - 1].list
    requires PoppedTo(q, r, ind)
    ensures PoppedTo(st, r, ind)
  {
    assert q.stack[..|r.stack|] == st.stack[..|r.stack|];
    if |r.stack| < |q.stack| {
      assert q.stack[|r.stack|] == st.stack[|r.stack|];
    }
  }

  /** The pop loop in closed form. */
  lemma {:induction false} DedentShape(st: State, ind: int)
    requires Valid(st)
    ensures PoppedTo(st, Dedent(st, ind), ind)
    decreases |st.stack|
  {
    if ind < st.indent && |st.stack| > 0 {
      var q := PopFrame(st);
      PopFrameEffect(st);
      DedentShape(q, ind);
      PoppedToStep(st, q, Dedent(q, ind), ind);
    }
  }

  /** An increase in indentation records the new indentation and changes
      nothing else; in particular it pushes no frame. */
  lemma DeeperOnlyIndents(st: State, ind: int)
    requires Valid(st) && ind > st.indent
    ensures Reindent(st, ind) == st.(indent := ind)
  {
  }

  /** How `parseValue`'s result is stored: an empty object is a fresh node,
      anything else the primitive itself. */
  predicate Stored(h: Arena, v: Val, c: Coerced) {
    match c
    case EmptyObject => v.Ref? && v.addr < |h| && h[v.addr] == EmptyObjectNode
    case Atom(x) => v == Prim(x)
  }

  /** `key: value` stores the coerced value under `key` on the current
      container, leaves its other properties and every other existing node
      alone, and drops the array context. */
  lemma SetValueEffect(st: State, key: string, c: Coerced)
    requires Valid(st)
    ensures var r := SetValue(st, key, c); var props := r.heap[st.current].props;
      Lookup(props, key).Some? && Stored(r.heap, Lookup(props, key).value, c)
      && (forall k :: k != key ==> Lookup(props, k) == Lookup(st.heap[st.current].props, k))
      && (forall a :: 0 <= a < |st.heap| && a != st.current ==> r.heap[a] == st.heap[a])
      && r.list == None && r.current == st.current && r.stack == st.stack
      && r.key == st.key && r.indent == st.indent
  {
    var m := Materialize(st.heap, c);
    var r := SetValue(st, key, c);
    forall k | k != key
      ensures Lookup(r.heap[st.current].props, k) == Lookup(st.heap[st.current].props, k)
    {
      AssignLookup(m.0[st.current].props, key, m.1, k);
    }
  }

  /** `key:` stores a fresh empty object under `key`, pushes exactly one frame
      holding the container and array it leaves, and descends into the new
      object. */
  lemma OpenKeyEffect(st: State, key: string)
    requires Valid(st)
    ensures var r := OpenKey(st, key);
      r.stack == st.stack + [Frame(st.current, st.list)]
      && r.current == |st.heap| && r.heap[r.current] == EmptyObjectNode
      && Lookup(r.heap[st.current].props, key) == Some(Ref(r.current))
      && (forall k :: k != key ==> Lookup(r.heap[st.current].props, k) == Lookup(st.heap[st.current].props, k))
      && (forall a :: 0 <= a < |st.heap| && a != st.current ==> r.heap[a] == st.heap[a])
      && r.key == Some(key) && r.list == st.list && r.indent == st.indent
  {
    var h1 := st.heap + [EmptyObjectNode];
    forall k | k != key
      ensures Lookup(OpenKey(st, key).heap[st.current].props, k) == Lookup(st.heap[st.current].props, k)
    {
      AssignLookup(h1[st.current].props, key, Ref(|st.heap|), k);
    }
  }

  /** `- item` appends the coerced item to an array that becomes the current
      container and the array context; no other existing node changes. */
  lemma ListItemEffect(st: State, c: Coerced)
    requires Valid(st)
    ensures var r := ListItem(st, c); var arr := r.current;
      r.list == Some(arr) && arr < |r.heap| && r.heap[arr].isArray
      && |r.heap[arr].items| > 0 && Stored(r.heap, r.heap[arr].items[|r.heap[arr].items| - 1], c)
      && (forall a :: 0 <= a < |st.heap| && a != arr ==> r.heap[a] == st.heap[a])
      && r.stack == st.stack && r.key == st.key && r.indent == st.indent
  {
    var m := Materialize(st.heap, c);
    assert forall a :: 0 <= a < |st.heap| ==> m.0[a] == st.heap[a];
  }

  /** With an array context, the item goes at the end of that array. */
  lemma ListItemAppends(st: State, c: Coerced)
    requires Valid(st) && st.list.Some?
    ensures var r := ListItem(st, c); var arr := st.list.value;
      r.current == arr && |r.heap[arr].items| == |st.heap[arr].items| + 1
      && r.heap[arr].items[..|st.heap[arr].items|] == st.heap[arr].items
      && r.heap[arr].props == st.heap[arr].props
  {
    var m := Materialize(st.heap, c);
    assert m.0[st.list.value] == st.heap[st.list.value];
  }

  /** Without one, a fresh array holding just the item is created. */
  lemma ListItemFresh(st: State, c: Coerced)
    requires Valid(st) && st.list.None?
    ensures var r := ListItem(st, c);
      r.current >= |st.heap| && |r.heap[r.current].items| == 1
      && r.heap[r.current] == Node(true, [r.heap[r.current].items[0]], [])
      && Stored(r.heap, r.heap[r.current].items[0], c)
  {
    ListItemEffect(st, c);
  }

  /** The key is the trimmed text before the first colon and the value the
      trimmed text between the first and the second colon; later colons and
      what follows them are dropped. */
  lemma KeyLineFields(a: string, b: string, rest: Option<string>)
    requires ':' !in a && ':' !in b
    ensures var text := a + ":" + b + (if rest.Some? then ":" + rest.value else "");
      LineKey(text) == Trim(a) && LineValue(text) == Some(Trim(b))
  {
    var tail := b + (if rest.Some? then ":" + rest.value else "");
    var text := a + ":" + b + (if rest.Some? then ":" + rest.value else "");
    assert text == a + [':'] + tail;
    SplitFirst(a, ':', tail);
    if rest.Some? {
      assert tail == b + [':'] + rest.value;
      SplitFirst(b, ':', rest.value);
    } else {
      assert tail == b;
      SplitNone(b, ':');
    }
  }

  /** A line without a colon is a key whose value is `undefined`. */
  lemma KeyLineWithoutColon(a: string)
    requires ':' !in a
    ensures LineKey(a) == Trim(a) && LineValue(a) == None
    ensures ParseOptionalValue(LineValue(a)) == Atom(Undefined)
  {
    SplitNone(a, ':');
  }

  /** How the reader takes the text of a line of whitespace only. */
  lemma BlankLineText(line: string)
    requires AllWhitespace(line)
    ensures FirstNonWhitespace(line) == -1 && Trim(line) == "" && !StartsWith("", "- ")
    ensures LineKey("") == "" && LineValue("") == None
  {
    TrimEmpty(line);
    SplitNone("", ':');
    assert LineParts("") == [""];
  }

  /** A line of whitespace only is not skipped: its indentation is -1 and it is
      read as the key "" with the value `undefined`. */
  lemma WhitespaceLine(st: State, line: string)
    requires Valid(st) && line != [] && AllWhitespace(line)
    ensures FirstNonWhitespace(line) == -1 && Trim(line) == ""
    ensures Content(st, line) == SetValue(Reindent(st, -1), "", Atom(Undefined))
  {
    BlankLineText(line);
    var st1 := Reindent(st, -1);
    ContentKeyLine(st, line);
    KeyLineUndefined(st1, "");
  }

  lemma ContentKeyLine(st: State, line: string)
    requires Valid(st) && !StartsWith(Trim(line), "- ")
    ensures Content(st, line) == KeyLine(Reindent(st, FirstNonWhitespace(line)), Trim(line))
  {
  }

  lemma KeyLineUndefined(st: State, t: string)
    requires Valid(st) && LineValue(t) == None
    ensures KeyLine(st, t) == SetValue(st, LineKey(t), Atom(Undefined))
  {
    UndefinedValue();
  }

  /** Without a `---` line, the first content line throws. */
  lemma NoMarkerExample()
    ensures ParseSpec("a: 1") == Err(MissingStartMarker)
  {
    SplitNone("a: 1", '\n');
    assert Trim("a: 1") == "a: 1" by {
      TrimIdempotent("a: 1");
    }
    assert Run(["a: 1"]) == Step(Init(), "a: 1") by {
      assert ["a: 1"][..0] == [];
    }
  }

  /** Three lines joined by line breaks split back into the three. */
  lemma ThreeLines(text: string, a: string, b: string, c: string)
    requires '\n' !in a && '\n' !in b && '\n' !in c
    requires text == a + "\n" + b + "\n" + c
    ensures Split(text, "\n") == [a, b, c]
  {
    assert text == a + ['\n'] + (b + ['\n'] + c);
    SplitFirst(a, '\n', b + ['\n'] + c);
    SplitFirst(b, '\n', c);
    SplitNone(c, '\n');
  }

  /** One more line is one more step. */
  lemma RunSnoc(lines: seq<string>, line: string, st: State)
    requires Run(lines) == Ok(st)
    ensures Run(lines + [line]) == Step(st, line)
  {
    assert (lines + [line])[..|lines|] == lines;
  }

  lemma Snoc3<T>(a: T, b: T, c: T)
    ensures [] + [a] == [a] && [a] + [b] == [a, b] && [a, b] + [c] == [a, b, c]
  {
  }

  lemma Snoc1<T>(a: T)
    ensures [] + [a] == [a]
  {
  }

  lemma Snoc4<T>(a: T, b: T, c: T, d: T)
    ensures [a, b, c] + [d] == [a, b, c, d]
  {
  }

  /** Three lines that each step without an error. */
  lemma RunThree(l0: string, l1: string, l2: string, s1: State, s2: State, s3: State)
    requires Step(Init(), l0) == Ok(s1)
    requires Valid(s1) && Step(s1, l1) == Ok(s2)
    requires Valid(s2) && Step(s2, l2) == Ok(s3)
    ensures Run([l0, l1, l2]) == Ok(s3)
  {
    Snoc3(l0, l1, l2);
    RunSnoc([], l0, Init());
    RunSnoc([l0], l1, s1);
    RunSnoc([l0, l1], l2, s2);
  }

  lemma ParseOfRun(yamlStr: string, lines: seq<string>, st: State)
    requires Split(yamlStr, "\n") == lines && Run(lines) == Ok(st)
    ensures ParseSpec(yamlStr) == Ok(Output(st.heap, st.docs + [st.result]))
  {
  }

  /** A first `---` line starts the first document in a fresh root object. */
  lemma FirstMarker(m: string)
    requires m == "---"
    ensures Step(Init(), m) == Ok(Reset(Init()))
  {
    assert IsTrimmed(m);
    TrimIdempotent(m);
    assert !StartsWith(m, "#");
  }

  /** A key the YAML reader takes as written: not blank, trimmed, no colon or
      line break, and not starting like a comment or a list item. */
  predicate PlainKey(key: string) {
    key != [] && IsTrimmed(key) && ':' !in key && '\n' !in key && key[0] != '#' && key[0] != '-'
  }

  /** How the reader takes the text of a `key:` line. */
  lemma KeyLineText(key: string)
    requires PlainKey(key)
    ensures var line := key + ":";
      !IsSkipped(line) && Trim(line) == line && line != "---" && !StartsWith(line, "- ")
      && FirstNonWhitespace(line) == 0 && LineValue(line) == Some("") && LineKey(line) == key
  {
    var line := key + ":";
    assert line[0] == key[0];
    assert IsTrimmed(line);
    TrimIdempotent(line);
    assert line[..1] != "#" && line[..|"- "|] != "- ";
    assert line[|line| - 1] == ':';
    assert line == key + ":" + "" + "";
    KeyLineFields(key, "", None);
    TrimIdempotent(key);
    TrimEmpty("");
  }

  /** An unindented `key:` line opens `key`. */
  lemma OpenKeyLine(st: State, key: string)
    requires Valid(st) && st.started && st.indent == 0 && PlainKey(key)
    ensures Step(st, key + ":") == Ok(OpenKey(st, key))
  {
    KeyLineText(key);
  }

  /** How the reader takes the text of a `  - item` line. */
  lemma ItemLineText(item: string)
    requires item != [] && IsTrimmed(item)
    ensures var line := "  - " + item; var t := "- " + item;
      !IsSkipped(line) && Trim(line) == t && t != "---" && StartsWith(t, "- ")
      && FirstNonWhitespace(line) == 2 && Trim(t[2..]) == item
  {
    var line := "  - " + item;
    var t := "- " + item;
    assert line == "  " + t + [];
    assert IsTrimmed(t);
    TrimOf("  ", t, []);
    assert line[..2] == "  " && !IsWhitespace(line[2]);
    assert t[1] == ' ';
    assert line[..1] != "#";
    assert t[..2] == "- " && t[2..] == item;
    TrimIdempotent(item);
  }

  /** `  - item` at indentation 0 indents by two and appends the coerced item
      to a list. */
  lemma IndentedItemLine(st: State, item: string)
    requires Valid(st) && st.started && st.indent == 0
    requires item != [] && IsTrimmed(item)
    ensures Step(st, "  - " + item) == Ok(ListItem(st.(indent := 2), ParseValue(item)))
  {
    ItemLineText(item);
    DeeperOnlyIndents(st, 2);
  }

  /** The first item of a list with no array yet allocates a one-item array. */
  lemma FirstItemHeap(st: State, c: Coerced)
    requires Valid(st) && st.list.None? && c.Atom?
    ensures ListItem(st, c).heap == st.heap + [Node(true, [Prim(c.v)], [])]
    ensures ListItem(st, c).docs == st.docs && ListItem(st, c).result == st.result
  {
    assert EmptyArrayNode.items + [Prim(c.v)] == [Prim(c.v)];
  }

  /** `key:` in a fresh first document. */
  lemma FirstKeyHeap(key: string)
    ensures var s1 := Reset(Init()); var s2 := OpenKey(s1, key);
      s1.docs == [] && s1.result == 1 && s1.current == 1 && s1.list.None? && s1.indent == 0
      && s2.heap == [EmptyObjectNode, Node(false, [], [(key, Ref(2))]), EmptyObjectNode]
      && s2.docs == [] && s2.result == 1 && s2.list.None? && s2.indent == 0
  {
    var s1 := Reset(Init());
    assert s1.heap == [EmptyObjectNode, EmptyObjectNode];
    var h1 := s1.heap + [EmptyObjectNode];
    assert SetProp(h1, 1, key, Ref(2)) == h1[1 := Node(false, [], [(key, Ref(2))])];
  }

  /** The states the reader goes through on `---`, `key:` and `  - item`. */
  lemma ExampleRun(key: string, item: string)
    requires PlainKey(key) && item != [] && IsTrimmed(item)
    ensures var s1 := Reset(Init()); var s2 := OpenKey(s1, key);
      Run(["---", key + ":", "  - " + item]) == Ok(ListItem(s2.(indent := 2), ParseValue(item)))
  {
    var s1 := Reset(Init());
    var s2 := OpenKey(s1, key);
    FirstMarker("---");
    OpenKeyLine(s1, key);
    IndentedItemLine(s2, item);
    RunThree("---", key + ":", "  - " + item, s1, s2, ListItem(s2.(indent := 2), ParseValue(item)));
  }

  /** The list under a key is attached only when a later line is indented
      less, so a list that ends the input is lost: `key:` followed by one
      item, as in the example in the header comment of index.js, gives
      `{key: {}}`. The array holding the item is built, but nothing refers
      to it. */
  lemma PendingListDropped(key: string, item: string)
    requires PlainKey(key)
    requires item != [] && IsTrimmed(item) && '\n' !in item
    ensures ParseSpec("---\n" + key + ":\n  - " + item)
      == Ok(Output([EmptyObjectNode, Node(false, [], [(key, Ref(2))]), EmptyObjectNode,
                    Node(true, [Prim(ParseValue(item).v)], [])], [1]))
  {
    var yamlStr := "---\n" + key + ":\n  - " + item;
    var l0, l1, l2 := "---", key + ":", "  - " + item;
    assert yamlStr == l0 + "\n" + l1 + "\n" + l2;
    ThreeLines(yamlStr, l0, l1, l2);
    var s2 := OpenKey(Reset(Init()), key);
    var s3 := ListItem(s2.(indent := 2), ParseValue(item));
    ExampleRun(key, item);
    FirstKeyHeap(key);
    FirstItemHeap(s2.(indent := 2), ParseValue(item));
    ParseOfRun(yamlStr, [l0, l1, l2], s3);
    Snoc4(EmptyObjectNode, Node(false, [], [(key, Ref(2))]), EmptyObjectNode, Node(true, [Prim(ParseValue(item).v)], []));
    Snoc1(1);
  }
}
