/** The objects and arrays the YAML parser builds, as an arena of nodes addressed
    by index. Several variables of the parser may hold the same address, so a
    write through one of them is seen through all of them, as with JavaScript
    object references. */
module Heap {
  import opened Wrappers
  import opened Values
  import opened Props

  /** A value stored in an object or array: a primitive or a reference. */
  datatype Val = Prim(v: Scalar) | Ref(addr: nat)

  /** A JavaScript object or array. An array's elements are `items`; every named
      property (all of an object's, and any that a key line writes onto an
      array) is in `props`. */
  datatype Node = Node(isArray: bool, items: seq<Val>, props: Props<Val>)

  const EmptyObjectNode := Node(false, [], [])
  const EmptyArrayNode := Node(true, [], [])

  type Arena = seq<Node>

  predicate ValBelow(v: Val, n: nat) {
    v.Ref? ==> v.addr < n
  }

  predicate NodeBelow(node: Node, n: nat) {
    (forall i :: 0 <= i < |node.items| ==> ValBelow(node.items[i], n))
    && (forall i :: 0 <= i < |node.props| ==> ValBelow(node.props[i].1, n))
  }

  /** Every reference in the arena points into the arena. */
  predicate Closed(h: Arena) {
    forall a :: 0 <= a < |h| ==> NodeBelow(h[a], |h|)
  }

  /** The nodes below `base` refer only to nodes below `base`. */
  predicate ClosedBelow(h: Arena, base: nat) {
    base <= |h| && forall a :: 0 <= a < base ==> NodeBelow(h[a], base)
  }

  predicate ValWithin(v: Val, lo: nat, hi: nat) {
    v.Ref? ==> lo <= v.addr < hi
  }

  predicate NodeWithin(node: Node, lo: nat, hi: nat) {
    (forall i :: 0 <= i < |node.items| ==> ValWithin(node.items[i], lo, hi))
    && (forall i :: 0 <= i < |node.props| ==> ValWithin(node.props[i].1, lo, hi))
  }

  /** The nodes at addresses `lo` up to `hi` refer only to one another. */
  predicate SelfContained(h: Arena, lo: nat, hi: nat) {
    lo <= hi <= |h| && forall a :: lo <= a < hi ==> NodeWithin(h[a], lo, hi)
  }

  lemma NodeWithinWiden(node: Node, lo: nat, hi: nat, hi': nat)
    requires NodeWithin(node, lo, hi) && hi <= hi'
    ensures NodeWithin(node, lo, hi')
  {
    assert forall i :: 0 <= i < |node.items| ==> ValWithin(node.items[i], lo, hi);
    assert forall i :: 0 <= i < |node.props| ==> ValWithin(node.props[i].1, lo, hi);
  }

  /** Two adjacent self-contained ranges make one. */
  lemma SelfContainedJoin(h: Arena, lo: nat, mid: nat, hi: nat)
    requires SelfContained(h, lo, mid) && SelfContained(h, mid, hi)
    ensures SelfContained(h, lo, hi)
  {
    forall a | lo <= a < hi ensures NodeWithin(h[a], lo, hi) {
      var node := h[a];
      if a < mid {
        assert NodeWithin(node, lo, mid);
        NodeWithinWiden(node, lo, mid, hi);
      } else {
        assert NodeWithin(node, mid, hi);
        assert forall i :: 0 <= i < |node.items| ==> ValWithin(node.items[i], mid, hi);
        assert forall i :: 0 <= i < |node.props| ==> ValWithin(node.props[i].1, mid, hi);
      }
    }
  }

  /** A range whose nodes are untouched stays self-contained. */
  lemma SelfContainedKept(h: Arena, h': Arena, lo: nat, hi: nat)
    requires SelfContained(h, lo, hi) && hi <= |h'|
    requires forall a :: lo <= a < hi ==> h'[a] == h[a]
    ensures SelfContained(h', lo, hi)
  {
    assert forall a :: lo <= a < hi ==> NodeWithin(h[a], lo, hi);
  }

  /** Allocating an empty node keeps the top range self-contained. */
  lemma SelfContainedAlloc(h: Arena, lo: nat, node: Node)
    requires SelfContained(h, lo, |h|) && node.items == [] && node.props == []
    ensures SelfContained(h + [node], lo, |h| + 1)
  {
    var r := h + [node];
    forall a | lo <= a < |r| ensures NodeWithin(r[a], lo, |r|) {
      if a < |h| {
        assert r[a] == h[a] && NodeWithin(h[a], lo, |h|);
        NodeWithinWiden(h[a], lo, |h|, |r|);
      }
    }
  }

  lemma SelfContainedMaterialize(h: Arena, lo: nat, c: Coerced)
    requires SelfContained(h, lo, |h|)
    ensures var m := Materialize(h, c);
      SelfContained(m.0, lo, |m.0|) && ValWithin(m.1, lo, |m.0|)
  {
    if c.EmptyObject? {
      SelfContainedAlloc(h, lo, EmptyObjectNode);
    }
  }

  /** Writing a value of the top range into the top range keeps it self-contained. */
  lemma SelfContainedSetProp(h: Arena, lo: nat, a: nat, key: string, v: Val)
    requires SelfContained(h, lo, |h|) && lo <= a < |h| && ValWithin(v, lo, |h|)
    ensures SelfContained(SetProp(h, a, key, v), lo, |h|)
  {
    var r := SetProp(h, a, key, v);
    assert NodeWithin(h[a], lo, |h|);
    forall i | 0 <= i < |r[a].props| ensures ValWithin(r[a].props[i].1, lo, |h|) {
      AssignValues(h[a].props, key, v, i);
      if r[a].props[i].1 != v {
        var j :| 0 <= j < |h[a].props| && r[a].props[i] == h[a].props[j];
      }
    }
    assert NodeWithin(r[a], lo, |h|);
  }

  lemma SelfContainedPushItem(h: Arena, lo: nat, a: nat, v: Val)
    requires SelfContained(h, lo, |h|) && lo <= a < |h| && ValWithin(v, lo, |h|)
    ensures SelfContained(PushItem(h, a, v), lo, |h|)
  {
    var r := PushItem(h, a, v);
    assert NodeWithin(h[a], lo, |h|);
    assert forall i :: 0 <= i < |h[a].items| ==> r[a].items[i] == h[a].items[i];
    assert NodeWithin(r[a], lo, |h|);
  }

  /** `h'` is `h` after allocations and writes at or above `base`: nodes are
      never freed, never change kind, and those below `base` are untouched. */
  predicate Grows(h: Arena, h': Arena, base: nat) {
    |h| <= |h'|
    && (forall a :: 0 <= a < |h| ==> h'[a].isArray == h[a].isArray)
    && (forall a :: 0 <= a < base && a < |h| ==> h'[a] == h[a])
  }

  lemma GrowsTrans(h1: Arena, h2: Arena, h3: Arena, base: nat)
    requires Grows(h1, h2, base) && Grows(h2, h3, base)
    ensures Grows(h1, h3, base)
  {
  }

  lemma GrowsLower(h: Arena, h': Arena, low: nat, base: nat)
    requires Grows(h, h', base) && low <= base
    ensures Grows(h, h', low)
  {
  }

  /** `obj[key] = v` on the node at address `a`. */
  function SetProp(h: Arena, a: nat, key: string, v: Val): (r: Arena)
    requires a < |h|
    ensures |r| == |h| && r[a].isArray == h[a].isArray && r[a].items == h[a].items
    ensures Lookup(r[a].props, key) == Some(v)
    ensures forall b :: 0 <= b < |h| && b != a ==> r[b] == h[b]
  {
    h[a := h[a].(props := Assign(h[a].props, key, v))]
  }

  /** `arr.push(v)` on the node at address `a`. */
  function PushItem(h: Arena, a: nat, v: Val): (r: Arena)
    requires a < |h|
    ensures |r| == |h| && r[a].isArray == h[a].isArray && r[a].props == h[a].props
    ensures r[a].items == h[a].items + [v]
    ensures forall b :: 0 <= b < |h| && b != a ==> r[b] == h[b]
  {
    h[a := h[a].(items := h[a].items + [v])]
  }

  /** The value `parseValue` returns, stored: `{}` is a freshly allocated object. */
  function Materialize(h: Arena, c: Coerced): (r: (Arena, Val))
    ensures |r.0| >= |h| && r.0[..|h|] == h && ValBelow(r.1, |r.0|)
    ensures c.Atom? ==> r == (h, Prim(c.v))
    ensures c.EmptyObject? ==> r.0 == h + [EmptyObjectNode] && r.1 == Ref(|h|)
  {
    match c
    case EmptyObject => (h + [EmptyObjectNode], Ref(|h|))
    case Atom(s) => (h, Prim(s))
  }

  lemma ClosedSetProp(h: Arena, a: nat, key: string, v: Val)
    requires a < |h| && Closed(h) && ValBelow(v, |h|)
    ensures Closed(SetProp(h, a, key, v))
  {
    var r := SetProp(h, a, key, v);
    forall i | 0 <= i < |r[a].props| ensures ValBelow(r[a].props[i].1, |h|) {
      AssignValues(h[a].props, key, v, i);
    }
  }

  lemma ClosedPushItem(h: Arena, a: nat, v: Val)
    requires a < |h| && Closed(h) && ValBelow(v, |h|)
    ensures Closed(PushItem(h, a, v))
  {
    var r := PushItem(h, a, v);
    assert forall i :: 0 <= i < |h[a].items| ==> r[a].items[i] == h[a].items[i];
  }

  lemma ClosedAlloc(h: Arena, node: Node)
    requires Closed(h) && node.items == [] && node.props == []
    ensures Closed(h + [node])
  {
    var r := h + [node];
    forall a | 0 <= a < |r| ensures NodeBelow(r[a], |r|) {
      if a < |h| {
        assert NodeBelow(h[a], |h|);
      }
    }
  }

  lemma ClosedMaterialize(h: Arena, c: Coerced)
    requires Closed(h)
    ensures Closed(Materialize(h, c).0)
  {
    if c.EmptyObject? {
      ClosedAlloc(h, EmptyObjectNode);
    }
  }

  lemma GrowsAlloc(h: Arena, node: Node, base: nat)
    ensures Grows(h, h + [node], base)
  {
  }

  lemma GrowsSetProp(h: Arena, a: nat, key: string, v: Val, base: nat)
    requires base <= a < |h|
    ensures Grows(h, SetProp(h, a, key, v), base)
  {
  }

  lemma GrowsPushItem(h: Arena, a: nat, v: Val, base: nat)
    requires base <= a < |h|
    ensures Grows(h, PushItem(h, a, v), base)
  {
  }

  lemma GrowsMaterialize(h: Arena, c: Coerced, base: nat)
    ensures Grows(h, Materialize(h, c).0, base)
  {
    if c.EmptyObject? {
      GrowsAlloc(h, EmptyObjectNode, base);
    }
  }
}
