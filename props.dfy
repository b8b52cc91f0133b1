/** The own properties of a JavaScript object as an insertion-ordered list of
    (key, value) pairs, and property assignment `obj[key] = value`. */
module Props {
  import opened Wrappers

  type Props<V> = seq<(string, V)>

  function KeysOf<V>(p: Props<V>): (ks: seq<string>)
    ensures |ks| == |p|
    ensures forall i :: 0 <= i < |p| ==> ks[i] == p[i].0
  {
    if p == [] then [] else [p[0].0] + KeysOf(p[1..])
  }

  function ValuesOf<V>(p: Props<V>): (vs: seq<V>)
    ensures |vs| == |p|
    ensures forall i :: 0 <= i < |p| ==> vs[i] == p[i].1
  {
    if p == [] then [] else [p[0].1] + ValuesOf(p[1..])
  }

  /** No key occurs twice, as in any JavaScript object. */
  predicate DistinctKeys<V>(p: Props<V>) {
    forall i, j :: 0 <= i < j < |p| ==> p[i].0 != p[j].0
  }

  /** `obj[key]`: the value stored under `key`, None for `undefined`. */
  function Lookup<V>(p: Props<V>, key: string): (r: Option<V>)
    ensures r.None? <==> key !in KeysOf(p)
  {
    if p == [] then None
    else if p[0].0 == key then Some(p[0].1)
    else
      assert KeysOf(p) == [p[0].0] + KeysOf(p[1..]);
      Lookup(p[1..], key)
  }

  /** Property `i` is the first one named `key`. */
  predicate FirstNamed<V>(p: Props<V>, key: string, i: int) {
    0 <= i < |p| && p[i].0 == key && forall j :: 0 <= j < i ==> p[j].0 != key
  }

  /** `obj[key]` is the value of the first property named `key`. */
  lemma {:induction false} LookupFirst<V>(p: Props<V>, key: string)
    requires Lookup(p, key).Some?
    ensures exists i :: FirstNamed(p, key, i) && p[i].1 == Lookup(p, key).value
  {
    if p[0].0 == key {
      assert FirstNamed(p, key, 0);
    } else {
      var q := p[1..];
      LookupFirst(q, key);
      var i :| FirstNamed(q, key, i) && q[i].1 == Lookup(q, key).value;
      assert forall j :: 1 <= j <= i ==> p[j] == q[j - 1];
      assert FirstNamed(p, key, i + 1);
    }
  }

  /** `obj[key] = v`: an existing property keeps its place and takes the new
      value; a new property is added last. */
  function Assign<V>(p: Props<V>, key: string, v: V): (r: Props<V>)
    ensures Lookup(r, key) == Some(v)
  {
    if p == [] then [(key, v)]
    else if p[0].0 == key then [(key, v)] + p[1..]
    else [p[0]] + Assign(p[1..], key, v)
  }

  /** Assignment changes the value under `key` and no other. */
  lemma {:induction false} AssignLookup<V>(p: Props<V>, key: string, v: V, k: string)
    ensures Lookup(Assign(p, key, v), k) == if k == key then Some(v) else Lookup(p, k)
  {
    if p != [] && p[0].0 != key {
      AssignLookup(p[1..], key, v, k);
      assert Assign(p, key, v)[1..] == Assign(p[1..], key, v);
    }
  }

  lemma KeysOfCons<V>(q: (string, V), p: Props<V>)
    ensures KeysOf([q] + p) == [q.0] + KeysOf(p)
  {
    assert ([q] + p)[1..] == p;
  }

  /** Assignment keeps the key order and appends a new key at the end. */
  lemma {:induction false} AssignKeys<V>(p: Props<V>, key: string, v: V)
    ensures KeysOf(Assign(p, key, v)) == if key in KeysOf(p) then KeysOf(p) else KeysOf(p) + [key]
  {
    if p != [] {
      assert p == [p[0]] + p[1..];
      KeysOfCons(p[0], p[1..]);
      if p[0].0 == key {
        KeysOfCons((key, v), p[1..]);
        assert KeysOf(p)[0] == key;
      } else {
        AssignKeys(p[1..], key, v);
        KeysOfCons(p[0], Assign(p[1..], key, v));
        assert (key in KeysOf(p)) == (key in KeysOf(p[1..]));
      }
    }
  }

  /** Assignment keeps the keys distinct. */
  lemma {:induction false} AssignDistinct<V>(p: Props<V>, key: string, v: V)
    requires DistinctKeys(p)
    ensures DistinctKeys(Assign(p, key, v))
  {
    if p != [] {
      var r := Assign(p, key, v);
      var q := p[1..];
      assert DistinctKeys(q) by {
        forall i, j | 0 <= i < j < |q| ensures q[i].0 != q[j].0 {
          assert q[i] == p[i + 1] && q[j] == p[j + 1];
        }
      }
      if p[0].0 == key {
        assert r == [(key, v)] + q;
        forall i, j | 0 <= i < j < |r| ensures r[i].0 != r[j].0 {
          assert r[j] == p[j];
          if i > 0 {
            assert r[i] == p[i];
          }
        }
      } else {
        var t := Assign(q, key, v);
        AssignDistinct(q, key, v);
        AssignKeys(q, key, v);
        assert p[0].0 !in KeysOf(q) by {
          forall k | 0 <= k < |q| ensures KeysOf(q)[k] != p[0].0 {
            assert q[k] == p[k + 1];
          }
        }
        assert p[0].0 !in KeysOf(t);
        assert r == [p[0]] + t;
        forall i, j | 0 <= i < j < |r| ensures r[i].0 != r[j].0 {
          assert r[j] == t[j - 1];
          if i == 0 {
            assert KeysOf(t)[j - 1] == t[j - 1].0;
          } else {
            assert r[i] == t[i - 1];
          }
        }
      }
    }
  }

  /** Every value after the assignment is the assigned one or was there before. */
  lemma {:induction false} AssignValues<V>(p: Props<V>, key: string, v: V, i: nat)
    requires i < |Assign(p, key, v)|
    ensures Assign(p, key, v)[i].1 == v || exists j :: 0 <= j < |p| && Assign(p, key, v)[i] == p[j]
  {
    var r := Assign(p, key, v);
    if p != [] && i > 0 {
      if p[0].0 == key {
        assert r[i] == p[i];
      } else {
        AssignValues(p[1..], key, v, i - 1);
        assert r[i] == Assign(p[1..], key, v)[i - 1];
      }
    } else if p != [] {
      assert r[0] == p[0] || r[0].1 == v;
    }
  }

  /** Assigning a key the object lacks appends it. */
  lemma {:induction false} AssignNew<V>(p: Props<V>, key: string, v: V)
    requires key !in KeysOf(p)
    ensures Assign(p, key, v) == p + [(key, v)]
  {
    if p != [] {
      assert p == [p[0]] + p[1..];
      KeysOfCons(p[0], p[1..]);
      AssignNew(p[1..], key, v);
      assert [p[0]] + (p[1..] + [(key, v)]) == p + [(key, v)];
    }
  }

  lemma KeysValuesSnoc<V>(p: Props<V>, key: string, v: V)
    ensures KeysOf(p + [(key, v)]) == KeysOf(p) + [key]
    ensures ValuesOf(p + [(key, v)]) == ValuesOf(p) + [v]
  {
  }

  /** An object is determined by its keys and its values. */
  lemma PropsByKeysValues<V>(p: Props<V>, q: Props<V>)
    requires KeysOf(p) == KeysOf(q) && ValuesOf(p) == ValuesOf(q)
    ensures p == q
  {
    assert |p| == |q|;
    forall i | 0 <= i < |p| ensures p[i] == q[i] {
      assert KeysOf(p)[i] == KeysOf(q)[i] && ValuesOf(p)[i] == ValuesOf(q)[i];
    }
  }

  predicate Distinct(s: seq<string>) {
    forall i, j :: 0 <= i < j < |s| ==> s[i] != s[j]
  }

  /** `obj[ks[i]] = vs[i]` for each `i` in turn, starting from `{}`. */
  function AssignAll<V>(ks: seq<string>, vs: seq<V>): Props<V>
    requires |ks| == |vs|
  {
    if ks == [] then [] else Assign(AssignAll(ks[..|ks| - 1], vs[..|vs| - 1]), ks[|ks| - 1], vs[|vs| - 1])
  }

  lemma AssignAllSnoc<V>(ks: seq<string>, vs: seq<V>, k: string, v: V)
    requires |ks| == |vs|
    ensures AssignAll(ks + [k], vs + [v]) == Assign(AssignAll(ks, vs), k, v)
  {
    assert (ks + [k])[..|ks|] == ks && (vs + [v])[..|vs|] == vs;
  }

  /** The keys stay distinct, whatever `ks` repeats. */
  lemma {:induction false} AssignAllDistinct<V>(ks: seq<string>, vs: seq<V>)
    requires |ks| == |vs|
    ensures DistinctKeys(AssignAll(ks, vs))
    decreases |ks|
  {
    if ks != [] {
      var n := |ks| - 1;
      AssignAllDistinct(ks[..n], vs[..n]);
      AssignDistinct(AssignAll(ks[..n], vs[..n]), ks[n], vs[n]);
    }
  }

  /** `ks[i]` does not recur after index `i`. */
  predicate LastAt(ks: seq<string>, i: nat) {
    i < |ks| && forall j :: i < j < |ks| ==> ks[j] != ks[i]
  }

  lemma LastAtPrefix(ks: seq<string>, i: nat, n: nat)
    requires LastAt(ks, i) && i < n <= |ks|
    ensures LastAt(ks[..n], i) && ks[..n][i] == ks[i]
  {
    var p := ks[..n];
    forall j | i < j < |p| ensures p[j] != p[i] {
      assert p[j] == ks[j];
    }
  }

  /** A key's value is the one assigned last under it. */
  lemma {:induction false} AssignAllLookup<V>(ks: seq<string>, vs: seq<V>, i: nat)
    requires |ks| == |vs| && LastAt(ks, i)
    ensures Lookup(AssignAll(ks, vs), ks[i]) == Some(vs[i])
    decreases |ks|
  {
    var n := |ks| - 1;
    var p := AssignAll(ks[..n], vs[..n]);
    assert AssignAll(ks, vs) == Assign(p, ks[n], vs[n]);
    if i < n {
      LastAtPrefix(ks, i, n);
      AssignAllLookup(ks[..n], vs[..n], i);
      assert vs[..n][i] == vs[i];
      assert ks[n] != ks[i];
      AssignLookup(p, ks[n], vs[n], ks[i]);
    }
  }

  /** A key never assigned is absent. */
  lemma {:induction false} AssignAllMissing<V>(ks: seq<string>, vs: seq<V>, k: string)
    requires |ks| == |vs| && k !in ks
    ensures Lookup(AssignAll(ks, vs), k) == None
    decreases |ks|
  {
    if ks != [] {
      var n := |ks| - 1;
      assert ks == ks[..n] + [ks[n]];
      AssignAllMissing(ks[..n], vs[..n], k);
      AssignLookup(AssignAll(ks[..n], vs[..n]), ks[n], vs[n], k);
    }
  }

  /** With distinct keys the object lists `ks` in order, each with its value. */
  lemma {:induction false} AssignAllZip<V>(ks: seq<string>, vs: seq<V>)
    requires |ks| == |vs| && Distinct(ks)
    ensures KeysOf(AssignAll(ks, vs)) == ks && ValuesOf(AssignAll(ks, vs)) == vs
    decreases |ks|
  {
    if ks != [] {
      var n := |ks| - 1;
      var prev := AssignAll(ks[..n], vs[..n]);
      assert Distinct(ks[..n]);
      AssignAllZip(ks[..n], vs[..n]);
      assert ks[n] !in ks[..n];
      AssignNew(prev, ks[n], vs[n]);
      KeysValuesSnoc(prev, ks[n], vs[n]);
      assert ks == ks[..n] + [ks[n]] && vs == vs[..n] + [vs[n]];
    }
  }
}
