/** Finite maps as disjoint unions of the maps their owners contribute. */
module DisjointMaps {

  function Union<K, V>(parts: seq<map<K, V>>): map<K, V> {
    if parts == [] then map[] else Union(parts[..|parts| - 1]) + parts[|parts| - 1]
  }

  ghost predicate Disjoint<K, V>(parts: seq<map<K, V>>) {
    forall i, j :: 0 <= i < j < |parts| ==> parts[i].Keys !! parts[j].Keys
  }

  /** A part's entries are entries of the union. */
  lemma {:induction false} UnionHas<K, V>(parts: seq<map<K, V>>, i: nat, x: K)
    requires Disjoint(parts) && i < |parts| && x in parts[i]
    ensures x in Union(parts) && Union(parts)[x] == parts[i][x]
  {
    var last := |parts| - 1;
    if i < last {
      UnionHas(parts[..last], i, x);
      assert parts[i].Keys !! parts[last].Keys;
    }
  }

  /** Every entry of the union comes from a part. */
  lemma {:induction false} UnionFrom<K, V>(parts: seq<map<K, V>>, x: K) returns (i: nat)
    requires x in Union(parts)
    ensures i < |parts| && x in parts[i] && Union(parts)[x] == parts[i][x]
  {
    i := |parts| - 1;
    if x !in parts[i] {
      i := UnionFrom(parts[..i], x);
    }
  }

  lemma NotShared<K, V>(parts: seq<map<K, V>>, i: nat, j: nat, x: K)
    requires Disjoint(parts) && i < |parts| && j < |parts| && i != j && x in parts[i]
    ensures x !in parts[j]
  {
    if i < j {
      assert parts[i].Keys !! parts[j].Keys;
    } else {
      assert parts[j].Keys !! parts[i].Keys;
    }
  }

  /** Replacing a part removes its entries and adds the new ones. */
  lemma UnionReplace<K, V>(parts: seq<map<K, V>>, k: nat, m: map<K, V>)
    requires Disjoint(parts) && k < |parts| && Disjoint(parts[k := m])
    ensures Union(parts[k := m]) == Union(parts) - parts[k].Keys + m
  {
    var after := parts[k := m];
    forall x | x in Union(after)
      ensures x in Union(parts) - parts[k].Keys + m && Union(after)[x] == (Union(parts) - parts[k].Keys + m)[x]
    {
      var i := UnionFrom(after, x);
      if i != k {
        UnionHas(parts, i, x);
        NotShared(parts, i, k, x);
        NotShared(after, i, k, x);
      }
    }
    forall x | x in Union(parts) - parts[k].Keys + m
      ensures x in Union(after)
    {
      if x in m {
        UnionHas(after, k, x);
      } else {
        var i := UnionFrom(parts, x);
        UnionHas(after, i, x);
      }
    }
  }

  lemma {:induction false} UnionConcat<K, V>(a: seq<map<K, V>>, b: seq<map<K, V>>)
    ensures Union(a + b) == Union(a) + Union(b)
  {
    if b == [] {
      assert a + b == a;
    } else {
      var last := |b| - 1;
      UnionConcat(a, b[..last]);
      assert (a + b)[..|a + b| - 1] == a + b[..last];
    }
  }

  /** Dropping a part removes exactly its entries. */
  lemma UnionRemove<K, V>(parts: seq<map<K, V>>, k: nat)
    requires Disjoint(parts) && k < |parts|
    ensures Union(parts[..k] + parts[k + 1..]) == Union(parts) - parts[k].Keys
  {
    var a, p, b := Union(parts[..k]), parts[k], Union(parts[k + 1..]);
    assert Union(parts) == a + (p + b) by {
      UnionSplit(parts, k);
    }
    assert p.Keys !! a.Keys && p.Keys !! b.Keys by {
      PartApart(parts, k);
    }
    assert Union(parts[..k] + parts[k + 1..]) == a + b by {
      UnionConcat(parts[..k], parts[k + 1..]);
    }
    MiddleOut(a, p, b);
  }

  lemma UnionSplit<K, V>(parts: seq<map<K, V>>, k: nat)
    requires k < |parts|
    ensures Union(parts) == Union(parts[..k]) + (parts[k] + Union(parts[k + 1..]))
  {
    var p, b := [parts[k]], parts[k + 1..];
    assert parts == parts[..k] + (p + b);
    UnionConcat(parts[..k], p + b);
    UnionConcat(p, b);
    UnionOne(parts[k]);
  }

  lemma PartApart<K, V>(parts: seq<map<K, V>>, k: nat)
    requires Disjoint(parts) && k < |parts|
    ensures parts[k].Keys !! Union(parts[..k]).Keys && parts[k].Keys !! Union(parts[k + 1..]).Keys
  {
    forall x | x in Union(parts[..k])
      ensures x !in parts[k]
    {
      var i := UnionFrom(parts[..k], x);
      NotShared(parts, i, k, x);
    }
    forall x | x in Union(parts[k + 1..])
      ensures x !in parts[k]
    {
      var i := UnionFrom(parts[k + 1..], x);
      NotShared(parts, k + 1 + i, k, x);
    }
  }

  lemma UnionOne<K, V>(m: map<K, V>)
    ensures Union([m]) == m
  {
    assert [m][..0] == [];
  }

  lemma MiddleOut<K, V>(a: map<K, V>, m: map<K, V>, b: map<K, V>)
    requires m.Keys !! a.Keys && m.Keys !! b.Keys
    ensures a + b == (a + (m + b)) - m.Keys
  {
  }

  /** The sum of the values of a map. */
  ghost function Total<K>(m: map<K, nat>): nat
    decreases |m|
  {
    if m == map[] then 0 else var x :| x in m; m[x] + Total(m - {x})
  }

  /** Any key may be taken out first. */
  lemma {:induction false} TotalTake<K>(m: map<K, nat>, y: K)
    requires y in m
    ensures Total(m) == m[y] + Total(m - {y})
    decreases |m|
  {
    var x :| x in m && Total(m) == m[x] + Total(m - {x});
    if x != y {
      TotalTake(m - {x}, y);
      assert m - {x} - {y} == m - {y} - {x};
      TotalTake(m - {y}, x);
    }
  }

  lemma TotalPut<K>(m: map<K, nat>, x: K, n: nat)
    requires x !in m
    ensures Total(m[x := n]) == Total(m) + n
  {
    TotalTake(m[x := n], x);
    assert m[x := n] - {x} == m;
  }

  lemma TakeAndPut<K, V>(m: map<K, V>, x: K)
    requires x in m
    ensures m == (m - {x})[x := m[x]] && |m - {x}| < |m|
  {
    assert (m - {x}).Keys == m.Keys - {x};
    assert |(m - {x}).Keys| == |m.Keys| - 1;
  }

  lemma PutInUnion<K, V>(a: map<K, V>, b: map<K, V>, x: K, v: V)
    ensures a + b[x := v] == (a + b)[x := v]
  {
  }

  lemma {:induction false} TotalUnion<K>(a: map<K, nat>, b: map<K, nat>)
    requires a.Keys !! b.Keys
    ensures Total(a + b) == Total(a) + Total(b)
    decreases |b|
  {
    if b == map[] {
      assert a + b == a;
    } else {
      var x :| x in b;
      var n, rest := b[x], b - {x};
      TakeAndPut(b, x);
      TotalUnion(a, rest);
      PutInUnion(a, rest, x, n);
      TotalPut(rest, x, n);
      TotalPut(a + rest, x, n);
    }
  }
}
