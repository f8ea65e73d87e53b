/** Sparse pixel planes.

    Every plane of the rasterizer (render plane, texture plane, previous frame, the two display
    buffers) is a Python dictionary from coordinate to colour. Python dictionaries remember the
    order in which keys were first inserted, and that order is observable (it is the order in which
    a buffer is scanned out), so a plane here is a map together with its insertion order. */
module Planes {
  import opened Wrappers

  /** A pixel position; any pair of integers is a legal key. */
  type Coord = (int, int)

  /** A dictionary: `keys` lists the coordinates in insertion order, `px` holds their colours. */
  datatype RawPlane<C> = RawPlane(keys: seq<Coord>, px: map<Coord, C>)

  /** No coordinate occurs twice. */
  predicate Distinct(s: seq<Coord>) {
    forall i, j :: 0 <= i < j < |s| ==> s[i] != s[j]
  }

  /** A non-empty coordinate list is its prefix and its last element; a distinct one keeps the
      last element out of the prefix. */
  lemma SplitLast(s: seq<Coord>)
    requires |s| > 0
    ensures forall d :: d in s <==> d in s[..|s| - 1] || d == s[|s| - 1]
    ensures Distinct(s) ==> Distinct(s[..|s| - 1]) && s[|s| - 1] !in s[..|s| - 1]
  {
    assert s == s[..|s| - 1] + [s[|s| - 1]];
  }

  /** The insertion order lists every key of the map exactly once. */
  predicate Ordered<C>(p: RawPlane<C>) {
    && Distinct(p.keys)
    && (forall c :: c in p.px ==> c in p.keys)
    && (forall i :: 0 <= i < |p.keys| ==> p.keys[i] in p.px)
  }

  type Plane<C> = p: RawPlane<C> | Ordered(p) witness RawPlane([], map[])

  /** The coordinates of a sequence of (coordinate, colour) items, in order. */
  function KeysOf<C>(items: seq<(Coord, C)>): (ks: seq<Coord>)
    ensures |ks| == |items|
    ensures forall i :: 0 <= i < |items| ==> ks[i] == items[i].0
  {
    seq(|items|, i requires 0 <= i < |items| => items[i].0)
  }

  /** `{}` */
  function Empty<C>(): (r: Plane<C>)
    ensures forall c :: Get(r, c) == None
    ensures r.keys == []
  {
    RawPlane([], map[])
  }

  /** `plane[coord]`, with `None` for a missing key. */
  function Get<C>(p: Plane<C>, c: Coord): (r: Option<C>)
    ensures r.Some? <==> c in p.keys
    ensures r.Some? ==> c in p.px && p.px[c] == r.value
  {
    if c in p.px then Some(p.px[c]) else None
  }

  /** `plane[coord] = colour`: an upsert. An existing key keeps its place in the order; a new key
      goes to the end. */
  function Write<C>(p: Plane<C>, c: Coord, v: C): (r: Plane<C>)
    ensures Get(r, c) == Some(v)
    ensures forall d :: d != c ==> Get(r, d) == Get(p, d)
    ensures c in p.keys ==> r.keys == p.keys
    ensures c !in p.keys ==> r.keys == p.keys + [c]
  {
    if c in p.px then RawPlane(p.keys, p.px[c := v])
    else RawPlane(p.keys + [c], p.px[c := v])
  }

  /** `plane.items()`, in insertion order. */
  function Items<C>(p: Plane<C>): (r: seq<(Coord, C)>)
    ensures KeysOf(r) == p.keys
    ensures forall i :: 0 <= i < |r| ==> Get(p, r[i].0) == Some(r[i].1)
  {
    seq(|p.keys|, i requires 0 <= i < |p.keys| => (p.keys[i], p.px[p.keys[i]]))
  }

  /** `[(c, g(c, x)) for c, x in plane.items()]` */
  function Relabel<C>(p: Plane<C>, g: (Coord, C) -> C): (r: seq<(Coord, C)>)
    ensures KeysOf(r) == p.keys
    ensures forall i :: 0 <= i < |r| ==> Get(p, r[i].0).Some? && r[i].1 == g(r[i].0, Get(p, r[i].0).value)
  {
    seq(|p.keys|, i requires 0 <= i < |p.keys| => (p.keys[i], g(p.keys[i], p.px[p.keys[i]])))
  }

  /** Reference reading of a sequence of writes: the colour of the LAST item written at `d`. */
  function Lookup<C>(items: seq<(Coord, C)>, d: Coord): (r: Option<C>)
    decreases |items|
    ensures r.Some? <==> d in KeysOf(items)
  {
    if |items| == 0 then None
    else if items[|items| - 1].0 == d then Some(items[|items| - 1].1)
    else
      assert KeysOf(items) == KeysOf(items[..|items| - 1]) + [items[|items| - 1].0];
      Lookup(items[..|items| - 1], d)
  }

  /** `for c, x in items: plane[c] = x`: the writes in order, last one wins. Writing only keys the
      plane already has leaves its order alone. */
  function WriteAll<C>(p: Plane<C>, items: seq<(Coord, C)>): (r: Plane<C>)
    decreases |items|
    ensures forall d :: Get(r, d) == if d in KeysOf(items) then Lookup(items, d) else Get(p, d)
    ensures (forall i :: 0 <= i < |items| ==> items[i].0 in p.keys) ==> r.keys == p.keys
  {
    if |items| == 0 then p
    else
      var init := items[..|items| - 1];
      assert KeysOf(items) == KeysOf(init) + [items[|items| - 1].0];
      Write(WriteAll(p, init), items[|items| - 1].0, items[|items| - 1].1)
  }

  /** With distinct keys, a sequence of writes yields each item's own colour. */
  lemma {:induction false} LookupDistinct<C>(items: seq<(Coord, C)>, i: nat)
    requires Distinct(KeysOf(items))
    requires i < |items|
    ensures Lookup(items, items[i].0) == Some(items[i].1)
    decreases |items|
  {
    var n := |items| - 1;
    if i < n {
      var init := items[..n];
      assert KeysOf(init) == KeysOf(items)[..n];
      assert items[n].0 != items[i].0 by {
        assert KeysOf(items)[i] != KeysOf(items)[n];
      }
      LookupDistinct(init, i);
    }
  }

  /** Writing a plane's own items, relabelled, onto it keeps its keys and order and replaces every
      colour `x` at `c` with `g(c, x)`. */
  lemma RelabelInPlace<C>(p: Plane<C>, g: (Coord, C) -> C)
    ensures WriteAll(p, Relabel(p, g)).keys == p.keys
    ensures forall c :: c in p.keys ==> Get(WriteAll(p, Relabel(p, g)), c) == Some(g(c, p.px[c]))
  {
    var items := Relabel(p, g);
    forall c | c in p.keys
      ensures Get(WriteAll(p, items), c) == Some(g(c, p.px[c]))
    {
      var i :| 0 <= i < |p.keys| && p.keys[i] == c;
      LookupDistinct(items, i);
    }
  }

  /** Running two batches of writes one after the other is one batch of writes. */
  lemma {:induction false} WriteAllAppend<C>(p: Plane<C>, a: seq<(Coord, C)>, b: seq<(Coord, C)>)
    ensures WriteAll(p, a + b) == WriteAll(WriteAll(p, a), b)
    decreases |b|
  {
    if |b| == 0 {
      assert a + b == a;
    } else {
      var n := |b| - 1;
      assert (a + b)[..|a + b| - 1] == a + b[..n];
      assert (a + b)[|a + b| - 1] == b[n];
      WriteAllAppend(p, a, b[..n]);
    }
  }
}
