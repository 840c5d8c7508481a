/**
 Coordinates and axis-aligned boxes as the builder handles them.

 The builder only compares coordinates (`<`, `>`, `min`, `max`); it never adds
 or scales them. A coordinate is therefore modelled as an integer extended with
 the two infinities that the running extent starts from. NaN is not modelled.
 */
module Geometry {

  /** A non-NaN 64-bit float as far as ordering is concerned. */
  datatype Coord = NegInf | Fin(v: int) | PosInf

  /** The total order `<=` on coordinates. */
  predicate Le(a: Coord, b: Coord)
  {
    a.NegInf? || b.PosInf? || (a.Fin? && b.Fin? && a.v <= b.v)
  }

  /** Strict `<`, as used by the extent update. */
  predicate Lt(a: Coord, b: Coord)
  {
    !Le(b, a)
  }

  /** Strict `>`, as used by the extent update. */
  predicate Gt(a: Coord, b: Coord)
  {
    Lt(b, a)
  }

  /** `f64::min` on non-NaN values: the greatest lower bound of the two. */
  function Min(a: Coord, b: Coord): (m: Coord)
    ensures m == a || m == b
    ensures Le(m, a) && Le(m, b)
  {
    if Le(a, b) then a else b
  }

  /** `f64::max` on non-NaN values: the least upper bound of the two. */
  function Max(a: Coord, b: Coord): (m: Coord)
    ensures m == a || m == b
    ensures Le(a, m) && Le(b, m)
  {
    if Le(a, b) then b else a
  }

  /** One node's bounding box, in the order the buffer stores it. */
  datatype Box = Box(minX: Coord, minY: Coord, maxX: Coord, maxY: Coord)

  /** The extent before any insertion: min at +infinity, max at -infinity. */
  const EmptyBox := Box(PosInf, PosInf, NegInf, NegInf)

  /** `outer` covers `inner` on both axes. */
  predicate Contains(outer: Box, inner: Box)
  {
    Le(outer.minX, inner.minX) && Le(outer.minY, inner.minY) &&
    Le(inner.maxX, outer.maxX) && Le(inner.maxY, outer.maxY)
  }

  /** Element-wise min/max of two boxes: the smallest box covering both. */
  function Union(a: Box, b: Box): (u: Box)
    ensures Contains(u, a) && Contains(u, b)
  {
    Box(Min(a.minX, b.minX), Min(a.minY, b.minY), Max(a.maxX, b.maxX), Max(a.maxY, b.maxY))
  }

  lemma ContainsReflexive(a: Box)
    ensures Contains(a, a)
  {
  }

  lemma ContainsTransitive(a: Box, b: Box, c: Box)
    requires Contains(a, b) && Contains(b, c)
    ensures Contains(a, c)
  {
  }

  /** The empty extent is covered by every box and is the unit of Union. */
  lemma EmptyBoxIsUnit(b: Box)
    ensures Contains(b, EmptyBox)
    ensures Union(EmptyBox, b) == b
  {
  }

  /** The box of node `q` in a flat coordinate array: four consecutive slots. */
  function NodeBox(s: seq<Coord>, q: nat): Box
    requires 4 * q + 4 <= |s|
  {
    Box(s[4 * q], s[4 * q + 1], s[4 * q + 2], s[4 * q + 3])
  }

  /**
   The box of a parent whose children are nodes `lo .. hi-1`: the first child's
   box, widened child by child in order, as the synthesis loop does.
   */
  function Aggregate(s: seq<Coord>, lo: nat, hi: nat): Box
    requires lo < hi && 4 * hi <= |s|
    decreases hi - lo
  {
    if hi == lo + 1 then NodeBox(s, lo) else Union(Aggregate(s, lo, hi - 1), NodeBox(s, hi - 1))
  }

  /**
   The running extent after the first `count` nodes were added: the empty extent
   widened by each added box in turn.
   */
  function ExtentOf(s: seq<Coord>, count: nat): Box
    requires 4 * count <= |s|
  {
    if count == 0 then EmptyBox else Union(ExtentOf(s, count - 1), NodeBox(s, count - 1))
  }

  /** A parent box covers each of its children. */
  lemma {:induction false} AggregateCovers(s: seq<Coord>, lo: nat, hi: nat)
    requires lo < hi && 4 * hi <= |s|
    ensures forall k :: lo <= k < hi ==> Contains(Aggregate(s, lo, hi), NodeBox(s, k))
    decreases hi - lo
  {
    if hi > lo + 1 {
      AggregateCovers(s, lo, hi - 1);
      forall k | lo <= k < hi - 1
        ensures Contains(Aggregate(s, lo, hi), NodeBox(s, k))
      {
        ContainsTransitive(Aggregate(s, lo, hi), Aggregate(s, lo, hi - 1), NodeBox(s, k));
      }
    }
  }

  /** A parent box is the smallest box covering all its children. */
  lemma {:induction false} AggregateLeast(s: seq<Coord>, lo: nat, hi: nat, c: Box)
    requires lo < hi && 4 * hi <= |s|
    requires forall k :: lo <= k < hi ==> Contains(c, NodeBox(s, k))
    ensures Contains(c, Aggregate(s, lo, hi))
    decreases hi - lo
  {
    if hi > lo + 1 {
      AggregateLeast(s, lo, hi - 1, c);
    }
  }

  /** The running extent covers every added box. */
  lemma {:induction false} ExtentCovers(s: seq<Coord>, count: nat)
    requires 4 * count <= |s|
    ensures forall k :: 0 <= k < count ==> Contains(ExtentOf(s, count), NodeBox(s, k))
  {
    if count > 0 {
      ExtentCovers(s, count - 1);
      forall k | 0 <= k < count - 1
        ensures Contains(ExtentOf(s, count), NodeBox(s, k))
      {
        ContainsTransitive(ExtentOf(s, count), ExtentOf(s, count - 1), NodeBox(s, k));
      }
    }
  }

  /**
   Once a box was added, the running extent equals the aggregate of the added
   boxes: the small-input root and an internal parent are formed alike.
   */
  lemma {:induction false} ExtentIsAggregate(s: seq<Coord>, count: nat)
    requires 0 < count && 4 * count <= |s|
    ensures ExtentOf(s, count) == Aggregate(s, 0, count)
  {
    if count == 1 {
      EmptyBoxIsUnit(NodeBox(s, 0));
    } else {
      ExtentIsAggregate(s, count - 1);
    }
  }

  /** A parent box depends only on the slots of its children. */
  lemma {:induction false} AggregateFrame(s: seq<Coord>, t: seq<Coord>, lo: nat, hi: nat)
    requires lo < hi && 4 * hi <= |s| && 4 * hi <= |t|
    requires SamePrefix(s, t, 4 * hi)
    ensures Aggregate(s, lo, hi) == Aggregate(t, lo, hi)
    decreases hi - lo
  {
    NodeBoxFrame(s, t, hi - 1, hi);
    if hi > lo + 1 {
      AggregateFrame(s, t, lo, hi - 1);
    }
  }

  /** The running extent depends only on the slots of the added boxes. */
  lemma {:induction false} ExtentFrame(s: seq<Coord>, t: seq<Coord>, count: nat)
    requires 4 * count <= |s| && 4 * count <= |t|
    requires SamePrefix(s, t, 4 * count)
    ensures ExtentOf(s, count) == ExtentOf(t, count)
  {
    if count > 0 {
      NodeBoxFrame(s, t, count - 1, count);
      ExtentFrame(s, t, count - 1);
    }
  }

  /** The first `n` elements of `s` and `t` agree. */
  ghost predicate SamePrefix<T>(s: seq<T>, t: seq<T>, n: nat)
  {
    n <= |s| && n <= |t| && forall c :: 0 <= c < n ==> s[c] == t[c]
  }

  /** Equal prefixes give equal boxes for every node inside them. */
  lemma NodeBoxFrame(s: seq<Coord>, t: seq<Coord>, q: nat, n: nat)
    requires q < n && SamePrefix(s, t, 4 * n)
    ensures NodeBox(s, q) == NodeBox(t, q)
  {
  }
}
