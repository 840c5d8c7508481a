/**
 The packed buffer's geometry: which configurations the builder accepts, how
 many nodes a tree of `numItems` leaves has, where each level ends, how wide an
 identifier is, and how the bytes after the header split into the box region
 and the identifier region.
 */
module Layout {

  import opened Wrappers

  const DefaultNodeSize: nat := 16
  const MinNodeSize: nat := 2
  const MaxNodeSize: nat := 65535
  /** `u32::MAX`: the largest item count the header can carry. */
  const MaxItems: nat := 0xFFFF_FFFF
  /** Below this many nodes, identifiers are stored in 2 bytes, else in 4. */
  const NarrowNodeLimit: nat := 16384
  const HeaderBytes: nat := 8
  const CoordBytes: nat := 8

  /** The two assertions at the head of the constructor. */
  predicate ValidConfig(numItems: nat, nodeSize: nat)
  {
    MinNodeSize <= nodeSize <= MaxNodeSize && numItems <= MaxItems
  }

  lemma {:induction false} MulMono(a: nat, b: nat, d: nat)
    requires a <= b
    ensures a * d <= b * d
  {
  }

  lemma {:induction false} DivBounds(x: nat, d: nat)
    requires d > 0
    ensures (x / d) * d <= x < (x / d) * d + d
  {
    var q, r := x / d, x % d;
    assert x == q * d + r;
  }

  /**
   How many parents a level of `count` nodes gets: one per started group of
   `nodeSize` nodes, and one root for an empty level.
   */
  function ParentCount(count: nat, nodeSize: nat): (p: nat)
    requires nodeSize >= MinNodeSize
    ensures p >= 1
    ensures p == 1 <==> count <= nodeSize
    ensures count >= 2 ==> p < count
  {
    if count <= nodeSize then 1 else 1 + ParentCount(count - nodeSize, nodeSize)
  }

  /** ParentCount is the smallest number of groups of `nodeSize` that hold `count` nodes. */
  lemma {:induction false} ParentCountBounds(count: nat, nodeSize: nat)
    requires nodeSize >= MinNodeSize && count >= 1
    ensures var p := ParentCount(count, nodeSize); (p - 1) * nodeSize < count <= p * nodeSize
  {
    if count > nodeSize {
      var p' := ParentCount(count - nodeSize, nodeSize);
      ParentCountBounds(count - nodeSize, nodeSize);
      assert (p' + 1) * nodeSize == p' * nodeSize + nodeSize;
    }
  }

  lemma {:induction false} DivUnique(x: nat, d: nat, q: nat)
    requires d > 0 && q * d <= x < q * d + d
    ensures x / d == q
  {
    DivBounds(x, d);
    var q' := x / d;
    if q' < q {
      MulMono(q' + 1, q, d);
    } else if q' > q {
      MulMono(q + 1, q', d);
    }
  }

  /** For a non-empty level, ParentCount is the ceiling of `count / nodeSize`. */
  lemma ParentCountIsCeilDiv(count: nat, nodeSize: nat)
    requires nodeSize >= MinNodeSize && count >= 1
    ensures ParentCount(count, nodeSize) == (count + nodeSize - 1) / nodeSize
  {
    var p := ParentCount(count, nodeSize);
    ParentCountBounds(count, nodeSize);
    assert (p - 1) * nodeSize == p * nodeSize - nodeSize;
    DivUnique(count + nodeSize - 1, nodeSize, p);
  }

  /**
   First child of the `j`-th parent made from a level that starts at node `s`:
   the synthesis cursor after `j` full groups.
   */
  function GroupLo(s: nat, j: nat, nodeSize: nat): (lo: nat)
    ensures lo >= s
  {
    if j == 0 then s else GroupLo(s, j - 1, nodeSize) + nodeSize
  }

  /** That cursor is `j * nodeSize` past the level start. */
  lemma {:induction false} GroupLoIsProduct(s: nat, j: nat, nodeSize: nat)
    ensures GroupLo(s, j, nodeSize) == s + j * nodeSize
  {
    if j > 0 {
      GroupLoIsProduct(s, j - 1, nodeSize);
      assert j * nodeSize == (j - 1) * nodeSize + nodeSize;
    }
  }

  lemma {:induction false} GroupLoShift(s: nat, j: nat, nodeSize: nat)
    requires j >= 1
    ensures GroupLo(s, j, nodeSize) == GroupLo(s + nodeSize, j - 1, nodeSize)
  {
    if j > 1 {
      GroupLoShift(s, j - 1, nodeSize);
    }
  }

  /** One past the last child of that parent: `nodeSize` later, cut at the level end `e`. */
  function GroupHi(s: nat, e: nat, j: nat, nodeSize: nat): nat
  {
    if GroupLo(s, j, nodeSize) + nodeSize < e then GroupLo(s, j, nodeSize) + nodeSize else e
  }

  /** The `j`-th group starts inside a level of `count` nodes exactly for the first ParentCount groups. */
  lemma {:induction false} GroupIndexBelowParentCount(s: nat, count: nat, nodeSize: nat, j: nat)
    requires nodeSize >= MinNodeSize && count >= 1
    ensures GroupLo(s, j, nodeSize) < s + count <==> j < ParentCount(count, nodeSize)
    decreases j
  {
    if j > 0 {
      GroupLoShift(s, j, nodeSize);
      if count > nodeSize {
        GroupIndexBelowParentCount(s + nodeSize, count - nodeSize, nodeSize, j - 1);
      }
    }
  }

  /** Every node of a level `s .. e-1` lies in one of the level's ParentCount groups; this finds it. */
  lemma {:induction false} GroupOf(s: nat, e: nat, nodeSize: nat, q: nat) returns (j: nat)
    requires nodeSize >= MinNodeSize && s <= q < e
    ensures j < ParentCount(e - s, nodeSize)
    ensures GroupLo(s, j, nodeSize) <= q < GroupHi(s, e, j, nodeSize)
    decreases q - s
  {
    if q < s + nodeSize {
      j := 0;
    } else {
      var j' := GroupOf(s + nodeSize, e, nodeSize, q);
      j := j' + 1;
      GroupLoShift(s, j, nodeSize);
    }
  }

  /**
   The ParentCount parents of a non-empty level `s .. e-1` split it into
   consecutive groups: the first starts at `s`, each ends where the next
   begins, every group but the last has exactly `nodeSize` children, the last
   has between one and `nodeSize` and ends exactly at the level end.
   */
  lemma {:induction false} GroupsPartitionLevel(s: nat, e: nat, nodeSize: nat)
    requires nodeSize >= MinNodeSize && s < e
    ensures var p := ParentCount(e - s, nodeSize);
      && GroupLo(s, 0, nodeSize) == s
      && (forall j :: 0 <= j < p ==>
            GroupLo(s, j, nodeSize) < GroupHi(s, e, j, nodeSize) <= e &&
            GroupHi(s, e, j, nodeSize) - GroupLo(s, j, nodeSize) <= nodeSize)
      && (forall j :: 0 <= j < p - 1 ==>
            GroupHi(s, e, j, nodeSize) == GroupLo(s, j + 1, nodeSize) &&
            GroupHi(s, e, j, nodeSize) - GroupLo(s, j, nodeSize) == nodeSize)
      && GroupHi(s, e, p - 1, nodeSize) == e
  {
    var p := ParentCount(e - s, nodeSize);
    forall j | 0 <= j < p
      ensures GroupLo(s, j, nodeSize) < GroupHi(s, e, j, nodeSize) <= e
      ensures GroupHi(s, e, j, nodeSize) - GroupLo(s, j, nodeSize) <= nodeSize
      ensures j + 1 < p ==> GroupHi(s, e, j, nodeSize) == GroupLo(s, j + 1, nodeSize)
      ensures j + 1 < p ==> GroupHi(s, e, j, nodeSize) - GroupLo(s, j, nodeSize) == nodeSize
      ensures j + 1 == p ==> GroupHi(s, e, j, nodeSize) == e
    {
      GroupAt(s, e, nodeSize, j);
    }
  }

  /**
   The same facts for one group `j`: where it starts and ends, and where the
   next group begins.
   */
  lemma GroupAt(s: nat, e: nat, nodeSize: nat, j: nat)
    requires nodeSize >= MinNodeSize && s < e && j < ParentCount(e - s, nodeSize)
    ensures GroupLo(s, j, nodeSize) < GroupHi(s, e, j, nodeSize) <= e
    ensures GroupHi(s, e, j, nodeSize) - GroupLo(s, j, nodeSize) <= nodeSize
    ensures j + 1 < ParentCount(e - s, nodeSize) ==>
      GroupHi(s, e, j, nodeSize) == GroupLo(s, j + 1, nodeSize) &&
      GroupHi(s, e, j, nodeSize) - GroupLo(s, j, nodeSize) == nodeSize
    ensures j + 1 == ParentCount(e - s, nodeSize) ==> GroupHi(s, e, j, nodeSize) == e
  {
    GroupIndexBelowParentCount(s, e - s, nodeSize, j);
    GroupIndexBelowParentCount(s, e - s, nodeSize, j + 1);
  }

  /** First node of level `i`. */
  function LevelStart(ends: seq<nat>, i: nat): nat
    requires i < |ends|
  {
    if i == 0 then 0 else ends[i - 1]
  }

  /** Level `i` holds ParentCount of the nodes of level `i - 1`. */
  ghost predicate ChainStep(ends: seq<nat>, i: nat, nodeSize: nat)
    requires 1 <= i < |ends| && nodeSize >= MinNodeSize
  {
    LevelStart(ends, i - 1) <= ends[i - 1] &&
    ends[i] == ends[i - 1] + ParentCount(ends[i - 1] - LevelStart(ends, i - 1), nodeSize)
  }

  /**
   Appends parent levels to `ends` until a level of a single node is added:
   at least one parent level is always added.
   */
  function Grow(ends: seq<nat>, nodeSize: nat): (g: seq<nat>)
    requires nodeSize >= MinNodeSize && |ends| >= 1
    requires LevelStart(ends, |ends| - 1) <= ends[|ends| - 1]
    ensures |g| > |ends|
    decreases ends[|ends| - 1] - LevelStart(ends, |ends| - 1)
  {
    var last := ends[|ends| - 1];
    var p := ParentCount(last - LevelStart(ends, |ends| - 1), nodeSize);
    var next := ends + [last + p];
    if p == 1 then next else Grow(next, nodeSize)
  }

  /**
   The end of each tree level in nodes (`compute_num_nodes`): leaves are level 0,
   the root is the last level. The builder's level bounds are these times four.
   */
  function LevelEnds(numItems: nat, nodeSize: nat): (ends: seq<nat>)
    requires nodeSize >= MinNodeSize
    ensures IsLevelChain(ends, numItems, nodeSize)
  {
    GrowChain([numItems], nodeSize);
    var g := Grow([numItems], nodeSize);
    assert g[0] == g[..1][0];
    g
  }

  /** `level_bounds`: the level ends in f64 slots, four per node. */
  function LevelBounds(numItems: nat, nodeSize: nat): (bounds: seq<nat>)
    requires nodeSize >= MinNodeSize
    ensures |bounds| == |LevelEnds(numItems, nodeSize)|
    ensures forall i :: 0 <= i < |bounds| ==> bounds[i] == 4 * LevelEnds(numItems, nodeSize)[i]
    ensures bounds[0] == 4 * numItems
    ensures bounds[|bounds| - 1] == 4 * NumNodes(numItems, nodeSize)
  {
    var ends := LevelEnds(numItems, nodeSize);
    seq(|ends|, i requires 0 <= i < |ends| => 4 * ends[i])
  }

  /** The level bounds strictly ascend, so every level above the leaves is non-empty. */
  lemma LevelBoundsAscend(numItems: nat, nodeSize: nat)
    requires nodeSize >= MinNodeSize
    ensures var bounds := LevelBounds(numItems, nodeSize);
      forall i, k :: 0 <= i < k < |bounds| ==> bounds[i] < bounds[k]
  {
    var bounds := LevelBounds(numItems, nodeSize);
    forall i, k | 0 <= i < k < |bounds|
      ensures bounds[i] < bounds[k]
    {
      LevelEndsAscend(numItems, nodeSize, i, k);
    }
  }

  /** `num_nodes`: leaves plus every internal node, the end of the root level. */
  function NumNodes(numItems: nat, nodeSize: nat): (n: nat)
    requires nodeSize >= MinNodeSize
    ensures n > numItems
  {
    var ends := LevelEnds(numItems, nodeSize);
    LevelEndsAscend(numItems, nodeSize, 0, |ends| - 1);
    ends[|ends| - 1]
  }

  /**
   The shape the builder relies on: level 0 holds the items, each later level
   holds ParentCount of the one before, and the last level is the single root.
   */
  ghost predicate IsLevelChain(ends: seq<nat>, numItems: nat, nodeSize: nat)
    requires nodeSize >= MinNodeSize
  {
    && |ends| >= 2
    && ends[0] == numItems
    && (forall i :: 1 <= i < |ends| ==> ChainStep(ends, i, nodeSize))
    && ends[|ends| - 1] == ends[|ends| - 2] + 1
  }

  lemma {:induction false} GrowChain(ends: seq<nat>, nodeSize: nat)
    requires nodeSize >= MinNodeSize && |ends| >= 1
    requires LevelStart(ends, |ends| - 1) <= ends[|ends| - 1]
    requires forall i :: 1 <= i < |ends| ==> ChainStep(ends, i, nodeSize)
    ensures var g := Grow(ends, nodeSize);
      && |g| > |ends|
      && g[..|ends|] == ends
      && (forall i :: 1 <= i < |g| ==> ChainStep(g, i, nodeSize))
      && g[|g| - 1] == g[|g| - 2] + 1
    decreases ends[|ends| - 1] - LevelStart(ends, |ends| - 1)
  {
    var last := ends[|ends| - 1];
    var p := ParentCount(last - LevelStart(ends, |ends| - 1), nodeSize);
    var next := ends + [last + p];
    forall i | 1 <= i < |next|
      ensures ChainStep(next, i, nodeSize)
    {
      if i < |ends| {
        assert ChainStep(ends, i, nodeSize);
        assert next[i] == ends[i] && next[i - 1] == ends[i - 1];
        assert LevelStart(next, i - 1) == LevelStart(ends, i - 1);
      }
    }
    if p != 1 {
      GrowChain(next, nodeSize);
      var g := Grow(next, nodeSize);
      assert g[..|ends|] == g[..|next|][..|ends|];
      assert next[..|ends|] == ends;
    } else {
      assert next[..|ends|] == ends;
    }
  }

  /** Level ends strictly ascend, so each level is non-empty above the leaves. */
  lemma {:induction false} LevelEndsAscend(numItems: nat, nodeSize: nat, i: nat, k: nat)
    requires nodeSize >= MinNodeSize
    requires i < k < |LevelEnds(numItems, nodeSize)|
    ensures LevelEnds(numItems, nodeSize)[i] < LevelEnds(numItems, nodeSize)[k]
    decreases k - i
  {
    assert ChainStep(LevelEnds(numItems, nodeSize), k, nodeSize);
    if k > i + 1 {
      LevelEndsAscend(numItems, nodeSize, i, k - 1);
    }
  }

  /** Every node below NumNodes belongs to exactly the level whose range holds it; this finds it. */
  lemma {:induction false} LevelOf(numItems: nat, nodeSize: nat, q: nat, i: nat) returns (k: nat)
    requires nodeSize >= MinNodeSize && i < |LevelEnds(numItems, nodeSize)|
    requires LevelStart(LevelEnds(numItems, nodeSize), i) <= q < NumNodes(numItems, nodeSize)
    ensures var ends := LevelEnds(numItems, nodeSize);
      i <= k < |ends| && LevelStart(ends, k) <= q < ends[k]
    decreases |LevelEnds(numItems, nodeSize)| - i
  {
    var ends := LevelEnds(numItems, nodeSize);
    if q < ends[i] {
      k := i;
    } else {
      k := LevelOf(numItems, nodeSize, q, i + 1);
    }
  }

  /**
   The sizes the constructor reads off the layout: more nodes than items, and a
   single-node tree (one root over all items) exactly when the items fit one node.
   */
  lemma NumNodesShape(numItems: nat, nodeSize: nat)
    requires nodeSize >= MinNodeSize
    ensures NumNodes(numItems, nodeSize) > numItems
    ensures numItems <= nodeSize <==> LevelEnds(numItems, nodeSize) == [numItems, numItems + 1]
    ensures numItems <= nodeSize ==> NumNodes(numItems, nodeSize) == numItems + 1
  {
    var ends := LevelEnds(numItems, nodeSize);
    LevelEndsAscend(numItems, nodeSize, 0, |ends| - 1);
    assert ChainStep(ends, 1, nodeSize);
  }

  /** Bytes per identifier: 2 when the node count is small enough, else 4. */
  function IdWidth(numNodes: nat): (w: nat)
    ensures w == 2 || w == 4
    ensures w == 2 <==> numNodes < NarrowNodeLimit
  {
    if numNodes < NarrowNodeLimit then 2 else 4
  }

  /** The largest identifier an identifier of `width` bytes can hold. */
  function IdMax(width: nat): nat
  {
    if width == 2 then 0xFFFF else 0xFFFF_FFFF
  }

  /**
   Every value the builder stores as an identifier is a node number below
   `numNodes` or a slot offset `4 * q` of such a node; with the narrow width all
   of these fit, which is why the width switches at 16384 nodes.
   */
  lemma NarrowIdsFit(numNodes: nat)
    requires numNodes < NarrowNodeLimit
    ensures 4 * numNodes <= IdMax(IdWidth(numNodes))
  {
  }

  /** The whole packed buffer: header, box region, identifier region. */
  function BufferLength(numNodes: nat): (len: nat)
    ensures numNodes < NarrowNodeLimit ==> len == 8 + 34 * numNodes
    ensures numNodes >= NarrowNodeLimit ==> len == 8 + 36 * numNodes
  {
    HeaderBytes + numNodes * 4 * CoordBytes + numNodes * IdWidth(numNodes)
  }

  /** Byte ranges of the two typed views over the buffer after its header. */
  datatype Regions = Regions(boxStart: nat, boxEnd: nat, idStart: nat, idEnd: nat, idWidth: nat)

  /**
   `split_data_borrow`: the box view starts right after the header and spans
   `nodesByteSize` bytes, the identifier view spans the rest. None when the
   split would run past the buffer (a panic) or the rest does not have
   `indicesByteSize` bytes (the debug assertion).
   */
  function SplitData(dataLength: nat, numNodes: nat, nodesByteSize: nat, indicesByteSize: nat): (r: Option<Regions>)
    ensures r.Some? <==> HeaderBytes + nodesByteSize + indicesByteSize == dataLength
    ensures r.Some? ==>
      && r.value.boxStart == HeaderBytes
      && r.value.boxEnd == r.value.idStart
      && r.value.idEnd == dataLength
      && r.value.boxEnd - r.value.boxStart == nodesByteSize
      && r.value.idWidth == IdWidth(numNodes)
  {
    if dataLength < HeaderBytes || dataLength - HeaderBytes < nodesByteSize then None
    else if dataLength - HeaderBytes - nodesByteSize != indicesByteSize then None
    else Some(Regions(HeaderBytes, HeaderBytes + nodesByteSize, HeaderBytes + nodesByteSize, dataLength, IdWidth(numNodes)))
  }

  /**
   On a buffer the constructor laid out, the split gives a box view of exactly
   `4 * numNodes` coordinates and an identifier view of exactly `numNodes`
   identifiers.
   */
  lemma SplitDataOfBuilderBuffer(numNodes: nat)
    ensures var r := SplitData(BufferLength(numNodes), numNodes, numNodes * 4 * CoordBytes, numNodes * IdWidth(numNodes));
      && r.Some?
      && r.value.boxEnd - r.value.boxStart == CoordBytes * (4 * numNodes)
      && r.value.idEnd - r.value.idStart == r.value.idWidth * numNodes
  {
  }
}
