/**
 The static R-tree builder (`FlatbushBuilder`): it sizes one packed buffer for
 a declared number of items, receives the items' boxes one by one, and on
 finishing either adds a single root over all of them or has the reorder
 strategy permute the leaves and then synthesizes the internal levels
 bottom-up.

 The buffer is modelled as its three typed parts: the 8 header bytes, the box
 array of `4 * numNodes` coordinates and the identifier array of `numNodes`
 identifiers, each at most IdMax(IdWidth(numNodes)).
 */
module Builder {

  import opened Wrappers
  import opened Geometry
  import opened Layout
  import opened Header

  /**
   The builder's failures. In the source each one is a panic: a rejected
   configuration, a box written past the buffer, an identifier too wide for its
   slot, or a count of insertions different from the declared one.
   */
  datatype BuildError = InvalidConfig | OutOfCapacity | IdOverflow | CountMismatch

  /** What the reorder strategy is told (`SortParams`). */
  datatype SortParams = SortParams(numItems: nat, nodeSize: nat, minX: Coord, minY: Coord, maxX: Coord, maxY: Coord)

  /** `order` lists each of 0 .. n-1 exactly once. */
  predicate IsPermutation(order: seq<nat>, n: nat)
  {
    && |order| == n
    && (forall k :: 0 <= k < n ==> order[k] < n)
    && (forall k, k' :: 0 <= k < k' < n ==> order[k] != order[k'])
    && (forall i :: 0 <= i < n ==> i in order)
  }

  /**
   A reorder strategy (`Sort`): from the parameters and the leaf coordinates it
   chooses the order in which the leaves are to be laid out; new leaf `k` is
   old leaf `order[k]`.
   */
  ghost predicate IsSortStrategy(sort: (SortParams, seq<Coord>) -> seq<nat>)
  {
    forall params, leaves :: IsPermutation(sort(params, leaves), params.numItems)
  }

  /** The slots from `from` on still hold the zeros the buffer was created with. */
  ghost predicate ZeroFrom(b: seq<Coord>, from: nat)
  {
    forall c :: from <= c < |b| ==> b[c] == Fin(0)
  }

  /** Before `finish`, the first `count` identifiers are 0 .. count-1 and the rest are zero. */
  ghost predicate InsertionIds(ids: seq<nat>, count: nat)
  {
    forall k :: 0 <= k < |ids| ==> ids[k] == if k < count then k else 0
  }

  /** One insertion keeps the buffer's shape and widens the running extent by the new box. */
  lemma AppendStep(b: seq<Coord>, b2: seq<Coord>, ids: seq<nat>, ids2: seq<nat>, count: nat, box: Box)
    requires 4 * count + 4 <= |b| && count < |ids|
    requires ZeroFrom(b, 4 * count) && InsertionIds(ids, count)
    requires |b2| == |b| && b2[4 * count] == box.minX && b2[4 * count + 1] == box.minY
    requires b2[4 * count + 2] == box.maxX && b2[4 * count + 3] == box.maxY
    requires forall c :: 0 <= c < |b| && !(4 * count <= c < 4 * count + 4) ==> b2[c] == b[c]
    requires ids2 == ids[count := count]
    ensures ZeroFrom(b2, 4 * count + 4) && InsertionIds(ids2, count + 1)
    ensures ExtentOf(b2, count + 1) == Union(ExtentOf(b, count), box)
  {
    ExtentFrame(b2, b, count);
  }

  /** Every stored identifier fits the identifier width of the buffer. */
  ghost predicate IdsFit(ids: seq<nat>, numNodes: nat)
  {
    forall k :: 0 <= k < |ids| ==> ids[k] <= IdMax(IdWidth(numNodes))
  }

  /**
   The `j`-th parent made from the level of nodes `s .. e-1` sits at node
   `e + j`; its identifier is the slot offset of its first child and its box is
   the aggregate of its children GroupLo .. GroupHi-1.
   */
  ghost predicate GroupParent(b: seq<Coord>, ids: seq<nat>, nodeSize: nat, s: nat, e: nat, j: nat)
  {
    var lo := GroupLo(s, j, nodeSize);
    var hi := GroupHi(s, e, j, nodeSize);
    && lo < hi && 4 * hi <= |b|
    && 4 * (e + j) + 4 <= |b| && e + j < |ids|
    && ids[e + j] == 4 * lo
    && NodeBox(b, e + j) == Aggregate(b, lo, hi)
  }

  /** The first `count` parents of the level `s .. e-1` are in place. */
  ghost predicate LevelParents(b: seq<Coord>, ids: seq<nat>, nodeSize: nat, s: nat, e: nat, count: nat)
  {
    forall j :: 0 <= j < count ==> GroupParent(b, ids, nodeSize, s, e, j)
  }

  /** All parents of level `i` of the tree of `numItems` leaves are in place. */
  ghost predicate LevelBuilt(b: seq<Coord>, ids: seq<nat>, numItems: nat, nodeSize: nat, i: nat)
    requires nodeSize >= MinNodeSize
  {
    var ends := LevelEnds(numItems, nodeSize);
    i + 1 < |ends| && ends[i] <= ends[i + 1] &&
    LevelParents(b, ids, nodeSize, LevelStart(ends, i), ends[i], ends[i + 1] - ends[i])
  }

  /** Levels `0 .. upTo-1` have all their parents in place. */
  ghost predicate LevelsBuilt(b: seq<Coord>, ids: seq<nat>, numItems: nat, nodeSize: nat, upTo: nat)
    requires nodeSize >= MinNodeSize
  {
    forall i :: 0 <= i < upTo ==> LevelBuilt(b, ids, numItems, nodeSize, i)
  }

  /** The finished index (`OwnedFlatbush`), as a value. */
  datatype Flatbush = Flatbush(
    header: seq<byte>,
    boxes: seq<Coord>,
    ids: seq<nat>,
    nodeSize: nat,
    numItems: nat,
    numNodes: nat,
    levelBounds: seq<nat>)

  /**
   What a finished index guarantees: the layout of its configuration, a header
   that reads back as that configuration, the leaves' identifiers a permutation
   of the items, and every internal node in place (an empty index has the empty
   extent as its root).
   */
  ghost predicate WellFormed(f: Flatbush)
  {
    && ValidConfig(f.numItems, f.nodeSize)
    && f.numNodes == NumNodes(f.numItems, f.nodeSize)
    && f.levelBounds == LevelBounds(f.numItems, f.nodeSize)
    && |f.boxes| == 4 * f.numNodes && |f.ids| == f.numNodes && f.numItems < f.numNodes
    && DecodeHeader(f.header).Some?
    && DecodeHeader(f.header).value.nodeSize == f.nodeSize
    && DecodeHeader(f.header).value.numItems == f.numItems
    && IsPermutation(f.ids[..f.numItems], f.numItems)
    && IdsFit(f.ids, f.numNodes)
    && (f.numItems == 0 ==> NodeBox(f.boxes, 0) == EmptyBox)
    && (f.numItems > 0 ==> LevelsBuilt(f.boxes, f.ids, f.numItems, f.nodeSize, |LevelEnds(f.numItems, f.nodeSize)| - 1))
  }

  class FlatbushBuilder {
    const header: array<byte>
    const boxes: array<Coord>
    const ids: array<nat>
    /** `VERSION`, a constant of the format defined outside the builder. */
    const version: nat
    const numItems: nat
    const nodeSize: nat
    const numNodes: nat
    const levelBounds: seq<nat>
    const nodesByteSize: nat
    const indicesByteSize: nat

    /** Next free slot of the box array; four slots per node. */
    var pos: nat
    var minX: Coord
    var minY: Coord
    var maxX: Coord
    var maxY: Coord
    /** Set once `Finish` has consumed the builder. */
    var finished: bool

    /** The running extent. */
    function Extent(): Box
      reads this
    {
      Box(minX, minY, maxX, maxY)
    }

    /** Insertions so far (`pos >> 2`). */
    function Count(): nat
      reads this
    {
      pos / 4
    }

    /** Bytes of the packed buffer these three parts stand for. */
    function DataLength(): nat
    {
      header.Length + boxes.Length * CoordBytes + ids.Length * IdWidth(numNodes)
    }

    /** The configuration and the tree geometry, fixed by the constructor. */
    ghost predicate Sized()
    {
      && ValidConfig(numItems, nodeSize)
      && numNodes == NumNodes(numItems, nodeSize) && numItems < numNodes
      && levelBounds == LevelBounds(numItems, nodeSize)
      && boxes.Length == 4 * numNodes && ids.Length == numNodes
    }

    /** Sized, and the header and byte sizes the constructor wrote. */
    ghost predicate Shaped()
      reads header
    {
      && Sized() && version < 16
      && nodesByteSize == numNodes * 4 * CoordBytes
      && indicesByteSize == numNodes * IdWidth(numNodes)
      && header.Length == HeaderBytes
      && header[..] == EncodeHeader(version, nodeSize, numItems)
      && SplitData(DataLength(), numNodes, nodesByteSize, indicesByteSize)
           == Some(Regions(HeaderBytes, HeaderBytes + CoordBytes * boxes.Length,
                           HeaderBytes + CoordBytes * boxes.Length, DataLength(), IdWidth(numNodes)))
    }

    /**
     The builder between insertions: `Count()` boxes were added at nodes
     0 .. Count()-1, each leaf's identifier is its own number, the rest of the
     buffer is still zero, and the extent is that of the added boxes.
     */
    ghost predicate Valid()
      reads this, header, boxes, ids
    {
      && Shaped() && !finished
      && pos % 4 == 0 && pos <= 4 * numNodes
      && InsertionIds(ids[..], pos / 4)
      && IdsFit(ids[..], numNodes)
      && ZeroFrom(boxes[..], pos)
      && Extent() == ExtentOf(boxes[..], pos / 4)
    }

    /** `FlatbushBuilder::new_with_node_size` once its two assertions passed. */
    constructor (numItems: nat, nodeSize: nat, version: nat)
      requires ValidConfig(numItems, nodeSize) && version < 16
      ensures Valid()
      ensures this.numItems == numItems && this.nodeSize == nodeSize && this.version == version
      ensures numNodes == NumNodes(numItems, nodeSize) && levelBounds == LevelBounds(numItems, nodeSize)
      ensures DataLength() == BufferLength(numNodes)
      ensures header[..] == EncodeHeader(version, nodeSize, numItems)
      ensures boxes[..] == seq(4 * numNodes, _ => Fin(0)) && ids[..] == seq(numNodes, _ => 0)
      ensures pos == 0 && Extent() == EmptyBox
      ensures fresh(header) && fresh(boxes) && fresh(ids)
    {
      var ends := LevelEnds(numItems, nodeSize);
      var nodes := ends[|ends| - 1];
      NumNodesShape(numItems, nodeSize);
      var indicesBytesPerElement := if nodes < NarrowNodeLimit then 2 else 4;
      var h := WriteHeader(version, nodeSize, numItems);
      SplitDataOfBuilderBuffer(nodes);
      this.numItems := numItems;
      this.nodeSize := nodeSize;
      this.version := version;
      numNodes := nodes;
      levelBounds := LevelBounds(numItems, nodeSize);
      nodesByteSize := nodes * 4 * CoordBytes;
      indicesByteSize := nodes * indicesBytesPerElement;
      header := h;
      boxes := new Coord[4 * nodes](_ => Fin(0));
      ids := new nat[nodes](_ => 0);
      pos := 0;
      minX, minY := PosInf, PosInf;
      maxX, maxY := NegInf, NegInf;
      finished := false;
    }

    /** The four box writes that follow the cursor, as in `add` and `finish`. */
    method PushBox(box: Box)
      requires pos % 4 == 0 && pos + 4 <= boxes.Length
      modifies this`pos, boxes
      ensures pos == old(pos) + 4
      ensures boxes[old(pos)] == box.minX && boxes[old(pos) + 1] == box.minY
      ensures boxes[old(pos) + 2] == box.maxX && boxes[old(pos) + 3] == box.maxY
      ensures forall c :: 0 <= c < boxes.Length && !(old(pos) <= c < pos) ==> boxes[c] == old(boxes[c])
    {
      boxes[pos] := box.minX;
      pos := pos + 1;
      boxes[pos] := box.minY;
      pos := pos + 1;
      boxes[pos] := box.maxX;
      pos := pos + 1;
      boxes[pos] := box.maxY;
      pos := pos + 1;
    }

    /** The extent update of `add`: each bound moves only when the new box exceeds it. */
    method WidenExtent(box: Box)
      modifies this`minX, this`minY, this`maxX, this`maxY
      ensures Extent() == Union(old(Extent()), box)
    {
      if Lt(box.minX, minX) {
        minX := box.minX;
      }
      if Lt(box.minY, minY) {
        minY := box.minY;
      }
      if Gt(box.maxX, maxX) {
        maxX := box.maxX;
      }
      if Gt(box.maxY, maxY) {
        maxY := box.maxY;
      }
    }

    /**
     `add`: the k-th insertion stores the box at node k, records k as that
     node's identifier, widens the extent by the box and returns k. It fails,
     changing nothing, when node k is past the buffer or k does not fit the
     identifier width.
     */
    method Add(minX: Coord, minY: Coord, maxX: Coord, maxY: Coord) returns (r: Result<nat, BuildError>)
      requires Valid()
      modifies this`pos, this`minX, this`minY, this`maxX, this`maxY, boxes, ids
      ensures Valid()
      ensures r.Ok? <==> old(Count()) < numNodes && old(Count()) <= IdMax(IdWidth(numNodes))
      ensures r.Err? ==>
        && r.error == (if old(Count()) >= numNodes then OutOfCapacity else IdOverflow)
        && pos == old(pos) && Extent() == old(Extent())
        && boxes[..] == old(boxes[..]) && ids[..] == old(ids[..])
      ensures r.Ok? ==>
        var k := old(Count());
        && r.value == k
        && pos == old(pos) + 4
        && boxes[..] == old(boxes[..])[..4 * k] + [minX, minY, maxX, maxY] + old(boxes[..])[4 * k + 4..]
        && ids[..] == old(ids[..])[k := k]
        && Extent() == Union(old(Extent()), Box(minX, minY, maxX, maxY))
    {
      var index: nat := pos / 4;
      if index >= numNodes {
        return Err(OutOfCapacity);
      }
      if index > IdMax(IdWidth(numNodes)) {
        return Err(IdOverflow);
      }
      ghost var boxes0 := boxes[..];
      Append(Box(minX, minY, maxX, maxY));
      Splice(boxes0, boxes[..], old(pos), Box(minX, minY, maxX, maxY));
      r := Ok(index);
    }

    /** The successful path of `add`: node `Count()` receives the box and its own number. */
    method Append(box: Box)
      requires Valid() && Count() < numNodes && Count() <= IdMax(IdWidth(numNodes))
      modifies this`pos, this`minX, this`minY, this`maxX, this`maxY, boxes, ids
      ensures Valid()
      ensures pos == old(pos) + 4
      ensures boxes[old(pos)] == box.minX && boxes[old(pos) + 1] == box.minY
      ensures boxes[old(pos) + 2] == box.maxX && boxes[old(pos) + 3] == box.maxY
      ensures forall c :: 0 <= c < boxes.Length && !(old(pos) <= c < pos) ==> boxes[c] == old(boxes[c])
      ensures ids[..] == old(ids[..])[old(Count()) := old(Count())]
      ensures Extent() == Union(old(Extent()), box)
    {
      var index: nat := pos / 4;
      ghost var boxes0 := boxes[..];
      Quarter(pos);
      ids[index] := index;
      PushBox(box);
      WidenExtent(box);
      assert pos == 4 * (index + 1);
      QuarterOf(index + 1);
      AppendStep(boxes0, boxes[..], old(ids[..]), ids[..], index, box);
    }

    /**
     The inner loop of the synthesis: the aggregate of the group of up to
     `nodeSize` consecutive nodes starting at slot `start`, cut at the level end
     `end`; `next` is the slot after the group.
     */
    method GroupBox(ghost lo: nat, ghost e: nat, start: nat, end: nat) returns (box: Box, next: nat)
      requires nodeSize >= MinNodeSize
      requires start == 4 * lo && end == 4 * e && lo < e && end <= boxes.Length
      ensures next == 4 * (if lo + nodeSize < e then lo + nodeSize else e)
      ensures box == Aggregate(boxes[..], lo, if lo + nodeSize < e then lo + nodeSize else e)
    {
      ghost var b := boxes[..];
      var pos := start;
      var nodeMinX := boxes[pos];
      var nodeMinY := boxes[pos + 1];
      var nodeMaxX := boxes[pos + 2];
      var nodeMaxY := boxes[pos + 3];
      pos := pos + 4;
      ghost var taken := 1;
      for k := 1 to nodeSize
        invariant taken == k && pos == 4 * (lo + taken) && lo + taken <= e
        invariant Box(nodeMinX, nodeMinY, nodeMaxX, nodeMaxY) == Aggregate(b, lo, lo + taken)
      {
        if pos >= end {
          break;
        }
        assert NodeBox(b, lo + taken) == Box(boxes[pos], boxes[pos + 1], boxes[pos + 2], boxes[pos + 3]);
        nodeMinX := Min(nodeMinX, boxes[pos]);
        nodeMinY := Min(nodeMinY, boxes[pos + 1]);
        nodeMaxX := Max(nodeMaxX, boxes[pos + 2]);
        nodeMaxY := Max(nodeMaxY, boxes[pos + 3]);
        pos := pos + 4;
        taken := taken + 1;
      }
      box := Box(nodeMinX, nodeMinY, nodeMaxX, nodeMaxY);
      next := pos;
    }

    /** What the reorder strategy is told: the configuration and the extent. */
    function Params(): SortParams
      reads this
    {
      SortParams(numItems, nodeSize, minX, minY, maxX, maxY)
    }

    /**
     Applies the order chosen by the reorder strategy to the leaves: new leaf
     `k` gets the box and the identifier of old leaf `order[k]`; the rest of the
     buffer is untouched.
     */
    method Reorder(order: seq<nat>)
      requires IsPermutation(order, numItems)
      requires 4 * numItems <= boxes.Length && numItems <= ids.Length
      modifies boxes, ids
      ensures forall k :: 0 <= k < numItems ==>
        NodeBox(boxes[..], k) == NodeBox(old(boxes[..]), order[k]) && ids[k] == old(ids[order[k]])
      ensures boxes[4 * numItems..] == old(boxes[4 * numItems..])
      ensures ids[numItems..] == old(ids[numItems..])
    {
      var leafBoxes := boxes[..4 * numItems];
      var leafIds := ids[..numItems];
      ghost var boxes0 := boxes[..];
      ghost var ids0 := ids[..];
      for k := 0 to numItems
        invariant ReorderedUpTo(boxes[..], ids[..], boxes0, ids0, leafBoxes, leafIds, order, numItems, k)
      {
        ghost var before := boxes[..];
        ghost var idsBefore := ids[..];
        var from := order[k];
        PlaceLeaf(k, NodeBox(leafBoxes, from), leafIds[from]);
        ReorderStep(before, boxes[..], idsBefore, ids[..], boxes0, ids0, leafBoxes, leafIds, order, numItems, k);
      }
      forall k | 0 <= k < numItems
        ensures NodeBox(leafBoxes, order[k]) == NodeBox(boxes0, order[k])
      {
        NodeBoxFrame(leafBoxes, boxes0, order[k], numItems);
      }
      assert boxes[4 * numItems..] == boxes0[4 * numItems..];
      assert ids[numItems..] == ids0[numItems..];
    }

    /** Writes one reordered leaf: its box at node `k` and its identifier. */
    method PlaceLeaf(k: nat, box: Box, id: nat)
      requires 4 * k + 4 <= boxes.Length && k < ids.Length
      modifies boxes, ids
      ensures NodeBox(boxes[..], k) == box && ids[k] == id
      ensures forall c :: 0 <= c < boxes.Length && !(4 * k <= c < 4 * k + 4) ==> boxes[c] == old(boxes[c])
      ensures forall c :: 0 <= c < ids.Length && c != k ==> ids[c] == old(ids[c])
    {
      ids[k] := id;
      boxes[4 * k] := box.minX;
      boxes[4 * k + 1] := box.minY;
      boxes[4 * k + 2] := box.maxX;
      boxes[4 * k + 3] := box.maxY;
    }

    /**
     One level of the bottom-up synthesis (the `while pos < *end` loop): the
     nodes of level `i`, from slot `start` to slot `end`, are cut into groups of
     up to `nodeSize` and each group's parent is appended at the write cursor.
     `ok` is false when a parent's identifier does not fit the identifier width.
     */
    method BuildLevel(ghost i: nat, start: nat, end: nat) returns (next: nat, ok: bool)
      requires Sized() && numItems > nodeSize
      requires i + 1 < |levelBounds| && end == levelBounds[i] && end <= boxes.Length
      requires start == 4 * LevelStart(LevelEnds(numItems, nodeSize), i)
      requires pos == end
      requires LevelsBuilt(boxes[..], ids[..], numItems, nodeSize, i)
      requires IdsFit(ids[..], numNodes)
      modifies this`pos, boxes, ids
      ensures ok ==> next == end && pos == levelBounds[i + 1]
      ensures ok ==> LevelsBuilt(boxes[..], ids[..], numItems, nodeSize, i + 1) && IdsFit(ids[..], numNodes)
      ensures !ok ==> IdMax(IdWidth(numNodes)) < 4 * numNodes
      ensures SamePrefix(boxes[..], old(boxes[..]), end) && SamePrefix(ids[..], old(ids[..]), end / 4)
    {
      ghost var ends := LevelEnds(numItems, nodeSize);
      ghost var s := LevelStart(ends, i);
      ghost var e := ends[i];
      assert ChainStep(ends, i + 1, nodeSize);
      ghost var p := ends[i + 1] - e;
      if i > 0 {
        LevelEndsAscend(numItems, nodeSize, i - 1, i);
      }
      LevelEndBelowNodeCount(numItems, nodeSize, i + 1);
      ghost var boxes0 := boxes[..];
      ghost var ids0 := ids[..];
      next := start;
      ghost var j := 0;
      while next < end
        invariant j <= p && pos == 4 * (e + j)
        invariant j < p ==> next == 4 * GroupLo(s, j, nodeSize) && next < end
        invariant j == p ==> next == end
        invariant SamePrefix(boxes[..], boxes0, 4 * e) && SamePrefix(ids[..], ids0, e)
        invariant LevelsBuilt(boxes[..], ids[..], numItems, nodeSize, i)
        invariant LevelParents(boxes[..], ids[..], nodeSize, s, e, j)
        invariant IdsFit(ids[..], numNodes)
        decreases p - j
      {
        var parentFits;
        next, parentFits := BuildParent(i, j, next, end);
        if !parentFits {
          return next, false;
        }
        j := j + 1;
      }
      ok := true;
    }

    /**
     One pass of the synthesis loop: the parent of the group starting at slot
     `start` gets the group's box and, as identifier, the slot offset `start`
     of its first child. `ok` is false, with nothing written, when that offset
     does not fit the identifier width.
     */
    method BuildParent(ghost i: nat, ghost j: nat, start: nat, end: nat) returns (next: nat, ok: bool)
      requires Sized() && numItems > nodeSize
      requires i + 1 < |LevelEnds(numItems, nodeSize)|
      requires var ends := LevelEnds(numItems, nodeSize);
        && LevelStart(ends, i) < ends[i]
        && ends[i] + j < ends[i + 1] <= numNodes
        && ends[i + 1] - ends[i] == ParentCount(ends[i] - LevelStart(ends, i), nodeSize)
        && end == 4 * ends[i]
        && pos == 4 * (ends[i] + j)
        && start == 4 * GroupLo(LevelStart(ends, i), j, nodeSize)
        && LevelsBuilt(boxes[..], ids[..], numItems, nodeSize, i)
        && LevelParents(boxes[..], ids[..], nodeSize, LevelStart(ends, i), ends[i], j)
      requires IdsFit(ids[..], numNodes)
      modifies this`pos, boxes, ids
      ensures var ends := LevelEnds(numItems, nodeSize);
        var s := LevelStart(ends, i);
        var p := ParentCount(ends[i] - s, nodeSize);
        && (j + 1 < p ==> next == 4 * GroupLo(s, j + 1, nodeSize) && next < end)
        && (j + 1 == p ==> next == end)
      ensures !ok ==> IdMax(IdWidth(numNodes)) < start && start < 4 * numNodes
      ensures !ok ==> pos == old(pos) && boxes[..] == old(boxes[..]) && ids[..] == old(ids[..])
      ensures ok ==> pos == old(pos) + 4
      ensures ok ==> SamePrefix(boxes[..], old(boxes[..]), old(pos)) && SamePrefix(ids[..], old(ids[..]), old(pos) / 4)
      ensures ok ==> var ends := LevelEnds(numItems, nodeSize);
        && LevelsBuilt(boxes[..], ids[..], numItems, nodeSize, i)
        && LevelParents(boxes[..], ids[..], nodeSize, LevelStart(ends, i), ends[i], j + 1)
        && IdsFit(ids[..], numNodes)
    {
      ghost var ends := LevelEnds(numItems, nodeSize);
      ghost var s := LevelStart(ends, i);
      ghost var e := ends[i];
      GroupAt(s, e, nodeSize, j);
      var nodeIndex := start;
      var box;
      box, next := GroupBox(GroupLo(s, j, nodeSize), e, start, end);
      GroupCursor(s, e, nodeSize, j, next);
      ok := nodeIndex <= IdMax(IdWidth(numNodes));
      if ok {
        WriteParent(i, j, nodeIndex, box);
      }
    }

    /**
     The write that ends each pass of the synthesis loop: the parent takes the
     slot offset of its first child as identifier and the group's box.
     */
    method WriteParent(ghost i: nat, ghost j: nat, nodeIndex: nat, box: Box)
      requires Sized() && numItems > nodeSize
      requires i + 1 < |LevelEnds(numItems, nodeSize)|
      requires var ends := LevelEnds(numItems, nodeSize);
        var s := LevelStart(ends, i);
        var e := ends[i];
        && s < e && j < ParentCount(e - s, nodeSize) && e + j < numNodes
        && pos == 4 * (e + j)
        && nodeIndex == 4 * GroupLo(s, j, nodeSize)
        && GroupLo(s, j, nodeSize) < GroupHi(s, e, j, nodeSize) <= e
        && box == Aggregate(boxes[..], GroupLo(s, j, nodeSize), GroupHi(s, e, j, nodeSize))
        && LevelsBuilt(boxes[..], ids[..], numItems, nodeSize, i)
        && LevelParents(boxes[..], ids[..], nodeSize, s, e, j)
      requires nodeIndex <= IdMax(IdWidth(numNodes)) && IdsFit(ids[..], numNodes)
      modifies this`pos, boxes, ids
      ensures pos == old(pos) + 4
      ensures SamePrefix(boxes[..], old(boxes[..]), old(pos)) && SamePrefix(ids[..], old(ids[..]), old(pos) / 4)
      ensures var ends := LevelEnds(numItems, nodeSize);
        && LevelsBuilt(boxes[..], ids[..], numItems, nodeSize, i)
        && LevelParents(boxes[..], ids[..], nodeSize, LevelStart(ends, i), ends[i], j + 1)
        && IdsFit(ids[..], numNodes)
    {
      ghost var boxes0 := boxes[..];
      ghost var ids0 := ids[..];
      var at: nat := pos / 4;
      ids[at] := nodeIndex;
      PushBox(box);
      ParentStep(boxes0, ids0, boxes[..], ids[..], numItems, nodeSize, i, j, box);
    }

    /**
     The state a successful `finish` leaves: every node written, the leaves'
     identifiers a permutation of the items and every internal level in place
     (an empty index holds the empty extent as its root).
     */
    ghost predicate Complete()
      reads this, boxes, ids
    {
      && Sized()
      && pos == 4 * numNodes
      && IsPermutation(ids[..numItems], numItems)
      && IdsFit(ids[..], numNodes)
      && (numItems == 0 ==> NodeBox(boxes[..], 0) == EmptyBox)
      && (numItems > 0 ==> LevelsBuilt(boxes[..], ids[..], numItems, nodeSize, |LevelEnds(numItems, nodeSize)| - 1))
    }

    /** The finished index these arrays stand for. */
    function Snapshot(): Flatbush
      reads this, header, boxes, ids
    {
      Flatbush(header[..], boxes[..], ids[..], nodeSize, numItems, numNodes, levelBounds)
    }

    lemma CompleteIsWellFormed()
      requires Shaped() && Complete()
      ensures WellFormed(Snapshot())
    {
      HeaderRoundTrip(version, nodeSize, numItems);
    }

    /**
     `finish`: checks that exactly `numItems` boxes were added; with at most
     `nodeSize` items it only appends the extent as the root, otherwise it lets
     the reorder strategy permute the leaves and synthesizes every internal
     level bottom-up. The builder is consumed either way.
     */
    method Finish(sort: (SortParams, seq<Coord>) -> seq<nat>) returns (r: Result<Flatbush, BuildError>)
      requires Valid() && IsSortStrategy(sort)
      modifies this, boxes, ids
      ensures finished && Shaped()
      ensures r == Err(CountMismatch) <==> old(Count()) != numItems
      ensures old(Count()) != numItems ==> boxes[..] == old(boxes[..]) && ids[..] == old(ids[..])
      ensures r.Err? ==> r.error == CountMismatch || (r.error == IdOverflow && IdMax(IdWidth(numNodes)) < 4 * numNodes)
      ensures numNodes < NarrowNodeLimit ==> (r.Ok? <==> old(Count()) == numItems)
      ensures r.Ok? ==> r.value == Snapshot() && WellFormed(r.value) && pos == 4 * numNodes
      ensures r.Ok? && numItems <= nodeSize ==>
        && boxes[..4 * numItems] == old(boxes[..4 * numItems])
        && ids[..] == old(ids[..])
        && NodeBox(boxes[..], numItems) == old(Extent())
      ensures r.Ok? && numItems > nodeSize ==>
        var order := sort(old(Params()), old(boxes[..4 * numItems]));
        forall k :: 0 <= k < numItems ==> NodeBox(boxes[..], k) == NodeBox(old(boxes[..]), order[k]) && ids[k] == order[k]
    {
      if pos / 4 != numItems {
        finished := true;
        return Err(CountMismatch);
      }
      var ok := true;
      if numItems <= nodeSize {
        FinishSmall();
      } else {
        ok := FinishLarge(sort);
      }
      finished := true;
      if !ok {
        if numNodes < NarrowNodeLimit {
          NarrowIdsFit(numNodes);
        }
        return Err(IdOverflow);
      }
      CompleteIsWellFormed();
      r := Ok(Flatbush(header[..], boxes[..], ids[..], nodeSize, numItems, numNodes, levelBounds));
    }

    /** The small-input path of `finish`: the extent becomes the single root at node `numItems`. */
    method FinishSmall()
      requires Valid() && Count() == numItems && numItems <= nodeSize
      modifies this`pos, boxes
      ensures Complete()
      ensures boxes[..4 * numItems] == old(boxes[..4 * numItems])
      ensures NodeBox(boxes[..], numItems) == old(Extent())
    {
      ghost var boxes0 := boxes[..];
      NumNodesShape(numItems, nodeSize);
      PushBox(Extent());
      SmallTreeBuilt(boxes0, boxes[..], ids[..], numItems, nodeSize, old(Extent()));
    }

    /**
     The large-input path of `finish`: the leaves are laid out in the order the
     strategy chose, then the internal levels are synthesized. `ok` is false
     when a parent's identifier does not fit the identifier width.
     */
    method FinishLarge(sort: (SortParams, seq<Coord>) -> seq<nat>) returns (ok: bool)
      requires Valid() && Count() == numItems && numItems > nodeSize && IsSortStrategy(sort)
      modifies this`pos, boxes, ids
      ensures ok ==> Complete()
      ensures !ok ==> IdMax(IdWidth(numNodes)) < 4 * numNodes
      ensures ok ==>
        var order := sort(old(Params()), old(boxes[..4 * numItems]));
        forall k :: 0 <= k < numItems ==> NodeBox(boxes[..], k) == NodeBox(old(boxes[..]), order[k]) && ids[k] == order[k]
    {
      var order := sort(Params(), boxes[..4 * numItems]);
      SortLeaves(order);
      ghost var sortedBoxes := boxes[..];
      ghost var sortedIds := ids[..];
      ok := BuildLevels();
      if ok {
        LeavesKept(sortedBoxes, boxes[..], sortedIds, ids[..], numItems);
      }
    }

    /** The reorder step with the leaf identifiers still equal to the insertion numbers. */
    method SortLeaves(order: seq<nat>)
      requires Valid() && Count() == numItems && IsPermutation(order, numItems)
      modifies boxes, ids
      ensures forall k :: 0 <= k < numItems ==> NodeBox(boxes[..], k) == NodeBox(old(boxes[..]), order[k]) && ids[k] == order[k]
      ensures ids[..numItems] == order && IdsFit(ids[..], numNodes)
    {
      Reorder(order);
      assert forall k :: 0 <= k < numItems ==> ids[k] == order[k];
    }

    /**
     The level loop of the synthesis (`for end in level_bounds`): every level but
     the root's gets its parents, the write cursor running on across levels.
     */
    method BuildLevels() returns (ok: bool)
      requires Sized() && numItems > nodeSize
      requires pos == 4 * numItems && IdsFit(ids[..], numNodes) && IsPermutation(ids[..numItems], numItems)
      modifies this`pos, boxes, ids
      ensures ok ==> Complete()
      ensures !ok ==> IdMax(IdWidth(numNodes)) < 4 * numNodes
      ensures SamePrefix(boxes[..], old(boxes[..]), 4 * numItems) && SamePrefix(ids[..], old(ids[..]), numItems)
    {
      ghost var ends := LevelEnds(numItems, nodeSize);
      ghost var boxes0 := boxes[..];
      ghost var ids0 := ids[..];
      var next := 0;
      for i := 0 to |levelBounds| - 1
        invariant next == 4 * LevelStart(ends, i) && pos == levelBounds[i]
        invariant LevelsBuilt(boxes[..], ids[..], numItems, nodeSize, i)
        invariant IdsFit(ids[..], numNodes)
        invariant SamePrefix(boxes[..], boxes0, 4 * numItems) && SamePrefix(ids[..], ids0, numItems)
      {
        var end := levelBounds[i];
        if i > 0 {
          LevelEndsAscend(numItems, nodeSize, 0, i);
        }
        LevelEndBelowNodeCount(numItems, nodeSize, i);
        next, ok := BuildLevel(i, next, end);
        if !ok {
          return false;
        }
      }
      assert ids[..numItems] == ids0[..numItems];
      ok := true;
    }
  }

  /** The header bytes as the constructor writes them into a zeroed buffer. */
  method WriteHeader(version: nat, nodeSize: nat, numItems: nat) returns (h: array<byte>)
    requires version < 16 && ValidConfig(numItems, nodeSize)
    ensures fresh(h) && h[..] == EncodeHeader(version, nodeSize, numItems)
  {
    h := new byte[HeaderBytes](_ => 0);
    h[0] := Magic;
    h[1] := (version * 16 + ArrayTypeIndex) as byte;
    var nodeSizeBytes := LittleEndian(nodeSize, 2);
    h[2], h[3] := nodeSizeBytes[0], nodeSizeBytes[1];
    var numItemsBytes := LittleEndian(numItems, 4);
    h[4], h[5], h[6], h[7] := numItemsBytes[0], numItemsBytes[1], numItemsBytes[2], numItemsBytes[3];
    ghost var expected := EncodeHeader(version, nodeSize, numItems);
    assert expected[2..4] == nodeSizeBytes && expected[4..8] == numItemsBytes;
    forall c | 0 <= c < 8
      ensures h[c] == expected[c]
    {
      if 2 <= c < 4 {
        assert expected[c] == expected[2..4][c - 2];
      } else if 4 <= c {
        assert expected[c] == expected[4..8][c - 4];
      }
    }
  }

  /** `new_with_node_size`: the two assertions become the InvalidConfig error. */
  method NewWithNodeSize(numItems: nat, nodeSize: nat, version: nat) returns (r: Result<FlatbushBuilder, BuildError>)
    requires version < 16
    ensures r.Ok? <==> ValidConfig(numItems, nodeSize)
    ensures r.Err? ==> r.error == InvalidConfig
    ensures r.Ok? ==>
      && fresh(r.value) && r.value.Valid()
      && r.value.numItems == numItems && r.value.nodeSize == nodeSize
      && r.value.numNodes == NumNodes(numItems, nodeSize)
      && r.value.version == version
      && r.value.header[..] == EncodeHeader(version, nodeSize, numItems)
      && r.value.Count() == 0 && r.value.Extent() == EmptyBox
      && fresh(r.value.header) && fresh(r.value.boxes) && fresh(r.value.ids)
  {
    if !(MinNodeSize <= nodeSize <= MaxNodeSize) || numItems > MaxItems {
      return Err(InvalidConfig);
    }
    var b := new FlatbushBuilder(numItems, nodeSize, version);
    r := Ok(b);
  }

  /** `new`: the default node size of 16. */
  method New(numItems: nat, version: nat) returns (r: Result<FlatbushBuilder, BuildError>)
    requires version < 16
    ensures r.Ok? <==> numItems <= MaxItems
    ensures r.Err? ==> r.error == InvalidConfig
    ensures r.Ok? ==>
      && fresh(r.value) && r.value.Valid()
      && r.value.numItems == numItems && r.value.nodeSize == DefaultNodeSize
      && r.value.numNodes == NumNodes(numItems, DefaultNodeSize)
      && r.value.version == version
      && r.value.header[..] == EncodeHeader(version, DefaultNodeSize, numItems)
      && r.value.Count() == 0 && r.value.Extent() == EmptyBox
      && fresh(r.value.header) && fresh(r.value.boxes) && fresh(r.value.ids)
  {
    r := NewWithNodeSize(numItems, DefaultNodeSize, version);
  }

  /** Every level ends at or below the node count. */
  lemma LevelEndBelowNodeCount(numItems: nat, nodeSize: nat, i: nat)
    requires nodeSize >= MinNodeSize && i < |LevelEnds(numItems, nodeSize)|
    ensures LevelEnds(numItems, nodeSize)[i] <= NumNodes(numItems, nodeSize)
  {
    var ends := LevelEnds(numItems, nodeSize);
    if i < |ends| - 1 {
      LevelEndsAscend(numItems, nodeSize, i, |ends| - 1);
    }
  }

  /** Parents in place stay in place when nothing below node `m` changes. */
  lemma LevelParentsFrame(b: seq<Coord>, ids: seq<nat>, b2: seq<Coord>, ids2: seq<nat>,
                          nodeSize: nat, s: nat, e: nat, count: nat, m: nat)
    requires LevelParents(b, ids, nodeSize, s, e, count)
    requires e + count <= m && 4 * m <= |b| && 4 * m <= |b2| && m <= |ids| && m <= |ids2|
    requires SamePrefix(b, b2, 4 * m) && SamePrefix(ids, ids2, m)
    ensures LevelParents(b2, ids2, nodeSize, s, e, count)
  {
    forall j | 0 <= j < count
      ensures GroupParent(b2, ids2, nodeSize, s, e, j)
    {
      assert GroupParent(b, ids, nodeSize, s, e, j);
      var lo, hi := GroupLo(s, j, nodeSize), GroupHi(s, e, j, nodeSize);
      NodeBoxFrame(b, b2, e + j, m);
      AggregateFrame(b, b2, lo, hi);
    }
  }

  /**
   The synthesis cursor in slots: after the group `j`, it stands at the slot of the next group's first child, or at the
   level end after the last group.
   */
  lemma GroupCursor(s: nat, e: nat, nodeSize: nat, j: nat, next: nat)
    requires nodeSize >= MinNodeSize && s < e && j < ParentCount(e - s, nodeSize)
    requires next == 4 * GroupHi(s, e, j, nodeSize)
    ensures j + 1 < ParentCount(e - s, nodeSize) ==> next == 4 * GroupLo(s, j + 1, nodeSize) && next < 4 * e
    ensures j + 1 == ParentCount(e - s, nodeSize) ==> next == 4 * e
  {
    GroupAt(s, e, nodeSize, j);
    if j + 1 < ParentCount(e - s, nodeSize) {
      GroupAt(s, e, nodeSize, j + 1);
    }
  }

  /** Writing parent `j` of level `i` extends the tree built so far by that parent. */
  lemma ParentStep(b0: seq<Coord>, ids0: seq<nat>, b1: seq<Coord>, ids1: seq<nat>,
                   numItems: nat, nodeSize: nat, i: nat, j: nat, box: Box)
    requires nodeSize >= MinNodeSize && i + 1 < |LevelEnds(numItems, nodeSize)|
    requires var ends := LevelEnds(numItems, nodeSize);
      var s := LevelStart(ends, i);
      var e := ends[i];
      && s < e && j < ParentCount(e - s, nodeSize)
      && 4 * (e + j) + 4 <= |b0| == |b1| && e + j < |ids0| == |ids1|
      && SamePrefix(b0, b1, 4 * (e + j)) && SamePrefix(ids0, ids1, e + j)
      && NodeBox(b1, e + j) == box && ids1[e + j] == 4 * GroupLo(s, j, nodeSize)
      && GroupLo(s, j, nodeSize) < GroupHi(s, e, j, nodeSize) <= e
      && box == Aggregate(b0, GroupLo(s, j, nodeSize), GroupHi(s, e, j, nodeSize))
      && LevelsBuilt(b0, ids0, numItems, nodeSize, i)
      && LevelParents(b0, ids0, nodeSize, s, e, j)
    ensures var ends := LevelEnds(numItems, nodeSize);
      && LevelsBuilt(b1, ids1, numItems, nodeSize, i)
      && LevelParents(b1, ids1, nodeSize, LevelStart(ends, i), ends[i], j + 1)
  {
    var ends := LevelEnds(numItems, nodeSize);
    var s := LevelStart(ends, i);
    var e := ends[i];
    GroupAt(s, e, nodeSize, j);
    LevelsBuiltFrame(b0, ids0, b1, ids1, numItems, nodeSize, i, e + j);
    LevelParentsFrame(b0, ids0, b1, ids1, nodeSize, s, e, j, e + j);
    AggregateFrame(b0, b1, GroupLo(s, j, nodeSize), GroupHi(s, e, j, nodeSize));
    assert GroupParent(b1, ids1, nodeSize, s, e, j);
  }

  /** Levels built stay built when nothing below node `m` changes. */
  lemma LevelsBuiltFrame(b: seq<Coord>, ids: seq<nat>, b2: seq<Coord>, ids2: seq<nat>,
                         numItems: nat, nodeSize: nat, upTo: nat, m: nat)
    requires nodeSize >= MinNodeSize && upTo < |LevelEnds(numItems, nodeSize)|
    requires LevelsBuilt(b, ids, numItems, nodeSize, upTo)
    requires LevelEnds(numItems, nodeSize)[upTo] <= m
    requires 4 * m <= |b| && 4 * m <= |b2| && m <= |ids| && m <= |ids2|
    requires SamePrefix(b, b2, 4 * m) && SamePrefix(ids, ids2, m)
    ensures LevelsBuilt(b2, ids2, numItems, nodeSize, upTo)
  {
    var ends := LevelEnds(numItems, nodeSize);
    forall i | 0 <= i < upTo
      ensures LevelBuilt(b2, ids2, numItems, nodeSize, i)
    {
      assert LevelBuilt(b, ids, numItems, nodeSize, i);
      if i + 1 < upTo {
        LevelEndsAscend(numItems, nodeSize, i + 1, upTo);
      }
      LevelParentsFrame(b, ids, b2, ids2, nodeSize, LevelStart(ends, i), ends[i], ends[i + 1] - ends[i], m);
    }
  }

  /**
   With at most `nodeSize` items, writing the extent after the leaves completes
   the tree: the leaves keep their boxes and their insertion numbers, and the
   root is the one parent of all of them.
   */
  lemma SmallTreeBuilt(b0: seq<Coord>, b: seq<Coord>, ids: seq<nat>, numItems: nat, nodeSize: nat, extent: Box)
    requires MinNodeSize <= nodeSize && numItems <= nodeSize
    requires |b0| == |b| == 4 * (numItems + 1) && |ids| == numItems + 1 && InsertionIds(ids, numItems)
    requires extent == ExtentOf(b0, numItems)
    requires b[4 * numItems] == extent.minX && b[4 * numItems + 1] == extent.minY
    requires b[4 * numItems + 2] == extent.maxX && b[4 * numItems + 3] == extent.maxY
    requires forall c :: 0 <= c < 4 * numItems ==> b[c] == b0[c]
    ensures b[..4 * numItems] == b0[..4 * numItems] && NodeBox(b, numItems) == extent
    ensures IsPermutation(ids[..numItems], numItems)
    ensures numItems == 0 ==> NodeBox(b, 0) == EmptyBox
    ensures numItems > 0 ==> LevelsBuilt(b, ids, numItems, nodeSize, |LevelEnds(numItems, nodeSize)| - 1)
  {
    NumNodesShape(numItems, nodeSize);
    if numItems > 0 {
      ExtentFrame(b, b0, numItems);
      ExtentIsAggregate(b, numItems);
      assert GroupParent(b, ids, nodeSize, 0, numItems, 0);
      assert LevelBuilt(b, ids, numItems, nodeSize, 0);
    }
    assert ids[..numItems] == seq(numItems, k => k);
    IdentityIsPermutation(numItems);
  }

  /**
   In a finished index the root, the last node, covers the box of every node:
   leaves and internal nodes alike.
   */
  lemma RootCoversEveryNode(f: Flatbush)
    requires WellFormed(f)
    ensures forall q :: 0 <= q < f.numNodes ==> Contains(NodeBox(f.boxes, f.numNodes - 1), NodeBox(f.boxes, q))
  {
    forall q | 0 <= q < f.numNodes
      ensures Contains(NodeBox(f.boxes, f.numNodes - 1), NodeBox(f.boxes, q))
    {
      if f.numItems == 0 {
        NumNodesShape(f.numItems, f.nodeSize);
        ContainsReflexive(NodeBox(f.boxes, q));
      } else {
        var i := LevelOf(f.numItems, f.nodeSize, q, 0);
        CoveredByRoot(f.boxes, f.ids, f.numItems, f.nodeSize, i, q);
      }
    }
  }

  /** A node of level `i` is covered by the root, through its chain of parents. */
  lemma {:induction false} CoveredByRoot(b: seq<Coord>, ids: seq<nat>, numItems: nat, nodeSize: nat, i: nat, q: nat)
    requires MinNodeSize <= nodeSize && numItems > 0
    requires i < |LevelEnds(numItems, nodeSize)|
    requires LevelStart(LevelEnds(numItems, nodeSize), i) <= q < LevelEnds(numItems, nodeSize)[i]
    requires q < NumNodes(numItems, nodeSize) && 4 * NumNodes(numItems, nodeSize) <= |b|
    requires LevelsBuilt(b, ids, numItems, nodeSize, |LevelEnds(numItems, nodeSize)| - 1)
    ensures Contains(NodeBox(b, NumNodes(numItems, nodeSize) - 1), NodeBox(b, q))
    decreases |LevelEnds(numItems, nodeSize)| - i
  {
    var ends := LevelEnds(numItems, nodeSize);
    if i == |ends| - 1 {
      ContainsReflexive(NodeBox(b, q));
    } else {
      var s := LevelStart(ends, i);
      var e := ends[i];
      assert ChainStep(ends, i + 1, nodeSize);
      var j := GroupOf(s, e, nodeSize, q);
      LevelEndBelowNodeCount(numItems, nodeSize, i + 1);
      assert LevelBuilt(b, ids, numItems, nodeSize, i);
      assert GroupParent(b, ids, nodeSize, s, e, j);
      AggregateCovers(b, GroupLo(s, j, nodeSize), GroupHi(s, e, j, nodeSize));
      CoveredByRoot(b, ids, numItems, nodeSize, i + 1, e + j);
      ContainsTransitive(NodeBox(b, NumNodes(numItems, nodeSize) - 1), NodeBox(b, e + j), NodeBox(b, q));
    }
  }

  /** Leaves untouched by the synthesis keep their boxes and identifiers. */
  lemma LeavesKept(b: seq<Coord>, b2: seq<Coord>, ids: seq<nat>, ids2: seq<nat>, n: nat)
    requires SamePrefix(b2, b, 4 * n) && SamePrefix(ids2, ids, n)
    ensures forall k :: 0 <= k < n ==> NodeBox(b2, k) == NodeBox(b, k) && ids2[k] == ids[k]
  {
    forall k | 0 <= k < n
      ensures NodeBox(b2, k) == NodeBox(b, k)
    {
      NodeBoxFrame(b2, b, k, n);
    }
  }

  /**
   The reorder loop after `k` leaves: new leaf `k'` holds old leaf `order[k']`,
   and nothing past the leaves has changed.
   */
  ghost predicate ReorderedUpTo(b: seq<Coord>, ids: seq<nat>, b0: seq<Coord>, ids0: seq<nat>,
                                leafBoxes: seq<Coord>, leafIds: seq<nat>, order: seq<nat>, n: nat, k: nat)
  {
    && k <= n && |b| == |b0| && |ids| == |ids0| && 4 * n <= |b| && n <= |ids|
    && IsPermutation(order, n) && |leafBoxes| == 4 * n && |leafIds| == n
    && (forall k' :: 0 <= k' < k ==> NodeBox(b, k') == NodeBox(leafBoxes, order[k']))
    && (forall k' :: 0 <= k' < k ==> ids[k'] == leafIds[order[k']])
    && (forall c :: 4 * n <= c < |b| ==> b[c] == b0[c])
    && (forall c :: n <= c < |ids| ==> ids[c] == ids0[c])
  }

  /** Placing leaf `k` extends the reordered prefix by one. */
  lemma ReorderStep(b: seq<Coord>, b2: seq<Coord>, ids: seq<nat>, ids2: seq<nat>, b0: seq<Coord>, ids0: seq<nat>,
                    leafBoxes: seq<Coord>, leafIds: seq<nat>, order: seq<nat>, n: nat, k: nat)
    requires ReorderedUpTo(b, ids, b0, ids0, leafBoxes, leafIds, order, n, k) && k < n
    requires |b2| == |b| && |ids2| == |ids|
    requires NodeBox(b2, k) == NodeBox(leafBoxes, order[k]) && ids2[k] == leafIds[order[k]]
    requires forall c :: 0 <= c < |b| && !(4 * k <= c < 4 * k + 4) ==> b2[c] == b[c]
    requires forall c :: 0 <= c < |ids| && c != k ==> ids2[c] == ids[c]
    ensures ReorderedUpTo(b2, ids2, b0, ids0, leafBoxes, leafIds, order, n, k + 1)
  {
    forall k' | 0 <= k' < k
      ensures NodeBox(b2, k') == NodeBox(b, k')
    {
      assert b2[4 * k'] == b[4 * k'];
    }
  }

  /** A slot offset that is a multiple of four is four times its node number. */
  lemma Quarter(p: nat)
    requires p % 4 == 0
    ensures p == 4 * (p / 4)
  {
  }

  lemma QuarterOf(k: nat)
    ensures (4 * k) / 4 == k && (4 * k) % 4 == 0
  {
  }

  /** Four slot writes at `at`, and nothing else, splice the box into the array. */
  lemma Splice(b: seq<Coord>, b2: seq<Coord>, at: nat, box: Box)
    requires at + 4 <= |b| == |b2|
    requires b2[at] == box.minX && b2[at + 1] == box.minY && b2[at + 2] == box.maxX && b2[at + 3] == box.maxY
    requires forall c :: 0 <= c < |b| && !(at <= c < at + 4) ==> b2[c] == b[c]
    ensures b2 == b[..at] + [box.minX, box.minY, box.maxX, box.maxY] + b[at + 4..]
  {
  }

  lemma IdentityIsPermutation(n: nat)
    ensures IsPermutation(seq(n, k => k), n)
  {
    var id := seq(n, k => k);
    forall i | 0 <= i < n
      ensures i in id
    {
      assert id[i] == i;
    }
  }
}
