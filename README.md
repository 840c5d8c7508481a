# Flatbush builder, modelled and verified in Dafny

This project models `FlatbushBuilder`, the builder of flatbush-rs's packed
static R-tree. The builder sizes one buffer for a declared number of items.
The buffer holds an 8-byte header, a box array of four coordinates per node and
an identifier array of 2- or 4-byte identifiers. `add` receives the item boxes
one by one. `finish` does one of two things:

- with at most `node_size` items, it appends a single root box equal to the
  running extent;
- otherwise it lets the reorder strategy permute the leaves, then builds the
  internal levels bottom-up in groups of up to `node_size` nodes. Each parent
  gets the min/max of its children and, as identifier, the slot offset of its
  first child.

Files:

- `geometry.dfy` has coordinates with the two infinities the extent starts
  from, boxes, union, the aggregate of a run of nodes and the running extent.
- `layout.dfy` has the accepted configurations, the level structure
  (`compute_num_nodes`), the grouping of a level into parents, the identifier
  width, the buffer length and `split_data_borrow`.
- `header.dfy` has the 8 header bytes and their little-endian fields.
- `builder.dfy` has the `FlatbushBuilder` class with arrays for the three parts
  of the buffer, the finished index as a value (`Flatbush`) and the tree
  invariants.

Panics of the source (failed assertions, writes past the buffer, an identifier
too wide for its slot) become `Err` results. `finish` consumes the builder; the
model records this in the `finished` flag.

Byte 1 of the header is `(VERSION << 4) + 8`, where 8 is `ARRAY_TYPE_INDEX`,
the tag for `f64` coordinates (src/flatbush/builder.rs:11, 56); `EncodeHeader`
writes the same byte.

## Model

| member | source | states |
|---|---|---|
| Builder.New | src/flatbush/builder.rs:36-38 | succeeds exactly when `num_items <= 2^32-1`; a fresh valid builder with node size 16, the tree's node count, the given version in its encoded header, fresh arrays, no insertions and the empty extent |
| Builder.NewWithNodeSize | src/flatbush/builder.rs:40-75 | succeeds exactly when `2 <= node_size <= 65535` and `num_items <= 2^32-1`, otherwise InvalidConfig; a fresh valid builder with the tree's node count, the given version in its encoded header, fresh header, box and identifier arrays, no insertions and the empty extent |
| Builder.FlatbushBuilder.constructor | src/flatbush/builder.rs:44-75 | buffer length `8 + 32*num_nodes + width*num_nodes`; header bytes as encoded; all boxes and identifiers zero; cursor 0; extent (+inf, +inf, -inf, -inf) |
| Builder.WriteHeader | src/flatbush/builder.rs:52-58 | the 8 bytes written into a zeroed buffer are exactly `EncodeHeader` of the version, node size and item count |
| Header.EncodeHeader | src/flatbush/builder.rs:54-58 | the header is 8 bytes: 0xfb, `(VERSION << 4) + 8`, node size as LE u16, item count as LE u32 |
| Header.HeaderRoundTrip | src/flatbush/builder.rs:54-58 | decoding a written header gives back version, node size and item count |
| Header.HeaderOfDecoded | src/flatbush/builder.rs:54-58 | every header that decodes is the encoding of the fields it decodes to |
| Header.HeaderOfThousandItems | src/flatbush/builder.rs:54-58 | the concrete bytes for 1000 items in nodes of 16 |
| Header.LittleEndianRoundTrip | src/flatbush/builder.rs:57-58 | a value below 256^width reads back from its little-endian bytes |
| Header.LittleEndianOfDecoded | src/flatbush/builder.rs:57-58 | every byte string is the little-endian encoding of the value it reads as |
| Layout.IdWidth | src/flatbush/builder.rs:47 | 2 or 4 bytes, and 2 exactly when `num_nodes < 16384` |
| Layout.NarrowIdsFit | src/flatbush/builder.rs:47 | with the narrow width every slot offset `4*q` of a node fits the identifier, so narrow buffers never overflow |
| Layout.BufferLength | src/flatbush/builder.rs:46-51 | the buffer is `8 + 34*num_nodes` bytes below 16384 nodes (2-byte identifiers) and `8 + 36*num_nodes` bytes from 16384 on |
| Layout.SplitData | src/flatbush/builder.rs:215-227 | the split succeeds exactly when header, box region and identifier region fill the buffer; boxes start after the header, identifiers follow the boxes and run to the end |
| Layout.SplitDataOfBuilderBuffer | src/flatbush/builder.rs:215-227 | on the constructor's buffer the split succeeds with `4*num_nodes` coordinates and `num_nodes` identifiers |
| Layout.LevelBounds | src/flatbush/builder.rs:162 | one bound per level, each four times the level's end in nodes (f64 slots); the first is `4*num_items` and the last `4*num_nodes` |
| Layout.LevelBoundsAscend | src/flatbush/builder.rs:162 | the level bounds strictly ascend, so every level the synthesis loop visits is non-empty |
| Layout.GrowChain | src/flatbush/builder.rs:44 | growing the levels keeps the given ones, adds one level of ParentCount nodes per step and ends with a single root |
| Layout.LevelEnds | src/flatbush/builder.rs:44 | level 0 ends at `num_items`, each next level holds ParentCount of the one before, and the chain stops at a single root |
| Layout.NumNodes | src/flatbush/builder.rs:44 | the node count is the end of the root level and exceeds the item count |
| Layout.LevelEndsAscend | src/flatbush/builder.rs:162 | level bounds strictly ascend |
| Layout.NumNodesShape | src/flatbush/builder.rs:44 | more nodes than items; exactly one root level above the leaves iff `num_items <= node_size` |
| Layout.LevelOf | src/flatbush/builder.rs:162 | every node below `num_nodes` lies in some level's range |
| Layout.ParentCount | src/flatbush/builder.rs:163-200 | at least one parent; exactly one iff the level fits one node; fewer parents than nodes once a level has two |
| Layout.ParentCountBounds | src/flatbush/builder.rs:163-200 | `(p-1)*node_size < count <= p*node_size` |
| Layout.ParentCountIsCeilDiv | src/flatbush/builder.rs:163-200 | the number of parents is `ceil(count / node_size)` |
| Layout.GroupLoIsProduct | src/flatbush/builder.rs:163-174 | the `j`-th group starts `j*node_size` nodes after the level start |
| Layout.GroupIndexBelowParentCount | src/flatbush/builder.rs:163 | the `j`-th group starts inside the level iff `j` is below the parent count |
| Layout.GroupsPartitionLevel | src/flatbush/builder.rs:163-188 | the groups split the level into consecutive runs: full runs of `node_size` and a last run of 1..`node_size` ending at the level bound |
| Layout.GroupAt | src/flatbush/builder.rs:163-188 | the same facts for one group |
| Layout.GroupOf | src/flatbush/builder.rs:163-188 | every node of a level lies in one of its groups |
| Geometry.Min | src/flatbush/builder.rs:180-182 | the smaller of the two, below both |
| Geometry.Max | src/flatbush/builder.rs:184-186 | the larger of the two, above both |
| Geometry.Union | src/flatbush/builder.rs:97-108 | covers both boxes |
| Geometry.EmptyBoxIsUnit | src/flatbush/builder.rs:69-72 | the initial extent is covered by every box, and widening it by a box gives that box |
| Geometry.AggregateCovers | src/flatbush/builder.rs:167-188 | a parent box covers each of its children |
| Geometry.AggregateLeast | src/flatbush/builder.rs:167-188 | a parent box lies inside every box that covers all its children |
| Geometry.ExtentCovers | src/flatbush/builder.rs:97-108 | after n insertions the extent covers every inserted box |
| Geometry.ExtentIsAggregate | src/flatbush/builder.rs:129-138 | once a box was inserted, the extent equals the aggregate of the inserted boxes |
| Builder.FlatbushBuilder.PushBox | src/flatbush/builder.rs:88-95 | the four coordinates go to the four slots at the cursor, which advances by 4; no other slot changes |
| Builder.FlatbushBuilder.WidenExtent | src/flatbush/builder.rs:97-108 | the new extent is the union of the old extent and the box |
| Builder.FlatbushBuilder.Add | src/flatbush/builder.rs:78-111 | the k-th call returns k, splices the box into slots `4k..4k+3`, sets identifier k to k, advances the cursor by 4 and widens the extent; it fails, changing nothing, when node k is past the buffer or k does not fit the identifier; the builder stays valid |
| Builder.FlatbushBuilder.Append | src/flatbush/builder.rs:87-108 | the successful path of `add`: same effect, the builder stays valid |
| Builder.AppendStep | src/flatbush/builder.rs:87-108 | one insertion keeps the rest of the buffer zero, the first k+1 identifiers the insertion numbers, and extends the extent by the box |
| Builder.Splice | src/flatbush/builder.rs:88-95 | four writes at the cursor and nothing else splice the box into the box array |
| Builder.FlatbushBuilder.Finish | src/flatbush/builder.rs:113-211 | CountMismatch iff the insertion count differs from `num_items` (nothing written); IdOverflow only when `4*num_nodes` exceeds the identifier width, never with the narrow width; on success a well-formed index, the header unchanged; small input keeps leaves and identifiers and adds the extent at node `num_items`; large input lays the leaves out in the strategy's order |
| Builder.FlatbushBuilder.CompleteIsWellFormed | src/flatbush/builder.rs:204-210 | the arrays after a successful finish form a well-formed index whose header reads back as its configuration |
| Builder.FlatbushBuilder.FinishSmall | src/flatbush/builder.rs:129-146 | leaves untouched, the extent at node `num_items`, the tree complete |
| Builder.SmallTreeBuilt | src/flatbush/builder.rs:129-138 | with at most `node_size` items, writing the extent after the leaves keeps the leaves and their insertion numbers (a permutation) and makes the root the one parent of all leaves |
| Builder.IdentityIsPermutation | src/flatbush/builder.rs:87 | the insertion numbers 0..n-1 are a permutation |
| Builder.FlatbushBuilder.FinishLarge | src/flatbush/builder.rs:149-201 | new leaf k holds old leaf `order[k]` with identifier `order[k]`; the tree complete, or IdOverflow when `4*num_nodes` exceeds the identifier width |
| Builder.FlatbushBuilder.SortLeaves | src/flatbush/builder.rs:149-157 | the sort's order applied to boxes and identifiers alike; leaf identifiers become the order itself and still fit |
| Builder.FlatbushBuilder.Reorder | src/flatbush/builder.rs:157 | new leaf k takes box and identifier of old leaf `order[k]`; nothing past the leaves changes |
| Builder.FlatbushBuilder.PlaceLeaf | src/flatbush/builder.rs:157 | one leaf's box and identifier written, nothing else |
| Builder.ReorderStep | src/flatbush/builder.rs:157 | placing leaf k extends the reordered prefix by one |
| Builder.FlatbushBuilder.BuildLevels | src/flatbush/builder.rs:159-202 | every level gets its parents with the cursor running on across levels; the leaves are not modified; IdOverflow only when `4*num_nodes` exceeds the identifier width |
| Builder.FlatbushBuilder.BuildLevel | src/flatbush/builder.rs:162-201 | all parents of one level are appended in order after the earlier nodes and the scan stops exactly at the level bound |
| Builder.FlatbushBuilder.BuildParent | src/flatbush/builder.rs:163-200 | one parent appended for the group at the scan cursor; the cursor moves to the next group or to the level bound |
| Builder.FlatbushBuilder.GroupBox | src/flatbush/builder.rs:164-188 | the group's box is the aggregate of up to `node_size` nodes from the cursor, cut at the level bound |
| Builder.GroupCursor | src/flatbush/builder.rs:163-188 | after a group the scan cursor is the first child of the next group, or the level bound after the last |
| Builder.FlatbushBuilder.WriteParent | src/flatbush/builder.rs:191-199 | the parent's identifier is the slot offset of its first child and its box the aggregate of its children |
| Builder.ParentStep | src/flatbush/builder.rs:191-199 | writing the next parent keeps every earlier parent and adds this one |
| Builder.LevelParentsFrame | src/flatbush/builder.rs:191-199 | parents in place stay in place while only later nodes are written |
| Builder.LevelsBuiltFrame | src/flatbush/builder.rs:191-199 | completed levels stay complete while only later nodes are written |
| Builder.LevelEndBelowNodeCount | src/flatbush/builder.rs:162 | no level bound lies past the node count |
| Builder.LeavesKept | src/flatbush/builder.rs:159-201 | leaves the synthesis did not write keep their boxes and identifiers |
| Builder.RootCoversEveryNode | src/flatbush/builder.rs:159-201 | in a finished index the root box covers the box of every node |
| Builder.CoveredByRoot | src/flatbush/builder.rs:159-201 | a node of any level is covered by the root through its chain of parents |

## Left out

- NaN coordinates are not modelled. A coordinate is an integer or one of the two
  infinities, and `f64::min`/`max` and `<`/`>` are the total order on those.
- The byte-level views of `split_data_borrow` are not modelled: the
  `bytemuck::cast_slice_mut` reinterpretation, alignment, and the IEEE-754 and
  native byte order of coordinates. The box array and the identifier array are
  separate typed arrays; `SplitData` models only the byte ranges.
- The identifier array (`MutableIndices`) is not part of this model. It is an
  array of naturals bounded by the 2- or 4-byte maximum, and a value over that
  maximum is the IdOverflow error. With the 4-byte width, `finish` for more than
  about 2^30 items can fail this way.
- The reorder strategy (`Sort`, e.g. the Hilbert sort) is not part of this
  model. It is a function parameter from the parameters and the leaf coordinates
  to a permutation of the leaves, applied to boxes and identifiers alike. It
  sees only the leaf boxes, not the rest of the buffer.
- `LevelEnds`: for an empty input (`num_items == 0`) the layout is one level of
  no leaves and a single root, `[0, 1]`, because `ParentCount(0, _)` is 1. This
  one-node empty tree is the model's choice for `compute_num_nodes(0, _)`; the
  ceiling rule gives no parents for an empty level, and the synthesis loop never
  runs for it since the small-input path handles `num_items == 0`.
- `EncodeHeader`: the node size and the item count are written with
  `cast_slice_mut`, in the host's byte order. The model fixes little-endian,
  which is what the code writes on little-endian hosts only.
- `BufferLength`: the `usize` products and sums at src/flatbush/builder.rs:48-51
  can wrap on 32-bit targets for item counts the constructor accepts. The model
  computes them on unbounded naturals and cannot show that overflow.
- `VERSION` is not part of this model. It is a parameter below 16.
- Search and the other methods of `OwnedFlatbush` are not part of this model.
  The finished index is the `Flatbush` value.
- Panics and assertion failures become error results; `debug_assert_eq!` in
  `split_data_borrow` is the `None` of `SplitData`.
- The benchmark harness and the fixture-based integration test are I/O only.
