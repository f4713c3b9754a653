# Impact engine core bookkeeping, modelled in Dafny

This project models the integer and combinatorial bookkeeping at the core of
the Impact game engine, a Rust engine with an entity-component-system, voxel
objects and a GPU renderer, and proves properties of that model.

Each Rust file of the core becomes one Dafny module. Code that changes state
in place becomes a `class` or an `array` with methods whose `ensures` tie the
new state to specification functions. Pure matches and arithmetic become
datatypes, functions and lemmas.

| module | file | Rust source |
|---|---|---|
| `KeyIndexMapping` | key_index_mapper.dfy | engine/crates/impact_containers/src/key_index_mapper.rs |
| `GenerationalReuse` | generational_reusing_vec.dfy | engine/impact_containers/src/generational_reusing_vec.rs |
| `InstanceFeatures` | instance_features.dfy | feature storage, dynamic buffer and range manager, shared by engine/crates/impact_model/src/lib.rs and src/model.rs |
| `InstanceFeatureManagement` | instance_feature_manager.dfy | engine/crates/impact_model/src/lib.rs (model instance buffers, the manager) |
| `LegacyModel` | legacy_model.dfy | src/model.rs (the older manager: transform buffer first, buffering instances) |
| `Voxels` | voxels.dfy | engine/crates/impact_voxel/src/lib.rs |
| `VoxelChunks` | voxel_chunks.dfy | engine/crates/impact_voxel/src/chunks.rs (index helpers, chunk flags, face counts, chunk classification) |
| `ChunkedVoxelObjects` | voxel_object.dfy | engine/crates/impact_voxel/src/chunks.rs (object generation and analysis, `get_chunk`) |
| `LegacyChunkedVoxelObjects` | legacy_voxel_object.dfy | engine/src/voxel/chunks.rs |
| `Disconnection` | disconnection.dfy | engine/crates/impact_voxel/src/chunks/disconnection.rs |
| `Octree` | octree.dfy | src/voxel/tree.rs (heights, indices, octant iterator) and the voxel faces of src/geometry/voxel.rs |
| `VoxelTree` | voxel_tree.dfy | src/voxel/tree.rs (obscuredness table, external node data and storage, dominating type) |
| `LegacyVoxelTree` | legacy_voxel_tree.dfy | src/geometry/voxel.rs (node storage, tree building) |
| `Archetypes` | archetype.dfy | engine/impact_ecs/src/archetype.rs |
| `ImageIO` | image_io.dfy | engine/crates/impact_io/src/image.rs |
| `MetaSDF` | meta.dfy | engine/crates/impact_voxel/src/generation/sdf/meta.rs (node resolvers, balanced trees, seeds, parsers) |
| `MetaSDFBuild` | meta_build.dfy | engine/crates/impact_voxel/src/generation/sdf/meta.rs (the graph and its depth-first build) |
| `MetaCanvas` | canvas.dfy | apps/voxel_generator/src/editor/meta/canvas.rs |
| `RocIntegration` | roc_integration.dfy | roc_integration/src/lib.rs |
| `Materials` | materials.dfy | engine/src/material.rs |
| `MaterialValues` | material_values.dfy | engine/crates/impact_material/src/values.rs |
| `Postprocessing` | postprocessing.dfy | src/scene/postprocessing.rs |
| `ShaderGeneration` | shader.dfy | src/rendering/shader.rs |

Three helper modules are also part of the project. `Wrappers` holds `Option`
and `Result`. `Sequences` and `Arith` hold generic lemmas about sequences and
nonlinear arithmetic.

The older tree in src/geometry/voxel.rs contains the same code as
src/voxel/tree.rs in four places:
- the tree height (src/geometry/voxel.rs:887-905);
- `for_next_depth` and `voxel_scale_and_indices` (1461-1500);
- the octant iterator (1552-1620);
- `add_obscured_face_area` (1305-1308).

`Octree` and `VoxelTree` model that code once, and `LegacyVoxelTree` uses
their definitions.

Rust panics (`assert!`, `unwrap` on an absent value, index out of bounds, a
checked subtraction that underflows) become `requires` clauses. Returned
errors become `Result` or `Option` values, and the error paths are modelled.

## Model

| member | source | states |
|---|---|---|
| Archetypes.SortIds | engine/impact_ecs/src/archetype.rs:257-264 | the IDs in ascending order and a permutation of the input |
| Archetypes.SortIgnoresOrder | engine/impact_ecs/src/archetype.rs:251-254 | two inputs with the same elements sort to the same sequence, so the order of the IDs does not affect the result |
| Archetypes.SortedUnique | engine/impact_ecs/src/archetype.rs:257-264 | there is one sorted order per multiset of IDs |
| Archetypes.ArchetypeOfIds | engine/impact_ecs/src/archetype.rs:331-335 | the archetype of a type list holds its IDs sorted (a permutation of the list) and exactly its set of component types |
| Archetypes.DuplicatesExistIffNotDistinct | engine/impact_ecs/src/archetype.rs:301-329 | the adjacent-suffix duplicate check finds a duplicate exactly when the IDs are not all distinct |
| Archetypes.NewArchetype | engine/impact_ecs/src/archetype.rs:257-264 | an error exactly when an ID repeats, and then a duplicate-ID error; otherwise the component set is the input's, of the input's size, sorted and a permutation of the input |
| Archetypes.DistinctIffCounts | engine/impact_ecs/src/archetype.rs:301-329 | a list is duplicate-free exactly when every element occurs once in its multiset |
| Archetypes.NewArchetypeIgnoresOrder | engine/impact_ecs/src/archetype.rs:251-254 | permuting the IDs gives the same result, error or archetype |
| Archetypes.ContainsProperties | engine/impact_ecs/src/archetype.rs:282-292 | containment is reflexive and transitive, every archetype contains the empty one, and containment holds exactly when every component type of the other is contained |
| Archetypes.ContainsNoneOf | engine/impact_ecs/src/archetype.rs:294-299 | true for an empty ID list |
| Archetypes.ContainsNoneOfIsDisjoint | engine/impact_ecs/src/archetype.rs:294-299 | true exactly when the IDs and the archetype's component types are disjoint |
| Archetypes.CountsDifferIffUnequal | engine/impact_ecs/src/archetype.rs:381-385 | the count check fails exactly when two arrays have different instance counts; otherwise every array has the first array's count |
| Archetypes.IncludeOne | engine/impact_ecs/src/archetype.rs:653-677 | a count mismatch against non-empty contents fails and changes nothing; otherwise an absent type is appended and sets the count, a present one is replaced at its position, and duplicate-freedom is kept |
| Archetypes.IncludeAllProperties | engine/impact_ecs/src/archetype.rs:533-557 | present types keep their positions, only included types are added, the type list is unchanged when nothing was added, counts stay consistent, and without an error every included type is present |
| Archetypes.SwapRemoveType | engine/impact_ecs/src/archetype.rs:566-578 | a present type's array is swap-removed, the index map stays consistent and the type set loses exactly that type |
| Archetypes.RemoveTypesSucceeds | engine/impact_ecs/src/archetype.rs:580-601 | removing a list of types succeeds exactly when all are present and none repeats, and then exactly those types are gone |
| Archetypes.ArchetypeComponents.Init | engine/impact_ecs/src/archetype.rs:355-367 | the components invariant holds for the given archetype, arrays and count |
| Archetypes.ArchetypeComponents.Empty | engine/impact_ecs/src/archetype.rs:433-441 | no arrays, count 0, and an archetype with no component types |
| Archetypes.ArchetypeComponents.TryFromComponentArrays | engine/impact_ecs/src/archetype.rs:376-431 | a count-mismatch error first, then a duplicate-ID error, exactly when those occur; otherwise the arrays are kept, the count is the first array's (0 without arrays) and the archetype is that of the arrays' IDs |
| Archetypes.ArchetypeComponents.HasComponentType | engine/impact_ecs/src/archetype.rs:463-466 | true exactly when the archetype contains the type |
| Archetypes.ArchetypeComponents.ComponentsOfType | engine/impact_ecs/src/archetype.rs:475-484 | the instances of the array of that type, holding the common count |
| Archetypes.ArchetypeComponents.AddNewComponentType | engine/impact_ecs/src/archetype.rs:515-519 | fails exactly on a count mismatch (checked first) or a present type, changing nothing; otherwise appends the array, sets the count and adds the type to the archetype |
| Archetypes.ArchetypeComponents.AddOrOverwriteComponentTypes | engine/impact_ecs/src/archetype.rs:533-557 | the new arrays and count are those of including every array in order; a count mismatch is an error but does not stop the others; the archetype changes only if a type was added |
| Archetypes.ArchetypeComponents.IncludeArrays | engine/impact_ecs/src/archetype.rs:539-550 | the loop's result is the fold of the inclusions over the arrays |
| Archetypes.ArchetypeComponents.IncludeComponentArray | engine/impact_ecs/src/archetype.rs:653-677 | one inclusion on the index map, the arrays and the count; the result says whether the type was added |
| Archetypes.ArchetypeComponents.RemoveComponentTypeWithId | engine/impact_ecs/src/archetype.rs:566-578 | fails for an absent type, changing nothing; otherwise swap-removes the type's array and removes the type from the archetype |
| Archetypes.ArchetypeComponents.RemoveComponentTypesWithIds | engine/impact_ecs/src/archetype.rs:580-601 | corrected: removes the types in order up to the first missing one and always recomputes the archetype, so the invariant also holds after the error |
| Archetypes.ArchetypeComponents.RemoveTypesLoop | engine/impact_ecs/src/archetype.rs:585-594 | the loop's result is the removal fold, stopping at the first missing type |
| Archetypes.AppendColumns | engine/impact_ecs/src/archetype.rs:1012-1018 | appending keeps the storages and their types in order |
| Archetypes.RemoveRow | engine/impact_ecs/src/archetype.rs:1043-1048 | every storage loses one instance and keeps its type |
| Archetypes.RowAt | engine/impact_ecs/src/archetype.rs:1043-1054 | one single-instance array per storage, of the same types |
| Archetypes.RemoveRowKeepsLookups | engine/impact_ecs/src/archetype.rs:1026-1048 | after a row is swap-removed from the entity mapper and every storage, each remaining entity still finds its own instances |
| Archetypes.ArchetypeTable.NewWithEntities | engine/impact_ecs/src/archetype.rs:956-965 | a table whose rows are the given entities in order and whose storages are the components' arrays |
| Archetypes.ArchetypeTable.HasEntity | engine/impact_ecs/src/archetype.rs:978-980 | true exactly when the entity has a row |
| Archetypes.ArchetypeTable.GetComponentStorage | engine/impact_ecs/src/archetype.rs:1193-1202 | an error exactly for a type outside the archetype; otherwise the storage of that type, with one instance per entity |
| Archetypes.ArchetypeTable.AddEntities | engine/impact_ecs/src/archetype.rs:999-1019 | the entities are appended to the mapper and every storage gets the components' instances of its type appended; the invariant holds |
| Archetypes.ArchetypeTable.PushArrays | engine/impact_ecs/src/archetype.rs:1012-1018 | the result is every storage with the arrays of its type appended |
| Archetypes.ArchetypeTable.RemoveEntity | engine/impact_ecs/src/archetype.rs:1030-1055 | an error for an absent entity, changing nothing; otherwise its row is swap-removed from the mapper and every storage and returned as single-instance components of the table's archetype |
| Archetypes.ArchetypeTable.SwapRemoveRow | engine/impact_ecs/src/archetype.rs:1043-1048 | the remaining storages and the removed row |
| Archetypes.ArchetypeTable.RemoveAllEntities | engine/impact_ecs/src/archetype.rs:1058-1063 | no entities remain; every storage is empty and keeps its type |
| Archetypes.RemoveComponentTypesAsWritten | engine/impact_ecs/src/archetype.rs:580-601 | the removal as the code is written: the index map and arrays after the removals up to the first missing type, and an archetype recomputed from the arrays only when no removal failed; on failure the archetype from before the call is kept |
| Archetypes.StaleArchetypeAfterFailedRemoval | engine/impact_ecs/src/archetype.rs:590-599 | removing a present type followed by a missing one fails, and leaves an archetype that still lists the removed type although the arrays no longer hold it |
| MetaCanvas.SetParentLinkAt | apps/voxel_generator/src/editor/meta/canvas.rs:451-457 | writing a parent slot changes that one slot of an existing node and nothing else |
| MetaCanvas.SetChildLinkAt | apps/voxel_generator/src/editor/meta/canvas.rs:460-466 | writing a child slot changes that one slot of an existing node and nothing else |
| MetaCanvas.MirroredEnds | apps/voxel_generator/src/editor/meta/canvas.rs:473-563 | in a graph whose links are symmetric, a parent slot names a child slot exactly when that child slot names it back |
| MetaCanvas.DetachParentNodesAt | apps/voxel_generator/src/editor/meta/canvas.rs:473-516 | detaching a parent slot empties it and the child slot it named, and no other slot |
| MetaCanvas.DetachChildNodesAt | apps/voxel_generator/src/editor/meta/canvas.rs:520-563 | detaching a child slot empties it and the parent slot it named, and no other slot |
| MetaCanvas.DetachParentKeepsSymmetry | apps/voxel_generator/src/editor/meta/canvas.rs:473-516 | detaching a parent link keeps every link symmetric and leaves no slot naming the emptied one |
| MetaCanvas.DetachChildKeepsSymmetry | apps/voxel_generator/src/editor/meta/canvas.rs:520-563 | detaching a child link keeps every link symmetric and leaves no slot naming the emptied one |
| MetaCanvas.PendingAfterDetach | apps/voxel_generator/src/editor/meta/canvas.rs:488-500 | the pending edge is dropped exactly when it starts at either end of the removed link, and otherwise kept |
| MetaCanvas.LinkedNodes | apps/voxel_generator/src/editor/meta/canvas.rs:2298-2304 | the listed nodes are exactly the targets of the filled child slots |
| MetaCanvas.ReachableStep | apps/voxel_generator/src/editor/meta/canvas.rs:2297-2304 | every child of a reachable node is reachable |
| MetaCanvas.ClosedSetHoldsReachable | apps/voxel_generator/src/editor/meta/canvas.rs:2290-2306 | a set closed under child links that holds the start holds everything reachable from it |
| MetaCanvas.PopSeenStep | apps/voxel_generator/src/editor/meta/canvas.rs:2291-2293 | skipping an already seen node keeps the search invariants |
| MetaCanvas.PopUnseenStep | apps/voxel_generator/src/editor/meta/canvas.rs:2297-2305 | visiting an unseen node and pushing its children keeps the search invariants |
| MetaCanvas.SearchComplete | apps/voxel_generator/src/editor/meta/canvas.rs:2290-2307 | when the stack runs empty, the visited set is exactly the set of nodes reachable from the start |
| MetaCanvas.SetSeenBitAgain | apps/voxel_generator/src/editor/meta/canvas.rs:2291 | setting the bit of a seen node reports it seen and changes nothing |
| MetaCanvas.SetSeenBitFirst | apps/voxel_generator/src/editor/meta/canvas.rs:2291 | setting the bit of an unseen node moves it from unvisited to visited |
| MetaCanvas.PushChildren | apps/voxel_generator/src/editor/meta/canvas.rs:2298-2304 | the stack gains the targets of the node's filled child slots, in slot order |
| MetaCanvas.NodeCanReachOther | apps/voxel_generator/src/editor/meta/canvas.rs:2275-2308 | true exactly when the other node is reachable from the node along child links |
| MetaCanvas.ObtainSubtree | apps/voxel_generator/src/editor/meta/canvas.rs:2310-2342 | the list starts with the root, repeats no node, and holds exactly the nodes reachable from the root |
| MetaCanvas.AttachedPending | apps/voxel_generator/src/editor/meta/canvas.rs:431-469 | the pending edge after attaching is either unchanged or dropped |
| MetaCanvas.AttachedNodesRelink | apps/voxel_generator/src/editor/meta/canvas.rs:450-467 | the four steps of an attach link the two slots to each other, empty the slots the previous occupants held at their other ends, and leave the rest |
| MetaCanvas.RelinkedKeepsSymmetry | apps/voxel_generator/src/editor/meta/canvas.rs:431-469 | relinking two existing slots of a symmetric graph keeps it symmetric |
| MetaCanvas.AttachLinksBothEnds | apps/voxel_generator/src/editor/meta/canvas.rs:431-469 | attaching in a symmetric graph sets both ends of the new link and keeps the graph symmetric |
| MetaCanvas.RemovalKeepsShapes | apps/voxel_generator/src/editor/meta/canvas.rs:264-296 | removing a node keeps every remaining ID below the counter and every child slot typed |
| MetaCanvas.RemovalKeepsSymmetry | apps/voxel_generator/src/editor/meta/canvas.rs:264-296 | removing a node together with every link to it keeps the links symmetric |
| MetaCanvas.DetachedFlagStep | apps/voxel_generator/src/editor/meta/canvas.rs:282-288 | the detach loops flag a change exactly when the node had some filled slot |
| MetaCanvas.HasLinksBefore | apps/voxel_generator/src/editor/meta/canvas.rs:278-288 | a node has links exactly when one of its parent or child slots is filled |
| MetaCanvas.ChildrenAreNodes | apps/voxel_generator/src/editor/meta/canvas.rs:2297-2304 | in a symmetric graph every child a node lists is itself a node |
| MetaCanvas.DetachFlagsCombine | apps/voxel_generator/src/editor/meta/canvas.rs:431-469 | an attach flags the attach, plus a detach exactly when either slot was occupied |
| MetaCanvas.MetaGraphCanvas.constructor | apps/voxel_generator/src/editor/meta/canvas.rs:185-197 | an empty canvas: no nodes, nothing collapsed, selected or pending, and the counter at 0 |
| MetaCanvas.MetaGraphCanvas.NextNodeId | apps/voxel_generator/src/editor/meta/canvas.rs:233-237 | hands out the counter and increments it; the ID belongs to no node and nothing else changes |
| MetaCanvas.MetaGraphCanvas.DetachParentOf | apps/voxel_generator/src/editor/meta/canvas.rs:473-516 | returns the link that was in the slot, empties both its ends, flags a detach exactly when there was one, and drops the pending edge when it starts at either end |
| MetaCanvas.MetaGraphCanvas.DetachChildOf | apps/voxel_generator/src/editor/meta/canvas.rs:520-563 | the mirror image of detaching a parent slot |
| MetaCanvas.MetaGraphCanvas.CanAttach | apps/voxel_generator/src/editor/meta/canvas.rs:385-429 | true exactly when the nodes differ, the parent is not reachable from the child, both nodes and slots exist and the data types may connect |
| MetaCanvas.MetaGraphCanvas.TryAttach | apps/voxel_generator/src/editor/meta/canvas.rs:431-469 | attaches exactly when attaching is allowed, relinking the two slots symmetrically; otherwise nothing changes; change flags and pending edge follow the detaches |
| MetaCanvas.MetaGraphCanvas.DetachParentSlots | apps/voxel_generator/src/editor/meta/canvas.rs:282-284 | after the first loop every parent slot of the node is detached at both ends |
| MetaCanvas.MetaGraphCanvas.DetachChildSlots | apps/voxel_generator/src/editor/meta/canvas.rs:286-288 | after the second loop every slot is detached at both ends, so removing the node leaves no link to it |
| MetaCanvas.MetaGraphCanvas.RemoveSingleNode | apps/voxel_generator/src/editor/meta/canvas.rs:264-296 | the output node is never removed; any other node loses every link at both ends, is deleted, unselected and uncollapsed, with the matching change flags |
| MetaCanvas.MetaGraphCanvas.SetNodeCollapsed | apps/voxel_generator/src/editor/meta/canvas.rs:569-582 | adds or removes the collapse mark, flagging a change exactly when the mark set changes |
| Disconnection.GlobalRegionLabel.ChunkIdx | engine/crates/impact_voxel/src/chunks/disconnection.rs:2076-2078 | the chunk index lies within the 24-bit mask |
| Disconnection.GlobalRegionLabel.RegionIdx | engine/crates/impact_voxel/src/chunks/disconnection.rs:2081-2083 | the region index lies within the 8-bit mask |
| Disconnection.NewGlobalRegionLabel | engine/crates/impact_voxel/src/chunks/disconnection.rs:2064-2073 | the label holds the given chunk index and region index, which its accessors give back; an index too large for its field panics |
| Disconnection.GlobalLabelChunkIdxRoundTrip | engine/crates/impact_voxel/src/chunks/disconnection.rs:2064-2078 | the chunk index given to new is recovered from the label |
| Disconnection.GlobalLabelRegionIdxRoundTrip | engine/crates/impact_voxel/src/chunks/disconnection.rs:2064-2083 | the region index given to new is recovered from the label |
| Disconnection.GlobalLabelsIdentifyRegions | engine/crates/impact_voxel/src/chunks/disconnection.rs:2064-2083 | two labels are equal exactly when their chunk and region indices are |
| Disconnection.AdjacentRegionConnection.RegionIdx | engine/crates/impact_voxel/src/chunks/disconnection.rs:2139-2141 | the region index lies within its 12-bit mask |
| Disconnection.EncodeFace | engine/crates/impact_voxel/src/chunks/disconnection.rs:2109-2120 | the encoded face fits in the lower 4 bits |
| Disconnection.NewAdjacentRegionConnection | engine/crates/impact_voxel/src/chunks/disconnection.rs:2098-2106 | the connection holds the given region index, and its lower four bits are the encoded face; a region index above 12 bits panics |
| Disconnection.AdjacentRegionConnection.DecodeFace | engine/crates/impact_voxel/src/chunks/disconnection.rs:2123-2136 | decoding inverts encoding: encoding the decoded face gives back the connection's lower four bits |
| Disconnection.ConnectionFaceRoundTrip | engine/crates/impact_voxel/src/chunks/disconnection.rs:2098-2136 | decode_face recovers the face a connection was made with, so it never reaches its unreachable branch |
| Disconnection.ConnectionRegionIdxRoundTrip | engine/crates/impact_voxel/src/chunks/disconnection.rs:2098-2141 | the region index given to new is recovered from the connection |
| Disconnection.AdjacentRegionConnection.ComputeRelativeLinearChunkIdx | engine/crates/impact_voxel/src/chunks/disconnection.rs:2144-2162 | the lower side lands one stride of the face's dimension below the chunk and the upper side one stride above, so stepping back recovers the chunk; on the lower side a zero index panics |
| Disconnection.NeighborLinearIdx | engine/crates/impact_voxel/src/chunks/disconnection.rs:2144-2162 | stepping by a dimension's stride moves to the adjacent chunk in the grid; stepping down never passes below index zero |
| Disconnection.RelativeChunkIdxIsNeighbor | engine/crates/impact_voxel/src/chunks/disconnection.rs:2144-2162 | when the chunk across the connection's face is in the grid, the relative linear index is that chunk's linear index |
| Disconnection.AllotmentsFit | engine/crates/impact_voxel/src/chunks/disconnection.rs:2288-2292 | the k-th boundary region's slots, at k times the per-region maximum, stay inside the chunk's slots, and each region gets at least one |
| Disconnection.MaxAdjacentRegionConnectionsPerRegion | engine/crates/impact_voxel/src/chunks/disconnection.rs:2288-2292 | the largest per-region share of the 256 slots that fits max(n, 1) regions: the share times the region count is at most 256, and one more slot each would not fit |
| Disconnection.LocalRegion.Zeroed | engine/crates/impact_voxel/src/chunks/disconnection.rs:2016-2022 | the zero label, start 0 and no connections |
| Disconnection.LocalRegion.RangeOfAdjacentRegionConnections | engine/crates/impact_voxel/src/chunks/disconnection.rs:2025-2029 | a range from the start index holding exactly the region's connections |
| Disconnection.LocalRegion.PushAdjacentRegionConnectionIdx | engine/crates/impact_voxel/src/chunks/disconnection.rs:2032-2049 | below the maximum the next free slot is handed out and counted; at the maximum the last slot is handed out again; the slot stays in the region's allotment |
| Disconnection.AddAdjacentConnectionForRegion | engine/crates/impact_voxel/src/chunks/disconnection.rs:2756-2767 | the connection is written to the slot the region hands out and no other slot changes |
| Disconnection.Root | engine/crates/impact_voxel/src/chunks/disconnection.rs:2325-2339 | the root reached by following parents is its own parent, with a rank below every other voxel on the path |
| Disconnection.CompressPreservesRoots | engine/crates/impact_voxel/src/chunks/disconnection.rs:2325-2339 | making a voxel's root its direct parent keeps a forest and changes no voxel's root |
| Disconnection.FindRootForVoxel | engine/crates/impact_voxel/src/chunks/disconnection.rs:2325-2339 | returns the voxel's root and makes it the voxel's parent, compressing the walked path without changing any voxel's root |
| Disconnection.UnitedRootsConnect | engine/crates/impact_voxel/src/chunks/disconnection.rs:2298-2319 | after the merge two voxels share a root exactly when they did before, or each shared one with one of the two merged voxels |
| Disconnection.MergeRoots | engine/crates/impact_voxel/src/chunks/disconnection.rs:2298-2319 | hanging one root under a different root keeps a forest, and every voxel of the moved tree gets the new root |
| Disconnection.GiveVoxelsSameRoot | engine/crates/impact_voxel/src/chunks/disconnection.rs:2298-2319 | the parents stay a forest and every voxel's root is its root in the union of the two voxels' trees |
| Disconnection.WithoutMultiplicity | engine/crates/impact_voxel/src/chunks/disconnection.rs:2735-2753 | dropping the connections on one face keeps every copy of every other connection and no copy of the dropped ones |
| Disconnection.Swap | engine/crates/impact_voxel/src/chunks/disconnection.rs:2748 | slice.swap exchanges two entries, keeps the rest and is a permutation |
| Disconnection.SwapOutStep | engine/crates/impact_voxel/src/chunks/disconnection.rs:2745-2751 | one pass of the loop: a connection on the face is swapped behind the kept ones and the unexamined part shrinks |
| Disconnection.SwapOutFaceConnections | engine/crates/impact_voxel/src/chunks/disconnection.rs:2735-2753 | the window becomes a rearrangement with the kept connections first and the face's connections after; nothing outside the window changes |
| Disconnection.RemoveAdjacentConnectionsForRegion | engine/crates/impact_voxel/src/chunks/disconnection.rs:2735-2753 | the region's count becomes the number of its connections not on the face, which are a permutation of the window's first entries; start, label and every slot outside the window are kept |
| GenerationalReuse.SlotElement | engine/impact_containers/src/generational_reusing_vec.rs:219-225 | Some exactly when the handle's generation equals the slot's, and then the slot's element |
| GenerationalReuse.GenerationalReusingVec.constructor | engine/impact_containers/src/generational_reusing_vec.rs:46-51 | no slots and an empty free list |
| GenerationalReuse.GenerationalReusingVec.NElements | engine/impact_containers/src/generational_reusing_vec.rs:56-58 | the number of occupied slots, that is the slots minus the free list |
| GenerationalReuse.GenerationalReusingVec.GetElement | engine/impact_containers/src/generational_reusing_vec.rs:105-111 | Some exactly when the handle resolves (its slot is occupied and of the same generation), holding the slot's element |
| GenerationalReuse.GenerationalReusingVec.Element | engine/impact_containers/src/generational_reusing_vec.rs:68-76 | the element the handle resolves to; panics when it does not resolve |
| GenerationalReuse.GenerationalReusingVec.AddElement | engine/impact_containers/src/generational_reusing_vec.rs:140-150 | reuses the oldest freed slot (first in, first out) with its generation advanced by one, or appends a slot of generation 0; the new handle resolves to the element, earlier handles keep resolving to their elements, and no stale handle starts resolving |
| GenerationalReuse.GenerationalReusingVec.FreeElementAtIdx | engine/impact_containers/src/generational_reusing_vec.rs:161-172 | queues the slot at the end of the free list; exactly the handles to that slot stop resolving |
| GenerationalReuse.GenerationalReusingVec.FreeAllElements | engine/impact_containers/src/generational_reusing_vec.rs:175-178 | every slot is queued as free in index order; no handle resolves and the element count is 0 |
| GenerationalReuse.FreeAllLeavesNothingOccupied | engine/impact_containers/src/generational_reusing_vec.rs:174-178 | once every index below the slot count is queued as free, no slot counts as occupied |
| ImageIO.Dimensions | engine/crates/impact_io/src/image.rs:49-51 | for an image whose data has the size its metadata implies, width times height times bytes per pixel is the data length |
| ImageIO.HasColor | engine/crates/impact_io/src/image.rs:77-79 | true exactly for the format with more than one byte per pixel, RGBA8 |
| ImageIO.DetectFormat | engine/crates/impact_io/src/image.rs:121-161 | PNG exactly when the bytes start with the PNG magic bytes, JPEG exactly when they start with the JPEG magic bytes, and otherwise the unsupported-format error |
| ImageIO.LumaToRgba | engine/crates/impact_io/src/image.rs:364-370 | four output bytes per luma byte |
| ImageIO.RgbToRgba | engine/crates/impact_io/src/image.rs:372-382 | four output bytes per RGB triple |
| ImageIO.RgbaToLuma | engine/crates/impact_io/src/image.rs:384-394 | one output byte per RGBA pixel |
| ImageIO.LumaAlphaToLuma | engine/crates/impact_io/src/image.rs:397-407 | one output byte per luma-alpha pair |
| ImageIO.YCbCrToRgba | engine/crates/impact_io/src/image.rs:409-420 | four output bytes per YCbCr triple |
| ImageIO.LumaToRgbaPixels | engine/crates/impact_io/src/image.rs:364-370 | pixel k of the expansion is the k-th luma byte repeated three times with opaque alpha |
| ImageIO.RgbToRgbaPixels | engine/crates/impact_io/src/image.rs:372-382 | pixel k of the expansion is the k-th RGB triple followed by opaque alpha |
| ImageIO.LumaAlphaToLumaKeepsLuma | engine/crates/impact_io/src/image.rs:396-407 | stripping luma-alpha data gives back exactly the luma bytes, whatever the alpha bytes were |
| ImageIO.ConvertLumaDataToRgba | engine/crates/impact_io/src/image.rs:364-370 | the loop output equals the luma-to-RGBA expansion |
| ImageIO.ConvertRgbDataToRgba | engine/crates/impact_io/src/image.rs:372-382 | the loop output equals the RGB-to-RGBA expansion; a length not divisible by 3 panics |
| ImageIO.ConvertRgbaDataToLuma | engine/crates/impact_io/src/image.rs:384-394 | the loop output is the luma of each RGBA pixel in order; a length not divisible by 4 panics |
| ImageIO.ConvertLumaAlphaDataToLuma | engine/crates/impact_io/src/image.rs:397-407 | the loop output is the luma byte of each pair in order; an odd length panics |
| ImageIO.ConvertYCbCrDataToRgba | engine/crates/impact_io/src/image.rs:409-420 | the loop output is each converted YCbCr triple with opaque alpha, in order |
| ImageIO.IntoRgba8 | engine/crates/impact_io/src/image.rs:57-62 | RGBA data is returned unchanged and luma data expanded; a well-sized image yields four bytes per pixel |
| ImageIO.IntoLuma8 | engine/crates/impact_io/src/image.rs:68-73 | luma data is returned unchanged and RGBA data reduced; a well-sized image yields one byte per pixel |
| ImageIO.PngPixelFormat | engine/crates/impact_io/src/image.rs:164-183 | indexed colour is the only error; RGB and RGBA colour types become RGBA8, the grey types luma |
| ImageIO.ConvertPngFrame | engine/crates/impact_io/src/image.rs:185-220 | the load succeeds exactly when the metadata reader does, reports the same format, and keeps the pixel count |
| ImageIO.JpegPixelFormat | engine/crates/impact_io/src/image.rs:222-249 | colour spaces other than the five known ones are the only error; luma and luma-alpha become Luma8, the rest RGBA8 |
| ImageIO.ConvertJpegPixels | engine/crates/impact_io/src/image.rs:251-289 | the load succeeds exactly when the metadata reader does, reports the same format, and keeps the pixel count |
| InstanceFeatureManagement.NewModelInstanceBuffer | engine/crates/impact_model/src/lib.rs:511-526 | one feature buffer per feature type, in the given order, and one registered instance |
| InstanceFeatureManagement.RegisterModelInstance | engine/crates/impact_model/src/lib.rs:604-606 | the buffer has instances afterwards, and unregistering undoes the registration |
| InstanceFeatureManagement.UnregisterModelInstance | engine/crates/impact_model/src/lib.rs:609-612 | the instance count drops by one; the buffer still has instances exactly when it had more than one |
| InstanceFeatureManagement.InstanceFeatureManager.constructor | engine/crates/impact_model/src/lib.rs:158-163 | no feature storages and no instance buffers |
| InstanceFeatureManagement.InstanceFeatureManager.RegisterFeatureType | engine/crates/impact_model/src/lib.rs:169-173 | a storage for the type exists afterwards; an existing storage and every instance buffer are kept |
| InstanceFeatureManagement.InstanceFeatureManager.HasModelId | engine/crates/impact_model/src/lib.rs:185-187 | true exactly when the model has instance buffers, which always hold at least one instance |
| InstanceFeatureManagement.InstanceFeatureManager.RecordState | engine/crates/impact_model/src/lib.rs:177-181 | the recorded state holds exactly the models that have instance buffers |
| InstanceFeatureManagement.InstanceFeatureManager.InitializeInstanceBuffer | engine/crates/impact_model/src/lib.rs:281-299 | creates the model's buffers with one instance when it has none; otherwise nothing changes |
| InstanceFeatureManagement.InstanceFeatureManager.RegisterInstance | engine/crates/impact_model/src/lib.rs:311-326 | the first instance creates the model's buffers with count one; a later one increments the count of the existing buffers |
| InstanceFeatureManagement.InstanceFeatureManager.UnregisterInstance | engine/crates/impact_model/src/lib.rs:334-344 | the last instance removes the model's buffers; otherwise the count drops by one; other models are untouched |
| InstanceFeatureManagement.InstanceFeatureManager.ResetToState | engine/crates/impact_model/src/lib.rs:463-470 | keeps exactly the buffers of models in the recorded state, so resetting to the current state changes nothing |
| InstanceFeatures.NotApplicable | engine/crates/impact_model/src/lib.rs:724-746 | the not-applicable ID (zero type hash, index u64::MAX) is recognised by is_not_applicable |
| InstanceFeatures.RemoveFeatureBytes | engine/crates/impact_model/src/lib.rs:858-888 | with a non-zero feature size, the last feature's bytes are copied over feature i unless i is the last, and the storage is truncated by one feature |
| InstanceFeatures.CopyLastOverAndTruncateAt | engine/crates/impact_model/src/lib.rs:870-887 | byte by byte: inside the removed feature's slot the last feature's bytes, elsewhere the old bytes, and the length shrinks by one feature |
| InstanceFeatures.CopyLastOverAndTruncateChunk | engine/crates/impact_model/src/lib.rs:870-887 | feature j after the removal is the old last feature when j is the removed index and the old feature j otherwise |
| InstanceFeatures.CopyLastOverAndTruncateIsSwapRemove | engine/crates/impact_model/src/lib.rs:858-888 | the byte-level removal is a swap-remove of the packed feature sequence |
| InstanceFeatures.DoubledUntilSpec | engine/crates/impact_model/src/lib.rs:1261-1272 | the doubled size reaches the minimum size, is the start times a power of two, and is the first such: it is the start itself or less than twice the minimum |
| InstanceFeatures.NewBufferSize | engine/crates/impact_model/src/lib.rs:1261-1272 | the loop of grow_buffer returns the doubled size from (old + 1) * 2, which is at least the minimum and larger than the old size |
| InstanceFeatures.RangesTile | engine/crates/impact_model/src/lib.rs:1298-1324 | the ranges of a manager tile the buffer: the first starts at 0, each ends where the next starts, the last ends at the buffer length, and none is reversed |
| InstanceFeatures.InstanceFeatureBufferRangeManager.NewWithInitialRange | engine/crates/impact_model/src/lib.rs:1283-1288 | one range, the initial range ID, starting at 0 |
| InstanceFeatures.InstanceFeatureBufferRangeManager.GetRange | engine/crates/impact_model/src/lib.rs:1298-1324 | the range with the given ID, closed by the next live range's start or by the buffer length for the last range; never reversed |
| InstanceFeatures.InstanceFeatureBufferRangeManager.BeginRange | engine/crates/impact_model/src/lib.rs:1333-1350 | the new ID is appended to the ID mapper at the next index and the live starts gain the new start, keeping the starts non-decreasing |
| InstanceFeatures.InstanceFeatureBufferRangeManager.Clear | engine/crates/impact_model/src/lib.rs:1353-1356 | only the initial range remains, starting at 0; the stored start vector is left as it was |
| InstanceFeatures.InstanceFeatureBufferRangeMap.GetRange | engine/crates/impact_model/src/lib.rs:1384-1409 | the range map answers with the range at the ID's index, closed by the next start or the buffer length |
| InstanceFeatures.RangeMapFromManager | engine/crates/impact_model/src/lib.rs:1364-1375 | the map keeps exactly the live starts and the ID index map, and answers every valid range query as the manager does |
| InstanceFeatures.InstanceFeatureStorage.Features | engine/crates/impact_model/src/lib.rs:906-925 | the packed features, one per stored ID |
| InstanceFeatures.InstanceFeatureStorage.constructor | engine/crates/impact_model/src/lib.rs:750-758 | an empty storage for the given type and size with the ID counter at 0 |
| InstanceFeatures.InstanceFeatureStorage.FeatureCount | engine/crates/impact_model/src/lib.rs:786-788 | the number of live features |
| InstanceFeatures.InstanceFeatureStorage.HasFeature | engine/crates/impact_model/src/lib.rs:795-799 | true exactly when the ID's index is live; an ID of another type panics |
| InstanceFeatures.InstanceFeatureStorage.FeatureBytes | engine/crates/impact_model/src/lib.rs:906-912 | the feature's bytes, one feature size long; a missing feature panics |
| InstanceFeatures.InstanceFeatureStorage.AddFeature | engine/crates/impact_model/src/lib.rs:844-850 | issues the next ID, never issued before, appends the feature's bytes and maps the new ID to them; the counter grows by one |
| InstanceFeatures.InstanceFeatureStorage.RemoveFeature | engine/crates/impact_model/src/lib.rs:858-888 | swap-removes the feature: the feature sequence is swap-removed at the ID's index, the ID's value is dropped, every other ID keeps its value, and the ID counter is kept |
| InstanceFeatures.InstanceFeatureStorage.RemoveAllFeatures | engine/crates/impact_model/src/lib.rs:891-894 | no bytes and no live IDs, with the ID counter kept so IDs are never reused |
| InstanceFeatures.DynamicInstanceFeatureBuffer.constructor | engine/crates/impact_model/src/lib.rs:947-974 | room for one zeroed feature, no valid bytes, and only the initial range starting at 0 |
| InstanceFeatures.DynamicInstanceFeatureBuffer.NValidFeatures | engine/crates/impact_model/src/lib.rs:990-993 | the valid byte count divided by the feature size; zero-sized features panic |
| InstanceFeatures.DynamicInstanceFeatureBuffer.ValidFeatureRange | engine/crates/impact_model/src/lib.rs:1004-1007 | the range with the given ID, within the valid features and never reversed |
| InstanceFeatures.DynamicInstanceFeatureBuffer.GrowBuffer | engine/crates/impact_model/src/lib.rs:1261-1272 | the buffer is resized with zeros to the doubled size, keeping its old bytes and the valid count |
| InstanceFeatures.DynamicInstanceFeatureBuffer.AddFeatureBytes | engine/crates/impact_model/src/lib.rs:1203-1219 | the feature's bytes are appended to the valid bytes, growing the buffer when full; the ranges are kept |
| InstanceFeatures.DynamicInstanceFeatureBuffer.AddFeatureBytesRepeatedly | engine/crates/impact_model/src/lib.rs:1221-1241 | n copies of the feature are appended to the valid bytes |
| InstanceFeatures.DynamicInstanceFeatureBuffer.AddFeatureSliceBytes | engine/crates/impact_model/src/lib.rs:1243-1259 | the slice's bytes are appended to the valid bytes |
| InstanceFeatures.DynamicInstanceFeatureBuffer.AddFeaturesFromIterator | engine/crates/impact_model/src/lib.rs:1115-1141 | the features are appended in order, one feature size each |
| InstanceFeatures.DynamicInstanceFeatureBuffer.AddFeatureFromStorage | engine/crates/impact_model/src/lib.rs:1149-1157 | the stored feature's bytes are appended; a storage of another type or a missing feature panics |
| InstanceFeatures.DynamicInstanceFeatureBuffer.BeginRange | engine/crates/impact_model/src/lib.rs:1183-1186 | a new range starting at the current feature count, empty until features are added |
| InstanceFeatures.DynamicInstanceFeatureBuffer.Clear | engine/crates/impact_model/src/lib.rs:1192-1195 | no valid bytes and only the initial range; the allocation is kept |
| InstanceFeatures.DynamicInstanceFeatureBuffer.CreateRangeMap | engine/crates/impact_model/src/lib.rs:1017-1019 | a range map holding the buffer's live range starts |
| KeyIndexMapping.ConsistentSizes | engine/crates/impact_containers/src/key_index_mapper.rs:195-197 | a consistent map has as many entries as the vector has keys, and the keys are distinct, so `len` can be read from either |
| KeyIndexMapping.SwapRemoveConsistent | engine/crates/impact_containers/src/key_index_mapper.rs:263-275 | swap-removing a position keeps the map and vector consistent once the removed key leaves the map and the moved last key is re-pointed at the freed index |
| KeyIndexMapping.SwapRemoveKeepsLookups | engine/crates/impact_containers/src/key_index_mapper.rs:263-275 | a vector kept parallel to the keys and swap-removed at the same index still gives every remaining key its old value |
| KeyIndexMapping.LookupsAfterRemoval | engine/crates/impact_containers/src/key_index_mapper.rs:263-275 | the key-to-value view after the parallel swap-remove is the old view without the removed key |
| KeyIndexMapping.KeyIndexMapper.constructor | engine/crates/impact_containers/src/key_index_mapper.rs:29-31 | an empty mapper |
| KeyIndexMapping.KeyIndexMapper.NewWithKeys | engine/crates/impact_containers/src/key_index_mapper.rs:141-153 | each key gets the index of its position in the input; the keys must be distinct, since a repeated key panics |
| KeyIndexMapping.KeyIndexMapper.Len | engine/crates/impact_containers/src/key_index_mapper.rs:195-197 | equals both the number of keys and the size of the map |
| KeyIndexMapping.KeyIndexMapper.ContainsKey | engine/crates/impact_containers/src/key_index_mapper.rs:190-192 | true exactly when the key is present |
| KeyIndexMapping.KeyIndexMapper.Get | engine/crates/impact_containers/src/key_index_mapper.rs:209-211 | Some exactly for a present key, holding the index where that key is stored |
| KeyIndexMapping.KeyIndexMapper.Idx | engine/crates/impact_containers/src/key_index_mapper.rs:203-205 | the index where the key is stored; panics on a missing key |
| KeyIndexMapping.KeyIndexMapper.KeyAtIdx | engine/crates/impact_containers/src/key_index_mapper.rs:217-219 | the key stored at the index, which the map sends back to that index |
| KeyIndexMapping.KeyIndexMapper.TryPushKey | engine/crates/impact_containers/src/key_index_mapper.rs:225-235 | Ok exactly for a new key, which is appended and mapped to the old length; an existing key gives Err with its index and no change |
| KeyIndexMapping.KeyIndexMapper.PushKey | engine/crates/impact_containers/src/key_index_mapper.rs:241-244 | appends a new key at the old length |
| KeyIndexMapping.KeyIndexMapper.PushKeys | engine/crates/impact_containers/src/key_index_mapper.rs:250-252 | appends the keys in order, each mapped to its new position |
| KeyIndexMapping.KeyIndexMapper.TrySwapRemoveKey | engine/crates/impact_containers/src/key_index_mapper.rs:263-275 | Err exactly for a missing key, with no change; otherwise returns the key's index, swap-removes it from the vector and drops it from the map |
| KeyIndexMapping.KeyIndexMapper.SwapRemoveKey | engine/crates/impact_containers/src/key_index_mapper.rs:286-289 | the removed key's index, with the vector swap-removed there and the key gone from the map |
| KeyIndexMapping.KeyIndexMapper.SwapRemoveKeyAtIdx | engine/crates/impact_containers/src/key_index_mapper.rs:297-304 | removes the key at the index, re-points the last key at that index and leaves every other key's index unchanged |
| KeyIndexMapping.KeyIndexMapper.Clear | engine/crates/impact_containers/src/key_index_mapper.rs:307-310 | empties both the map and the vector |
| LegacyModel.NotApplicableIsNotApplicable | src/model.rs:676-690 | the older not-applicable ID (zero hash, usize::MAX, which is u64::MAX on 64-bit targets) is recognised by is_not_applicable |
| LegacyModel.FeaturesForBuffer | src/model.rs:533-585 | one value per instance: the lone stored feature repeated when one ID stands for several instances, else the stored value of each ID in order |
| LegacyModel.BufferedInstance | src/model.rs:479-512 | every buffer gains exactly one feature: the transform in buffer 0 and the stored value of the i-th feature ID in buffer i + 1; buffer types are kept |
| LegacyModel.BufferedMultipleInstances | src/model.rs:533-585 | buffer 0 gains the transforms and buffer i + 1 the features chosen for its ID list; buffer types are kept |
| LegacyModel.BufferedMultipleInstancesGrowsUniformly | src/model.rs:533-585 | buffering several instances adds one feature per instance to every buffer of the model, keeping the buffers aligned |
| LegacyModel.StoredFeatures | src/model.rs:1083-1091 | the stored value of each feature ID, in order |
| LegacyModel.AppendInstance | src/model.rs:479-512 | the loop over the model's buffers produces the buffers of one buffered instance |
| LegacyModel.FeaturesToBuffer | src/model.rs:533-585 | the features pushed onto one buffer are those chosen for its ID list and instance count |
| LegacyModel.AppendMultipleInstances | src/model.rs:533-585 | the loop over the model's buffers produces the buffers of several buffered instances |
| LegacyModel.InstanceFeatureManager.constructor | src/model.rs:268-273 | no feature storages and no model entries |
| LegacyModel.InstanceFeatureManager.RegisterFeatureType | src/model.rs:404-408 | a storage for the type exists afterwards; an existing storage and every model entry are kept |
| LegacyModel.InstanceFeatureManager.RegisterInstanceWithFeatureTypeIds | src/model.rs:644-671 | the first instance creates empty buffers for the transform and the given types with count one; a later instance increments the count and keeps the buffers |
| LegacyModel.InstanceFeatureManager.RegisterInstance | src/model.rs:418-442 | registers with the material's feature types; a prepass material with feature types must use the same ones |
| LegacyModel.InstanceFeatureManager.UnregisterInstance | src/model.rs:450-464 | the count drops by one and the entry is removed when it reaches zero; a model without an entry panics |
| LegacyModel.InstanceFeatureManager.BufferInstance | src/model.rs:479-512 | the model's buffers become those of one buffered instance; nothing else changes |
| LegacyModel.InstanceFeatureManager.BufferMultipleInstances | src/model.rs:533-585 | the model's buffers become those of several buffered instances; nothing else changes |
| LegacyModel.InstanceFeatureManager.BufferInstanceTransform | src/model.rs:592-609 | only the model's transform buffer changes, gaining the transform |
| LegacyModel.InstanceFeatureManager.BufferMultipleInstanceTransforms | src/model.rs:616-633 | only the model's transform buffer changes, gaining the transforms in order |
| LegacyModel.InstanceFeatureManager.ClearStoragesAndBuffers | src/model.rs:637-642 | forgets every model and empties every storage, keeping the registered feature types |
| LegacyChunkedVoxelObjects.LegacyChunkForVoxels | engine/src/voxel/chunks.rs:1059-1094 | Empty exactly when every voxel matches an empty first voxel; Uniform exactly when they all match a non-empty first voxel, which then carries full adjacency; otherwise NonUniform with no flags and the face distributions of its empty voxels |
| LegacyChunkedVoxelObjects.LegacyChunkEmptiness | engine/src/voxel/chunks.rs:1059-1097 | an Empty chunk holds only empty voxels and a Uniform one only non-empty ones, so a chunk holds only empty voxels exactly when it is Empty |
| LegacyChunkedVoxelObjects.ChunkVoxels | engine/src/voxel/chunks.rs:1012-1027 | the chunk's 4096 voxels in in-chunk linear order, starting at its origin |
| LegacyChunkedVoxelObjects.PushChunkVoxels | engine/src/voxel/chunks.rs:1029-1057 | the voxel loop pushes the chunk's voxels onto the vector and reports whether all match the first and the face counts of empty voxels |
| LegacyChunkedVoxelObjects.GenerateChunk | engine/src/voxel/chunks.rs:1002-1094 | the chunk is the classified chunk numbered with the next uniform index or the data offset of the old vector length; its voxels stay pushed exactly when it is non-uniform |
| LegacyChunkedVoxelObjects.LegacyGeneratedEmptiness | engine/src/voxel/chunks.rs:1059-1097 | every generated chunk is Empty exactly when it holds only empty voxels |
| LegacyChunkedVoxelObjects.OccupiedRangesInGridAndCovering | engine/src/voxel/chunks.rs:230-253 | the folded occupied ranges lie in the grid and hold every non-empty chunk |
| LegacyChunkedVoxelObjects.GenerateChunks | engine/src/voxel/chunks.rs:230-253 | the generation loop yields the numbered generated chunks, the blocks of the non-uniform chunks in order, the two counts and the occupied-range folds |
| LegacyChunkedVoxelObjects.GenerationOutcome | engine/src/voxel/chunks.rs:255-259 | some folded range is empty exactly when every chunk is empty; otherwise the result is a valid object with tight ranges |
| LegacyChunkedVoxelObjects.GenerateWithoutDerivedState | engine/src/voxel/chunks.rs:206-283 | None exactly for a grid with a zero dimension or when every chunk is empty; otherwise a valid object of the generated chunks, numbered in order, with their voxel blocks and the tight occupied ranges |
| LegacyChunkedVoxelObjects.BoxStepOf | engine/src/voxel/chunks.rs:581-583 | the nested loops over the ranges visit every chunk inside them |
| LegacyChunkedVoxelObjects.ExtentAfterBounds | engine/src/voxel/chunks.rs:581-596 | the tracked extent is found exactly when a non-empty chunk was visited and bounds every such chunk |
| LegacyChunkedVoxelObjects.ShrunkRanges | engine/src/voxel/chunks.rs:577-609 | the new ranges from the lower to one past the upper indices of the non-Empty chunks inside the old ranges, or 0..0 |
| LegacyChunkedVoxelObjects.ShrunkRangesValid | engine/src/voxel/chunks.rs:577-609 | the shrunk ranges lie in the grid, still hold every non-Empty chunk, and are 0..0 exactly when every chunk is Empty |
| LegacyChunkedVoxelObjects.ShrinkKeepsValidState | engine/src/voxel/chunks.rs:577-609 | replacing a valid object's ranges by the shrunk ones keeps it valid |
| LegacyChunkedVoxelObjects.ShrunkRangesTight | engine/src/voxel/chunks.rs:577-609 | along every dimension a non-Empty chunk sits at the start and at the last index of the new range |
| LegacyChunkedVoxelObjects.UniformChunkNotEffectivelyEmpty | engine/src/voxel/chunks.rs:401-435 | a uniform chunk inside the ranges makes the object not effectively empty |
| LegacyChunkedVoxelObjects.EmptyBoxCountsNothing | engine/src/voxel/chunks.rs:401-435 | when every chunk inside the ranges is Empty, no non-empty voxel is counted |
| LegacyChunkedVoxelObjects.ShrunkEmptyObjectIsEffectivelyEmpty | engine/src/voxel/chunks.rs:401-435 | once the ranges are shrunk, an object whose chunks are all Empty is effectively empty |
| LegacyChunkedVoxelObjects.ComputeShrunkRanges | engine/src/voxel/chunks.rs:577-603 | the loops over the old ranges compute the shrunk ranges |
| LegacyChunkedVoxelObjects.CountEffectivelyEmpty | engine/src/voxel/chunks.rs:401-435 | more than 8 chunks in the ranges is not empty, none is empty, otherwise the non-empty voxel count is compared with the threshold |
| LegacyChunkedVoxelObjects.SumNonEmptyVoxelCounts | engine/src/voxel/chunks.rs:413-432 | the loops add 0 for an Empty chunk, 4096 for a uniform one and the non-empty voxels of a non-uniform one |
| LegacyChunkedVoxelObjects.LegacyChunkedVoxelObject.Init | engine/src/voxel/chunks.rs:267-282 | the object built from a valid state holds exactly that state |
| LegacyChunkedVoxelObjects.LegacyChunkedVoxelObject.StoredVoxelCountOfObject | engine/src/voxel/chunks.rs:380-385 | the sum over the chunks equals the voxel vector's length plus the number of uniform chunks |
| LegacyChunkedVoxelObjects.LegacyChunkedVoxelObject.GetChunk | engine/src/voxel/chunks.rs:536-553 | indices outside the occupied ranges, negative ones included, give an empty chunk |
| LegacyChunkedVoxelObjects.LegacyChunkedVoxelObject.GetChunkMatchesGrid | engine/src/voxel/chunks.rs:536-553 | bounding the lookup by the occupied ranges loses nothing: inside the grid it returns the grid's chunk, outside an empty one |
| LegacyChunkedVoxelObjects.LegacyChunkedVoxelObject.ShrinkOccupiedRanges | engine/src/voxel/chunks.rs:577-609 | the ranges become the shrunk ones and the voxel ranges follow; chunks, voxels and counts are kept and the object stays valid |
| LegacyChunkedVoxelObjects.LegacyChunkedVoxelObject.IsEffectivelyEmpty | engine/src/voxel/chunks.rs:401-435 | true exactly when the object is effectively empty by the specification predicate |
| LegacyVoxelTree.VoxelTreeNodeStorage.constructor | src/geometry/voxel.rs:1090-1096 | no nodes, no IDs and the ID counter at 0 |
| LegacyVoxelTree.VoxelTreeNodeStorage.NNodes | src/geometry/voxel.rs:1098-1100 | the number of stored nodes |
| LegacyVoxelTree.VoxelTreeNodeStorage.HasNode | src/geometry/voxel.rs:1102-1104 | true exactly when a node is stored under the ID |
| LegacyVoxelTree.VoxelTreeNodeStorage.Node | src/geometry/voxel.rs:1106-1109 | the node stored under the ID; a missing ID panics |
| LegacyVoxelTree.VoxelTreeNodeStorage.NodeAtIdx | src/geometry/voxel.rs:1111-1113 | the node of the ID whose key sits at that dense position |
| LegacyVoxelTree.VoxelTreeNodeStorage.CreateNewNodeId | src/geometry/voxel.rs:1144-1148 | issues the counter's value, which no stored node uses, and advances it |
| LegacyVoxelTree.VoxelTreeNodeStorage.AddNode | src/geometry/voxel.rs:1132-1137 | stores the node under a newly issued ID that no stored node had, appending it |
| LegacyVoxelTree.VoxelTreeNodeStorage.RemoveNode | src/geometry/voxel.rs:1139-1142 | swap-removes the node; every other node keeps its ID and the counter is kept |
| LegacyVoxelTree.VoxelTreeExternalNode.constructor | src/geometry/voxel.rs:1229-1237 | every face fully exposed, no adjacent voxels, with the given type, indices and scale |
| LegacyVoxelTree.VoxelTreeExternalNode.HasFullyObscuredFace | src/geometry/voxel.rs:1264-1268 | true exactly when some face is fully obscured |
| LegacyVoxelTree.ObscuredFaceQueriesAgree | src/geometry/voxel.rs:1255-1275 | a node with only fully obscured faces has a fully obscured face, and a node of positive scale with only fully exposed faces has none |
| LegacyVoxelTree.CheckChild | src/geometry/voxel.rs:1380-1404 | a present child sets the has-children flag; the common type survives only while every child is external and of that type, and is fixed by the first such child |
| LegacyVoxelTree.ClassifyChildren | src/geometry/voxel.rs:1339-1376 | the flags folded over the children by check_child give the level's outcome: no children, collapse to the common type, or an internal node |
| LegacyVoxelTree.Build | src/geometry/voxel.rs:1329-1378 | a collapsed or bottom-level external build node covers exactly the node it was built at |
| LegacyVoxelTree.BuildIsNoneIffRegionEmpty | src/geometry/voxel.rs:1329-1378 | building yields nothing exactly when the node's region holds no voxel |
| LegacyVoxelTree.BuildCollapsesIffRegionUniform | src/geometry/voxel.rs:1329-1404 | building yields a single external node of type t exactly when every voxel of the region exists and has type t, so uniform blocks are merged |
| MaterialValues.FixedFromProperties | engine/crates/impact_material/src/values.rs:243-250 | a fixed colour exactly when one is given, holding that colour |
| MaterialValues.PhysicalFromProperties | engine/crates/impact_material/src/values.rs:290-342 | the variant has a uniform colour exactly when one is given and is parallax mapped exactly when a parallax map is given, carrying each given property |
| MaterialValues.PhysicalFromPropertiesRoundTrip | engine/crates/impact_material/src/values.rs:290-342 | building from properties and reading them back are inverse in both directions |
| MaterialValues.IsFixed | engine/crates/impact_material/src/values.rs:181-183 | fixed exactly when not physical |
| MaterialValues.Flags | engine/crates/impact_material/src/values.rs:192-197 | the colour flag marks a uniform colour, the parallax flag marks parallax mapping, and no other bit is set |
| MaterialValues.FlagsReflectProperties | engine/crates/impact_material/src/values.rs:243-355 | the flags of values built from properties report exactly which optional properties were given |
| MaterialValues.InstanceFeatureTypeId | engine/crates/impact_material/src/values.rs:202-207 | with distinct registered type IDs, the not-applicable type ID comes exactly from fixed values without colour |
| MaterialValues.TypeIdIdentifiesVariant | engine/crates/impact_material/src/values.rs:202-207 | two values share a feature type ID exactly when they are of the same variant |
| MaterialValues.InstanceFeatureTypeIdIfApplicable | engine/crates/impact_material/src/values.rs:213-220 | none exactly when the type ID is the not-applicable one, which happens exactly for fixed values without colour |
| MaterialValues.LocationValue | engine/crates/impact_material/src/values.rs:143-151 | the seven feature locations take consecutive values from the material start, in declaration order |
| MaterialValues.LocationValuesAreDistinct | engine/crates/impact_material/src/values.rs:143-151 | different feature locations never share a value |
| MaterialValues.FeatureAttributesMatchFlags | engine/crates/impact_material/src/values.rs:397-446 | each value's attribute list has the colour attribute exactly when the colour flag is set, the parallax attributes exactly when parallax mapping is, the physical attributes exactly for physical values, is empty exactly when there is no feature type, and lists locations in increasing order |
| Materials.TextureAndSamplerBindings | engine/src/material.rs:184-188 | the texture binding is even, truncated to 32 bits, and the sampler binding follows it; below the 32-bit limit texture i is bound at 2i |
| Materials.BindingsAreDistinct | engine/src/material.rs:184-188 | while the bindings fit in 32 bits, no two textures of a group share a texture or sampler binding |
| Materials.MaterialHandle.MaterialPropertyFeatureId | engine/src/material.rs:448-454 | none exactly for the not-applicable feature ID, and otherwise the stored ID |
| Materials.MaterialHandle.MaterialPropertyTextureGroupId | engine/src/material.rs:458-464 | none exactly for the empty texture group, and otherwise the stored ID |
| Materials.MaterialHandle.ComputeHash | engine/src/material.rs:467-478 | the material ID's hash alone when the texture group is empty, and otherwise combined with the texture group's hash |
| Materials.NewHandle | engine/src/material.rs:410-425 | keeps the material ID, and stores absent parts as the not-applicable feature ID and the empty texture group |
| Materials.NotApplicableHandle | engine/src/material.rs:427-434 | a handle that is not applicable and has neither a feature nor a texture group |
| Materials.NewHandleAccessorsRoundTrip | engine/src/material.rs:410-464 | the accessors give back what the handle was created with, except that absent parts and the sentinel values both come back as none |
| Materials.HashIgnoresFeatureWithoutTextures | engine/src/material.rs:467-478 | handles with the same material and no textures hash alike, whatever their feature IDs |
| Materials.Retained | engine/src/material.rs:357-366 | keeps exactly the entries whose keys are in the set, unchanged |
| Materials.RetainUndoesAdditions | engine/src/material.rs:357-366 | when a map only gained entries, keeping the old keys restores the old map |
| Materials.MaterialLibrary.constructor | engine/src/material.rs:261-266 | an empty library |
| Materials.MaterialLibrary.RecordState | engine/src/material.rs:270-279 | the recorded state holds exactly the IDs present in the library |
| Materials.MaterialLibrary.GetMaterialSpecification | engine/src/material.rs:297-302 | the specification stored under the ID, and none exactly when there is none |
| Materials.MaterialLibrary.GetTextureGroup | engine/src/material.rs:306-311 | the texture group stored under the ID, and none exactly when there is none |
| Materials.MaterialLibrary.AddMaterialSpecification | engine/src/material.rs:334-341 | inserts the specification, overwriting any with the same ID, and leaves the texture groups |
| Materials.MaterialLibrary.AddTextureGroup | engine/src/material.rs:346-353 | inserts the texture group, overwriting any with the same ID, and leaves the specifications |
| Materials.MaterialLibrary.MaterialSpecificationOrInsert | engine/src/material.rs:315-320 | an existing specification is kept and returned; otherwise the given one is inserted and returned |
| Materials.MaterialLibrary.ResetToState | engine/src/material.rs:357-366 | keeps exactly the specifications and texture groups whose IDs the state holds |
| Materials.RecordAddReset | engine/src/material.rs:270-366 | recording the state, adding under a new ID and resetting restores the library exactly |
| MetaSDF.ChildIds | engine/crates/impact_voxel/src/generation/sdf/meta.rs:755-836 | a node has at most two children, listed in the order the build visits them |
| MetaSDF.ChildrenBelowListed | engine/crates/impact_voxel/src/generation/sdf/meta.rs:755-836 | a node's children are all below a bound exactly when every listed child is |
| MetaSDF.NonNegative | engine/crates/impact_voxel/src/generation/sdf/meta.rs:1407 | the smoothness clamp is never negative and leaves a non-negative value unchanged |
| MetaSDF.CompositionModeFromStr | engine/crates/impact_voxel/src/generation/sdf/meta.rs:2318-2326 | accepts exactly "Pre" and "Post", naming the variant parsed; anything else is the invalid-variant error quoting the input |
| MetaSDF.SphereSurfaceRotationFromStr | engine/crates/impact_voxel/src/generation/sdf/meta.rs:2328-2336 | accepts exactly "Identity" and "Radial", naming the variant parsed; anything else is the invalid-variant error quoting the input |
| MetaSDF.ParsersInvertNames | engine/crates/impact_voxel/src/generation/sdf/meta.rs:2318-2336 | parsing a variant's own name gives that variant back |
| MetaSDF.TagIdentifiesKind | engine/crates/impact_voxel/src/generation/sdf/meta.rs:918-996 | two nodes share a seed tag exactly when they are of the same kind |
| MetaSDF.StableSeedReadsOnlyChildren | engine/crates/impact_voxel/src/generation/sdf/meta.rs:887-997 | a stable seed depends only on the node and the stable seeds of its own children |
| MetaSDF.CommutativeSeedsIgnoreChildOrder | engine/crates/impact_voxel/src/generation/sdf/meta.rs:911-917 | union and intersection seeds do not change when their children are swapped, whatever the smoothness |
| MetaSDF.SubtractionSeedKeepsChildOrder | engine/crates/impact_voxel/src/generation/sdf/meta.rs:903-909 | the subtraction seed changes when its children are swapped, whenever the mixer tells the two orders apart |
| MetaSDF.ResolveUnion | engine/crates/impact_voxel/src/generation/sdf/meta.rs:1373-1413 | two single-SDF inputs are required; the result is missing only when both are, a missing input yields the other one, and two present inputs append one union node that becomes the output |
| MetaSDF.ResolveSubtraction | engine/crates/impact_voxel/src/generation/sdf/meta.rs:1415-1454 | two single-SDF inputs are required; a missing first input makes the result missing, a missing second leaves the first, and two present inputs append one subtraction node |
| MetaSDF.ResolveIntersection | engine/crates/impact_voxel/src/generation/sdf/meta.rs:1456-1494 | two single-SDF inputs are required; either input missing makes the result missing, and two present inputs append one intersection node |
| MetaSDF.MissingInputPropagation | engine/crates/impact_voxel/src/generation/sdf/meta.rs:1373-1494 | a missing SDF is the identity of union on either side, absorbs intersection on either side, and absorbs subtraction as its first input while being its identity as the second |
| MetaSDF.ResolvePrimitive | engine/crates/impact_voxel/src/generation/sdf/meta.rs:1083-1190 | failure only when parameter sampling fails; otherwise one primitive node is appended and becomes the single output, keeping the graph sound |
| MetaSDF.UnarySDFGroupOp | engine/crates/impact_voxel/src/generation/sdf/meta.rs:2369-2382 | one modifier node per input, appended in input order, with output i the i-th new node; the first failed sampling aborts the whole group |
| MetaSDF.ResolveSDFModifier | engine/crates/impact_voxel/src/generation/sdf/meta.rs:2338-2367 | a missing SDF stays missing, a single SDF gets one modifier node, each SDF of a group gets one; any other input is the unexpected-input error |
| MetaSDF.ReducedSize | engine/crates/impact_voxel/src/generation/sdf/meta.rs:2428-2447 | the pairwise reduction adds one node per leaf but one, keeps the graph it started from, and leaves one entry exactly when there were leaves |
| MetaSDF.ReduceStepCovers | engine/crates/impact_voxel/src/generation/sdf/meta.rs:2439-2444 | popping two nodes and pushing their union keeps the multiset of leaves the queue covers |
| MetaSDF.ReducedCovers | engine/crates/impact_voxel/src/generation/sdf/meta.rs:2428-2447 | the reduction ends in a single union tree covering every leaf exactly once |
| MetaSDF.ReducedSmoothness | engine/crates/impact_voxel/src/generation/sdf/meta.rs:1510-1519 | every node the reduction adds is a union with the given smoothness |
| MetaSDF.EmitBalancedUnionTree | engine/crates/impact_voxel/src/generation/sdf/meta.rs:2428-2447 | the loop agrees with the reduction: no root exactly when there are no leaves, a single leaf is its own root, and otherwise a root whose tree covers each leaf once |
| MetaSDF.ResolveGroupUnion | engine/crates/impact_voxel/src/generation/sdf/meta.rs:1496-1532 | a single SDF passes through; a group becomes one union tree of non-negative smoothness covering each member once, missing exactly when the group is empty; other inputs are errors |
| MetaSDF.ApplyTransformRoundTrip | engine/crates/impact_voxel/src/generation/sdf/meta.rs:2226-2247 | applying a transform adds one node per non-identity component, and reading the chain back gives the original SDF and the transform |
| MetaSDF.AppliedToRoundTrip | engine/crates/impact_voxel/src/generation/sdf/meta.rs:2255-2259 | output j of applying every transform to one SDF reads back as that SDF under transform j |
| MetaSDF.PairsLength | engine/crates/impact_voxel/src/generation/sdf/meta.rs:2251-2259 | there are as many outputs as SDFs times transforms |
| MetaSDF.PairAt | engine/crates/impact_voxel/src/generation/sdf/meta.rs:2255-2259 | output i·T + j pairs SDF i with transform j, SDF-major |
| MetaSDF.AppliedPairsRoundTrip | engine/crates/impact_voxel/src/generation/sdf/meta.rs:2255-2259 | every output decodes to its SDF and transform, pairwise in SDF-major order |
| MetaSDF.ApplyAllTransforms | engine/crates/impact_voxel/src/generation/sdf/meta.rs:2256-2258 | the inner loop equals applying each transform in order to the one SDF |
| MetaSDF.ResolveTransformApplication | engine/crates/impact_voxel/src/generation/sdf/meta.rs:2182-2263 | inputs of the wrong kind are errors, the SDF input checked first; otherwise a group of every transform applied to every SDF, SDF-major, each decoding back to its pair |
| MetaSDF.PairsOutputIn | engine/crates/impact_voxel/src/generation/sdf/meta.rs:2182-2263 | the resolved application extends the graph soundly and names only nodes of the extension |
| MetaSDFBuild.ResolveTransformSource | engine/crates/impact_voxel/src/generation/sdf/meta.rs:1534-1682 | a transform source fails only when its parameter sampling fails, and otherwise yields its sampled transforms as a group |
| MetaSDFBuild.UnaryTransformGroupOp | engine/crates/impact_voxel/src/generation/sdf/meta.rs:2414-2426 | one output transform per input, in input order; the first failed sampling aborts the group |
| MetaSDFBuild.ResolveTransformOp | engine/crates/impact_voxel/src/generation/sdf/meta.rs:2384-2412 | a missing transform stays missing, a single transform is transformed, a group keeps its length; any other input is the unexpected-input error |
| MetaSDFBuild.AdjustedNode | engine/crates/impact_voxel/src/generation/sdf/meta.rs:1840-1843 | the adjusted node takes the subject as its only input |
| MetaSDFBuild.SurfaceHits | engine/crates/impact_voxel/src/generation/sdf/meta.rs:1853-1868 | the hits are subjects of the group, in order, each with the adjustment the surface computation found for it |
| MetaSDFBuild.AdjustSubjects | engine/crates/impact_voxel/src/generation/sdf/meta.rs:1853-1868 | the loop appends one adjusted node per hit, in order, with output k the k-th new node; misses are skipped |
| MetaSDFBuild.AdjustedTransforms | engine/crates/impact_voxel/src/generation/sdf/meta.rs:1893-1905 | at most one adjusted transform per subject transform |
| MetaSDFBuild.AdjustTransforms | engine/crates/impact_voxel/src/generation/sdf/meta.rs:1893-1905 | the loop output equals the adjusted transforms of the group, misses skipped |
| MetaSDFBuild.ResolveSurfaceOp | engine/crates/impact_voxel/src/generation/sdf/meta.rs:1779-2180 | a surface input that is not a single SDF is an error; a missing surface or missing single subject passes the subject through; otherwise the output keeps the subject's kind, a group never grows, and the graph stays sound |
| MetaSDFBuild.AdjustedKeepsSound | engine/crates/impact_voxel/src/generation/sdf/meta.rs:1853-1868 | the nodes the group loop adds refer only to existing subjects |
| MetaSDFBuild.Kept | engine/crates/impact_voxel/src/generation/sdf/meta.rs:2297-2301 | the kept entries are among the group's entries, at most as many as were picked |
| MetaSDFBuild.SelectFromGroup | engine/crates/impact_voxel/src/generation/sdf/meta.rs:2297-2301 | the loop output is the picked entries that pass the probability test, in pick order |
| MetaSDFBuild.ResolveStochasticSelection | engine/crates/impact_voxel/src/generation/sdf/meta.rs:2265-2316 | the output keeps the input's kind, a single entry survives only when selected, a group becomes its kept picks; it never fails and names nothing new |
| MetaSDFBuild.Resolve | engine/crates/impact_voxel/src/generation/sdf/meta.rs:1000-1081 | each node kind dispatches to its own resolution; errors are node errors, and a sound graph with sound child outputs takes a sound step |
| MetaSDFBuild.ChildVisits | engine/crates/impact_voxel/src/generation/sdf/meta.rs:755-836 | the visits pushed for a node are exactly visits of its children |
| MetaSDFBuild.CycleWitness | engine/crates/impact_voxel/src/generation/sdf/meta.rs:746-749 | meeting a node whose children are being visited means a walk from the root returns to a node on it, so the reachable graph is not acyclic |
| MetaSDFBuild.MissingWitness | engine/crates/impact_voxel/src/generation/sdf/meta.rs:737-740 | a visit of a node ID past the end comes from a child reference of some node, so the reachable graph is not well formed |
| MetaSDFBuild.OrderGivesSoundReach | engine/crates/impact_voxel/src/generation/sdf/meta.rs:733-855 | a resolved root with a topological resolution order has a sound, acyclic reachable part |
| MetaSDFBuild.FinishBuild | engine/crates/impact_voxel/src/generation/sdf/meta.rs:857-867 | a root output that is not a single SDF is an error; a missing SDF gives an empty graph; otherwise the SDF becomes the root of a sound graph |
| MetaSDFBuild.StartInvariant | engine/crates/impact_voxel/src/generation/sdf/meta.rs:717-731 | the initial stack, states and outputs satisfy the build invariant |
| MetaSDFBuild.StepVisitResolved | engine/crates/impact_voxel/src/generation/sdf/meta.rs:743-745 | dropping the visit of a resolved node keeps the invariant |
| MetaSDFBuild.StepVisitUnvisited | engine/crates/impact_voxel/src/generation/sdf/meta.rs:750-836 | expanding an unvisited node keeps the invariant and reduces the unvisited count |
| MetaSDFBuild.StepProcess | engine/crates/impact_voxel/src/generation/sdf/meta.rs:839-842 | the node processed has all its children resolved with outputs in the graph, and marking it resolved keeps the invariant |
| MetaSDFBuild.StepResolved | engine/crates/impact_voxel/src/generation/sdf/meta.rs:851-852 | recording a sound resolution keeps the invariant |
| MetaSDFBuild.VisitStep | engine/crates/impact_voxel/src/generation/sdf/meta.rs:734-838 | a visit step fails only on a cycle or a missing node, each witnessed in the graph, and otherwise keeps the invariant and makes progress |
| MetaSDFBuild.ProcessStep | engine/crates/impact_voxel/src/generation/sdf/meta.rs:839-853 | a process step fails only with a node error, and otherwise resolves the node, grows the graph and keeps the invariant |
| MetaSDFBuild.MetaSDFGraph.constructor | engine/crates/impact_voxel/src/generation/sdf/meta.rs:687-692 | an empty graph with the given seed |
| MetaSDFBuild.MetaSDFGraph.AddNode | engine/crates/impact_voxel/src/generation/sdf/meta.rs:701-705 | the new node's ID is the previous node count, which must fit a u32, and the node is appended |
| MetaSDFBuild.MetaSDFGraph.Build | engine/crates/impact_voxel/src/generation/sdf/meta.rs:707-868 | an empty graph builds to an empty atomic graph; once the walk completes, the result is decided by the root's output (an error unless it is a single SDF, an empty graph for a missing SDF). The order in which nodes were resolved holds the root and resolves each node after its children. Success gives a sound graph whose root exists exactly when it is non-empty, and a reachable part that is acyclic. A cycle or missing node is reported only when the reachable part is unsound |
| MetaSDFBuild.OrderCoversReachable | engine/crates/impact_voxel/src/generation/sdf/meta.rs:733-855 | every node on a walk from the root is in the resolution order, and a node further down the walk was resolved before one above it |
| Octree.FaceIdx | src/geometry/voxel.rs:136-145 | the six faces take slots 0 to 5, two per axis with the lower side first |
| Octree.OppositeFace | src/geometry/voxel.rs:1315-1326 | the opposite face lies on the same axis and the other side |
| Octree.OppositeFaceIsInvolution | src/geometry/voxel.rs:1315-1326 | taking the opposite face twice gives the face back, and no face is its own opposite |
| Octree.FaceIdxInjective | src/geometry/voxel.rs:136-145 | distinct faces occupy distinct slots |
| Octree.NextPowerOfTwo | src/voxel/tree.rs:894-902 | the least power of two that is at least n |
| Octree.HeightFromShape | src/voxel/tree.rs:894-903 | the least height whose grid of 2^height voxels per axis covers the largest extent of the shape |
| Octree.NextPowerOfTwoExponent | src/voxel/tree.rs:942-944 | the trailing zeros of the next power of two of n are the least e with n at most 2^e |
| Octree.HeightFromShapeExamples | src/voxel/tree.rs:894-903 | shapes (1,1,1), (3,1,1) and (2,2,3) give heights 0, 2 and 2 |
| Octree.HeightIsLeastCover | src/voxel/tree.rs:894-903 | the height is unique: only one h has 2^(h-1) below the extent and 2^h at least it |
| Octree.HeightToDepth | src/voxel/tree.rs:926-932 | depth and height add up to the tree height; the checked subtraction panics above it |
| Octree.GridSizeAtDepth | src/voxel/tree.rs:934-936 | the grid size at a depth is 2 to the power of that depth |
| Octree.VoxelScaleAtDepth | src/voxel/tree.rs:918-920 | the voxel scale at a depth is 2 to the power of the height at that depth |
| Octree.ScaleTimesGridSizeIsBottomGridSize | src/voxel/tree.rs:918-936 | the voxel scale at any depth times the grid size there is the bottom grid size |
| Octree.AtRoot | src/voxel/tree.rs:1734-1736 | valid indices at depth 0 |
| Octree.ForNextDepth | src/voxel/tree.rs:1750-1770 | eight children (2i + a, 2j + b, 2k + c), with k varying fastest; panics past the bottom |
| Octree.ChildrenOfNode | src/voxel/tree.rs:1750-1770 | every child is valid, halving its indices gives the node, and it sits at the slot its low bits name, so the eight are distinct |
| Octree.VoxelScaleAndIndices | src/voxel/tree.rs:1784-1793 | the node's voxel scale and the bottom-grid indices of its lower corner |
| Octree.ChildRegionWithinParent | src/voxel/tree.rs:1750-1793 | a child's voxel is half its parent's, with its corner moved by one child scale along each axis whose child bit is set |
| Octree.OctantIdx | src/voxel/tree.rs:1912-1915 | the octant's discriminant, below 8 |
| Octree.OctantFromSides | src/voxel/tree.rs:1895-1904 | the octant index has the upper-half bits of i, j and k as its bits 2, 1 and 0 |
| Octree.HalveBlock | src/voxel/tree.rs:1868-1893 | one level down the block halves: the side test reads the next bit and the dividing line moves by a quarter of the block |
| Octree.AxisStep | src/voxel/tree.rs:1873-1893 | with m levels to go, the side test reads bit m - 1 of the index and the moved dividing line divides the half at the next level |
| Octree.OctantPathReachesVoxel | src/voxel/tree.rs:1750-1909 | following a voxel's octant path from the root through for_next_depth arrives at that voxel at the bottom |
| Octree.OctantPathsIdentifyVoxels | src/voxel/tree.rs:1805-1909 | distinct voxels of the grid have distinct octant paths |
| Octree.HeightOneOctants | src/voxel/tree.rs:166-175 | in a tree of height 1 each voxel is its own octant, as the octant enumeration names them |
| Octree.IteratorStep | src/voxel/tree.rs:1868-1909 | one call of next that does not stop yields the octant of the path at the current depth and leaves the state of the next depth |
| Octree.OctantIterator.New | src/voxel/tree.rs:1847-1862 | None exactly when the indices lie outside the grid of 2^height voxels per axis; otherwise an iterator at the root |
| Octree.OctantIterator.Next | src/voxel/tree.rs:1868-1909 | the next octant of the path, or None once every octant was yielded |
| Octree.OctantPath | src/voxel/tree.rs:1805-1807 | None outside the grid, otherwise the tree height's octants from the root to the voxel, which lead to it |
| Postprocessing.ToneMappingIdx | src/scene/postprocessing.rs:116 | each tone mapping has exactly one position in the list of all tone mappings |
| Postprocessing.CycleHasPeriodThree | src/scene/postprocessing.rs:132-138 | cycling moves to the next mapping in list order, never stays put, and returns after exactly three steps |
| Postprocessing.AmbientOcclusionPasses | src/scene/postprocessing.rs:172-187 | three passes: the unoccluded fallback application, then the occlusion computation, then its application |
| Postprocessing.ToneMappingPasses | src/scene/postprocessing.rs:242-254 | one tone mapping pass per tone mapping, in list order, each reading the luminance attachment |
| Postprocessing.SetupBloomPasses | src/scene/postprocessing.rs:189-240 | one passthrough pass and two blur passes per iteration, each at its place in the bloom chain |
| Postprocessing.BloomChainIsConnected | src/scene/postprocessing.rs:189-240 | without iterations the passthrough copies emissive luminance into luminance; otherwise the first blur reads emissive luminance, each blur feeds the next with alternating directions, and the last writes luminance vertically |
| Postprocessing.Postprocessor.constructor | src/scene/postprocessing.rs:60-86 | the toggles start as configured, with the given tone mapping and a bloom chain for the configured iteration count |
| Postprocessing.Postprocessor.RenderPasses | src/scene/postprocessing.rs:94-102 | the ambient occlusion passes, then the bloom passes, then the tone mapping passes, with three occlusion passes asserted |
| Postprocessing.Postprocessor.RenderPassStates | src/scene/postprocessing.rs:106-119 | one state per pass: exactly one of the unoccluded and occluded ambient paths runs, exactly one of the bloom passthrough and blur chain runs, and exactly the current tone mapping pass runs |
| Postprocessing.Postprocessor.StatesMatchPasses | src/scene/postprocessing.rs:94-119 | each state says exactly whether the pass at the same position should run under the current toggles |
| Postprocessing.Postprocessor.ToggleAmbientOcclusion | src/scene/postprocessing.rs:122-124 | flips the ambient occlusion toggle and nothing else |
| Postprocessing.Postprocessor.ToggleBloom | src/scene/postprocessing.rs:127-129 | flips the bloom toggle and nothing else |
| Postprocessing.Postprocessor.CycleToneMapping | src/scene/postprocessing.rs:132-138 | moves to the next tone mapping and changes nothing else |
| Postprocessing.ToggleAndCycleRoundTrips | src/scene/postprocessing.rs:122-138 | toggling twice restores each toggle, and cycling three times restores the tone mapping |
| RocIntegration.HashedFromStr | roc_integration/src/lib.rs:163-168 | the ID is never zero: the FNV-1a hash of the input, with a zero hash replaced by one |
| RocIntegration.FromU64AsU64RoundTrip | roc_integration/src/lib.rs:170-176 | converting a value to an ID and back, or an ID to a value and back, gives what was started with |
| RocIntegration.FlagQueriesReadOwnBit | roc_integration/src/lib.rs:234-256 | the POD flag bit and the component flag bit are read by their own queries only; setting a flag makes its query true and clearing it makes it false |
| RocIntegration.AlignmentAsPodStruct | roc_integration/src/lib.rs:271-278 | an alignment exactly for POD structs, and then the struct's own alignment |
| RocIntegration.PrecisionTypeVariable | roc_integration/src/lib.rs:414-422 | Binary32 for single precision, Binary64 for double, and none exactly when precision is irrelevant |
| RocIntegration.TypeVariable | roc_integration/src/lib.rs:401-412 | only a library-provided primitive has a type variable, so a builtin never has one |
| RocIntegration.WritePackageToPath | roc_integration/src/lib.rs:379-387 | appends the package prefix, which is empty for a type of the current package |
| RocIntegration.WriteParentModulesToPath | roc_integration/src/lib.rs:389-394 | appends each parent module followed by a dot |
| RocIntegration.WriteModuleToPath | roc_integration/src/lib.rs:396-399 | appends the module name and a dot |
| RocIntegration.ImportPath | roc_integration/src/lib.rs:282-288 | builds the import path of the type as seen from the current package |
| RocIntegration.ImportPathPackageQualification | roc_integration/src/lib.rs:282-288 | inside its own package the import path is the parent modules and the module; from another package it is that package, a dot and the same path; it always ends with the module name |
| RocIntegration.QualifiedTypeName | roc_integration/src/lib.rs:295-319 | builds the qualified type name for the usage |
| RocIntegration.QualifiedTypeNameCases | roc_integration/src/lib.rs:295-319 | a builtin is its bare name; other types are module-qualified; a type with a type variable carries it, and as a type parameter is wrapped in parentheses |
| RocIntegration.QualifiedFuncName | roc_integration/src/lib.rs:370-377 | builds the module-qualified function name for the function base |
| RocIntegration.WriteBytesFuncName | roc_integration/src/lib.rs:360-362 | the qualified name with base write_bytes |
| RocIntegration.FromBytesFuncName | roc_integration/src/lib.rs:366-368 | the qualified name with base from_bytes |
| RocIntegration.FuncNamesDifferByBase | roc_integration/src/lib.rs:360-377 | two function names of a type are equal exactly when their bases are, so write_bytes and from_bytes never clash |
| ShaderGeneration.PackedFieldsDoNotOverlap | src/rendering/shader.rs:2400-2430 | fields placed at running offsets never overlap, and all end within the struct's span |
| ShaderGeneration.StructBuilder.constructor | src/rendering/shader.rs:2384-2390 | a builder with the type name, no fields and offset 0 |
| ShaderGeneration.StructBuilder.NFields | src/rendering/shader.rs:2392-2394 | the number of fields added, one recorded size per field |
| ShaderGeneration.StructBuilder.AddField | src/rendering/shader.rs:2400-2419 | returns the new field's index and places it at the running offset, which then grows by the field's size |
| ShaderGeneration.StructBuilder.IntoType | src/rendering/shader.rs:2422-2430 | a struct type with the builder's name and fields whose span is the sum of the field sizes and holds every field |
| ShaderGeneration.ConsecutiveLocationsAreDistinct | src/rendering/shader.rs:2216-2296 | with consecutive numbering every location-bound field has its own location, increasing with the field index and below the location count |
| ShaderGeneration.AppendKeepsConsecutive | src/rendering/shader.rs:2216-2296 | appending a field keeps the numbering consecutive, and the count grows by one exactly for a location-bound field |
| ShaderGeneration.InputStructBuilder.constructor | src/rendering/shader.rs:2111-2116 | an empty struct builder with the type name and the input argument name |
| ShaderGeneration.InputStructBuilder.NFields | src/rendering/shader.rs:2118-2120 | the number of fields of the underlying struct builder |
| ShaderGeneration.InputStructBuilder.AddField | src/rendering/shader.rs:2130-2147 | appends a field bound at the given location, without interpolation or sampling qualifiers |
| ShaderGeneration.OutputStructBuilder.constructor | src/rendering/shader.rs:2191-2197 | an empty struct builder, no expressions and locations starting at 0 |
| ShaderGeneration.OutputStructBuilder.GetFieldExpr | src/rendering/shader.rs:2201-2203 | the expression of the field, and none exactly past the last field |
| ShaderGeneration.OutputStructBuilder.AddField | src/rendering/shader.rs:2216-2241 | the field takes the next location, which advances by one, and its expression is recorded at the same index |
| ShaderGeneration.OutputStructBuilder.AddFieldWithPerspectiveInterpolation | src/rendering/shader.rs:2256-2271 | as adding a field, with perspective interpolation sampled at the centre: the next location, and the running offset grows by the field's size |
| ShaderGeneration.OutputStructBuilder.AddBuiltinPositionField | src/rendering/shader.rs:2281-2296 | the field is bound to the built-in position at the running offset, which grows by the field's size; it takes no location, so the location counter is unchanged |
| ShaderGeneration.FindKind | src/rendering/shader.rs:756-773 | a found input is one of the inputs and has the kind; none exactly when no input has it |
| ShaderGeneration.InterpretInputsAcceptsConsistentMaterials | src/rendering/shader.rs:744-820 | interpretation succeeds exactly when there is a model-view transform input and the material features and material input form one of the accepted combinations; then a generator exists exactly when a material is given |
| ShaderGeneration.InterpretInputs | src/rendering/shader.rs:744-820 | the loop over the feature inputs agrees with the interpretation's specification |
| ShaderGeneration.ShaderModuleSetup | src/rendering/shader.rs:569-637 | no mesh is the first error; a point light requires a material generator (it is written into the fragment function, which is absent otherwise); after interpretation, a camera gives the camera projection, without one a directional light is required, no light is the missing-projection error and a point light (with a material) the unsupported-projection error |
| ShaderGeneration.RequiresLightsMatchesGenerator | src/rendering/shader.rs:1515-1520 | a material requires lights exactly when its generator is Blinn-Phong or light-space depth |
| ShaderGeneration.RequiresLights | src/rendering/shader.rs:1515-1520 | true exactly for Blinn-Phong and light-space depth materials |
| VoxelChunks.ChunkVoxelIndicesFromLinearIdx | engine/crates/impact_voxel/src/chunks.rs:2822-2828 | a linear index below the chunk's 4096 voxels gives three indices below the chunk size |
| VoxelChunks.LinearVoxelIdxWithinChunk | engine/crates/impact_voxel/src/chunks.rs:2813-2817 | three in-chunk indices give a linear index below 4096 from which they are recovered |
| VoxelChunks.ChunkVoxelIndicesRoundTrip | engine/crates/impact_voxel/src/chunks.rs:2813-2828 | every linear in-chunk index is the image of its own three indices |
| VoxelChunks.ChunkStartVoxelIdx | engine/crates/impact_voxel/src/chunks.rs:2777-2779 | the start of a chunk's voxels is chunk-aligned and gives back the data offset |
| VoxelChunks.ChunkDataOffsetFromStartVoxelIdx | engine/crates/impact_voxel/src/chunks.rs:2782-2784 | the cast to u32 keeps the offset below 2^32 |
| VoxelChunks.ChunkStartRoundTrip | engine/crates/impact_voxel/src/chunks.rs:2777-2784 | a chunk-aligned start below 2^44 is the start of the data offset computed from it |
| VoxelChunks.VoxelIndicesWithinChunkFromObjectVoxelIndices | engine/crates/impact_voxel/src/chunks.rs:2837-2862 | the low four bits are below the chunk size and the object index is 16 times the chunk index plus the local index |
| VoxelChunks.ObjectVoxelIndicesSplit | engine/crates/impact_voxel/src/chunks.rs:2837-2862 | the split is unique: the object voxel 16 * c + l lies in chunk c at local position l |
| VoxelChunks.LinearVoxelIdxWithinChunkFromObjectVoxelIndices | engine/crates/impact_voxel/src/chunks.rs:2801-2808 | the linear in-chunk index of an object voxel, below 4096, recovers its local indices |
| VoxelChunks.ChunkCounts | engine/crates/impact_voxel/src/chunks.rs:274 | div_ceil by 16 gives the fewest chunks along each axis that cover the grid |
| VoxelChunks.LinearChunkIdx | engine/crates/impact_voxel/src/chunks.rs:1604-1608 | a chunk in the grid has a linear index below the chunk total from which chunk_indices_from_linear_idx recovers it |
| VoxelChunks.ChunkIndicesFromLinearIdx | engine/crates/impact_voxel/src/chunks.rs:2769-2774 | the computed j and k lie below their chunk counts and rebuild the index with the strides [c2 * c1, c2, 1]; an index below the chunk total gives indices in the grid |
| VoxelChunks.ChunkIndicesDecompose | engine/crates/impact_voxel/src/chunks.rs:2769-2774 | the digits computed from a linear index rebuild it and lie in the grid when the index is below the chunk total |
| VoxelChunks.ChunkIndicesRoundTrip | engine/crates/impact_voxel/src/chunks.rs:2769-2774 | every position of the chunk vector lies in the grid and is the linear index of the chunk indices computed from it |
| VoxelChunks.FaceDistribution | engine/crates/impact_voxel/src/chunks.rs:2616-2626 | a face is Empty exactly when all its voxels are empty, Full exactly when none is, and Mixed otherwise |
| VoxelChunks.ToChunkFaceDistributions | engine/crates/impact_voxel/src/chunks.rs:2611-2613 | each of the six faces classified against the 256 voxels of a chunk face |
| VoxelChunks.FullyObscured | engine/crates/impact_voxel/src/chunks.rs:2636-2643 | exactly the six obscuredness bits are set |
| VoxelChunks.MarkFaceAsObscured | engine/crates/impact_voxel/src/chunks.rs:2651-2658 | sets the face's bit and no other |
| VoxelChunks.MarkFaceAsUnobscured | engine/crates/impact_voxel/src/chunks.rs:2661-2668 | clears the face's bit and no other |
| VoxelChunks.UnmarkUndoesMark | engine/crates/impact_voxel/src/chunks.rs:2651-2668 | unmarking undoes marking on a face that was not obscured |
| VoxelChunks.MarkUndoesUnmark | engine/crates/impact_voxel/src/chunks.rs:2651-2668 | marking undoes unmarking on a face that was obscured |
| VoxelChunks.UnmarkedFaceIsExposed | engine/crates/impact_voxel/src/chunks.rs:2646-2668 | after unmarking any face the chunk has an exposed face |
| VoxelChunks.MarkAllFacesObscures | engine/crates/impact_voxel/src/chunks.rs:2636-2668 | marking all six faces, from any flags, leaves no exposed face |
| VoxelChunks.StoredVoxelCount | engine/crates/impact_voxel/src/chunks.rs:1710-1716 | 0 stored voxels exactly for an empty chunk, 1 exactly for a uniform one, 4096 exactly for a non-uniform one |
| VoxelChunks.ContainsOnlyEmptyVoxels | engine/crates/impact_voxel/src/chunks.rs:1688-1691 | true for an Empty chunk, false for a uniform one, and for a non-uniform one exactly when it is flagged `IS_EMPTY` |
| VoxelChunks.FaceEmptyCountsOf | engine/crates/impact_voxel/src/chunks.rs:1612-1685 | the number of empty voxels on each of the six faces |
| VoxelChunks.ChunkForVoxels | engine/crates/impact_voxel/src/chunks.rs:1612-1685 | uniform voxels with none non-empty give an empty chunk; uniform with a non-empty voxel a uniform chunk of the first voxel with full adjacency; anything else a non-uniform chunk marked empty exactly when no voxel is non-empty, with no face obscured |
| VoxelChunks.ZeroFaceEmptyCounts | engine/crates/impact_voxel/src/chunks.rs:2581-2583 | every face count is 0 |
| VoxelChunks.Increment | engine/crates/impact_voxel/src/chunks.rs:2586-2608 | one more empty voxel on the given face and no change on the other five |
| VoxelChunks.FaceEmptyCountsAfterAll | engine/crates/impact_voxel/src/chunks.rs:1612-1685 | the counts accumulated voxel by voxel are the numbers of empty voxels on each face |
| VoxelChunks.ForVoxels | engine/crates/impact_voxel/src/chunks.rs:1612-1685 | the single pass over the chunk's voxels, tracking uniformity, the presence of a non-empty voxel and the face counts, returns the chunk the specification function defines |
| ChunkedVoxelObjects.InitializedChunks | engine/crates/impact_voxel/src/chunks.rs:517-529 | numbering keeps every chunk's kind and emptiness |
| ChunkedVoxelObjects.InitializedOffsetsAreConsecutive | engine/crates/impact_voxel/src/chunks.rs:517-529 | the data offsets handed out are strictly increasing in chunk order and below the non-uniform count, and likewise the split-detection indices of uniform chunks |
| ChunkedVoxelObjects.OccupiedChunkRangesTight | engine/crates/impact_voxel/src/chunks.rs:531-548 | with a non-empty chunk each occupied chunk range is non-empty, holds every non-empty chunk and reaches one at both ends; without one every range is 0..0 |
| ChunkedVoxelObjects.VoxelRangesOf | engine/crates/impact_voxel/src/chunks.rs:550-552 | the occupied voxel ranges are the chunk ranges times the chunk size |
| ChunkedVoxelObjects.AnalysisOf | engine/crates/impact_voxel/src/chunks.rs:505-562 | the uniform and non-uniform counts together do not exceed the chunk count, with three chunk and voxel ranges |
| ChunkedVoxelObjects.AnalyzeAndInitializeChunks | engine/crates/impact_voxel/src/chunks.rs:505-562 | the pass over the chunk array numbers its chunks as the specification function says and returns the analysis of the original chunks |
| ChunkedVoxelObjects.InitializeOne | engine/crates/impact_voxel/src/chunks.rs:518-529 | a uniform chunk takes the next split-detection index and a non-uniform one the next data offset; only the matching counter grows |
| ChunkedVoxelObjects.GenerateVoxelsForChunks | engine/crates/impact_voxel/src/chunks.rs:310-352 | each chunk is the chunk of its generated voxels, and the voxel vector holds the generated blocks of exactly the non-uniform chunks, in order |
| ChunkedVoxelObjects.KeptBlocksLength | engine/crates/impact_voxel/src/chunks.rs:310-352 | the kept voxels hold one block of 4096 per non-uniform chunk |
| ChunkedVoxelObjects.KeptBlocksInOrder | engine/crates/impact_voxel/src/chunks.rs:310-352 | the block of non-uniform chunk i starts at 4096 times the number of non-uniform chunks before it |
| ChunkedVoxelObjects.StoredVoxelCountOfCounts | engine/crates/impact_voxel/src/chunks.rs:689-694 | the stored voxel count is one per uniform chunk plus 4096 per non-uniform chunk |
| ChunkedVoxelObjects.ChunkedVoxelObject.GenerateWithoutDerivedState | engine/crates/impact_voxel/src/chunks.rs:269-308 | the chunk counts cover the grid, every chunk is its generated chunk numbered in order, every non-uniform chunk's data offset points at its own generated voxels, and the occupied ranges are those of the analysis |
| ChunkedVoxelObjects.ChunkedVoxelObject.TotalChunkCountOf | engine/crates/impact_voxel/src/chunks.rs:617-619 | the product of the chunk counts is the length of the chunk vector |
| ChunkedVoxelObjects.ChunkedVoxelObject.ContainsOnlyEmptyVoxels | engine/crates/impact_voxel/src/chunks.rs:655-657 | true exactly when the box of occupied voxel ranges holds no voxel (the product of the three range lengths is 0) |
| ChunkedVoxelObjects.ChunkedVoxelObject.StoredVoxelCountOfObject | engine/crates/impact_voxel/src/chunks.rs:689-694 | the sum over the chunks equals the voxel vector's length plus the number of uniform chunks |
| ChunkedVoxelObjects.ChunkedVoxelObject.LinearChunkIdxOf | engine/crates/impact_voxel/src/chunks.rs:1604-1608 | a chunk in the grid has a position in the chunk vector, the linear index of its indices |
| ChunkedVoxelObjects.ChunkedVoxelObject.GetChunk | engine/crates/impact_voxel/src/chunks.rs:948-965 | indices outside the grid, negative ones included, give an empty chunk |
| ChunkedVoxelObjects.ChunkedVoxelObject.GetChunkAtLinearIdx | engine/crates/impact_voxel/src/chunks.rs:948-965 | every chunk of the vector is the one get_chunk returns at its indices |
| VoxelTree.FindAdjacent | src/voxel/tree.rs:1637-1642 | None exactly when no pair is for the voxel; otherwise the node of the first pair for it |
| VoxelTree.ExternalNodeAuxiliaryData.constructor | src/voxel/tree.rs:1584-1591 | no adjacent voxels and every face fully exposed, with the area of the voxel's face |
| VoxelTree.ExternalNodeAuxiliaryData.ExposedFaceArea | src/voxel/tree.rs:1601-1603 | never more than the face's area; what is missing is exactly what adjacent voxels cover |
| VoxelTree.ExternalNodeAuxiliaryData.FaceIsFullyObscured | src/voxel/tree.rs:1607-1609 | true exactly when adjacent voxels cover the whole face |
| VoxelTree.ExternalNodeAuxiliaryData.FaceIsFullyExposed | src/voxel/tree.rs:1613-1615 | true exactly when nothing covers the face |
| VoxelTree.ExternalNodeAuxiliaryData.HasOnlyFullyObscuredFaces | src/voxel/tree.rs:1619-1623 | the check over the six stored areas agrees with asking every face |
| VoxelTree.ExternalNodeAuxiliaryData.HasOnlyFullyExposedFaces | src/voxel/tree.rs:1627-1632 | the check over the six stored areas agrees with asking every face |
| VoxelTree.ExternalNodeAuxiliaryData.AdjacentVoxel | src/voxel/tree.rs:1637-1642 | None exactly when the voxel is not recorded as adjacent; otherwise the node recorded first for it |
| VoxelTree.ExternalNodeAuxiliaryData.IsAdjacentToVoxel | src/voxel/tree.rs:1645-1649 | true exactly when adjacent_voxel finds a node |
| VoxelTree.ExternalNodeAuxiliaryData.AddObscuredFaceArea | src/voxel/tree.rs:1665-1668 | the area moves from exposed to covered on that face only; subtracting more than is exposed panics |
| VoxelTree.DirectionalObscurednessLookupTable.FullyExposed | src/voxel/tree.rs:1672-1676 | visible from every direction |
| VoxelTree.DirectionalObscurednessLookupTable.FullyObscured | src/voxel/tree.rs:1678-1682 | hidden from every direction |
| VoxelTree.DirectionalObscurednessLookupTable.ForExternalNode | src/voxel/tree.rs:1684-1699 | hidden from a direction exactly when the three faces of the node turned towards the viewer are fully obscured |
| VoxelTree.DirectionalObscurednessLookupTable.MergeWith | src/voxel/tree.rs:1709-1719 | hidden from a direction afterwards exactly when both tables were hidden from it |
| VoxelTree.HiddenFromAllDirectionsIffOnlyObscuredFaces | src/voxel/tree.rs:1619-1699 | a node's table hides it from every direction exactly when all six of its faces are fully obscured |
| VoxelTree.ExternalNodeAuxiliaryStorage.constructor | src/voxel/tree.rs:952-958 | no data, no IDs and the ID counter at 0 |
| VoxelTree.ExternalNodeAuxiliaryStorage.NNodes | src/voxel/tree.rs:960-962 | the number of nodes with data |
| VoxelTree.ExternalNodeAuxiliaryStorage.HasDataForNode | src/voxel/tree.rs:964-966 | true exactly when the node has data |
| VoxelTree.ExternalNodeAuxiliaryStorage.Data | src/voxel/tree.rs:968-971 | the node's data; a missing node panics |
| VoxelTree.ExternalNodeAuxiliaryStorage.DataAtIdx | src/voxel/tree.rs:973-975 | the data of the node whose key sits at that dense position |
| VoxelTree.ExternalNodeAuxiliaryStorage.AddData | src/voxel/tree.rs:987-990 | the data is appended and mapped to the node; an ID already present panics |
| VoxelTree.ExternalNodeAuxiliaryStorage.RemoveData | src/voxel/tree.rs:992-995 | the data is swap-removed and the node unmapped; every other node keeps its data |
| VoxelTree.ExternalNodeAuxiliaryStorage.CreateNewExternalNodeId | src/voxel/tree.rs:997-1001 | issues the counter's value, which no stored node uses, and advances it |
| VoxelTree.ExternalNodeAuxiliaryStorage.CreateAuxStorageEntry | src/voxel/tree.rs:1462-1466 | fresh data for the node's indices and scale is stored under a newly issued ID; every other node keeps its data |
| VoxelTree.DetermineDominatingVoxelTypeWithCount | src/voxel/tree.rs:2019-2050 | None exactly without external children or typed internal children; otherwise a type with the largest count, the last such type, and that count |
| Voxels.AdjacencyForFace | engine/crates/impact_voxel/src/lib.rs:218-228 | a single flag bit among bits 2 to 7, never the emptiness bit, and different faces get different bits |
| Voxels.FullAdjacency | engine/crates/impact_voxel/src/lib.rs:209-216 | holds the flag of every face and nothing else: exactly bits 2 to 7, not the emptiness bit |
| Voxels.BlockedFaceCount | engine/crates/impact_voxel/src/lib.rs:240 | at most six faces are blocked, and all six exactly when the full adjacency is contained |
| Voxels.AdjacencyOnes | engine/crates/impact_voxel/src/lib.rs:240 | the masked flags count exactly the adjacency bits, and all six are set exactly when the mask is contained |
| Voxels.FlagsPlacement | engine/crates/impact_voxel/src/lib.rs:230-242 | interior exactly with full adjacency, a face with five blocked faces, an edge with four and a corner with at most three |
| Voxels.MaximallyOutsideDistance | engine/crates/impact_voxel/src/lib.rs:154-156 | the largest encoding, 127, which is not negative |
| Voxels.MaximallyInsideDistance | engine/crates/impact_voxel/src/lib.rs:159-161 | the smallest encoding, -128, which is negative |
| Voxels.NonEmpty | engine/crates/impact_voxel/src/lib.rs:262-264 | a non-empty voxel of the type and distance, with no blocked faces, so a corner |
| Voxels.Empty | engine/crates/impact_voxel/src/lib.rs:267-269 | an empty voxel of the dummy type with the distance and no adjacency |
| Voxels.MaximallyInside | engine/crates/impact_voxel/src/lib.rs:273-279 | a non-empty voxel of the type with the most negative distance |
| Voxels.MaximallyOutside | engine/crates/impact_voxel/src/lib.rs:282-288 | an empty voxel with the largest, non-negative distance |
| Voxels.Placement | engine/crates/impact_voxel/src/lib.rs:311-317 | absent exactly for empty voxels, otherwise the placement of the flags |
| Voxels.AddFlags | engine/crates/impact_voxel/src/lib.rs:348-350 | the given flags are set afterwards; every other bit, the type and the distance are as before |
| Voxels.RemoveFlags | engine/crates/impact_voxel/src/lib.rs:353-355 | the given flags are clear afterwards; every other bit, the type and the distance are as before |
| Voxels.UpdateFlags | engine/crates/impact_voxel/src/lib.rs:342-344 | the flags are replaced; type and distance are kept |
| Voxels.RemoveUndoesAdd | engine/crates/impact_voxel/src/lib.rs:348-355 | adding then removing flags is removing them, and gives back the voxel when none of them was set |
| Voxels.AddUndoesRemove | engine/crates/impact_voxel/src/lib.rs:348-355 | removing then adding flags is adding them |
| Voxels.AddEmptyFlagRemovesPlacement | engine/crates/impact_voxel/src/lib.rs:296-355 | marking a voxel empty through add_flags makes it empty and takes away its placement |
| Voxels.VoxelObjectManager.constructor | engine/crates/impact_voxel/src/lib.rs:398-404 | no objects, no physics contexts, and the first ID will be 1 |
| Voxels.VoxelObjectManager.VoxelObjectCount | engine/crates/impact_voxel/src/lib.rs:407-409 | the number of stored objects |
| Voxels.VoxelObjectManager.GetVoxelObject | engine/crates/impact_voxel/src/lib.rs:413-418 | Some exactly when an object is stored under the ID, and then that object |
| Voxels.VoxelObjectManager.GetPhysicsContext | engine/crates/impact_voxel/src/lib.rs:432-437 | Some exactly when a physics context is stored under the ID, and then that context |
| Voxels.VoxelObjectManager.GetVoxelObjectWithPhysicsContext | engine/crates/impact_voxel/src/lib.rs:441-451 | Some exactly when both the object and its physics context exist, and then the pair |
| Voxels.VoxelObjectManager.HasVoxelObject | engine/crates/impact_voxel/src/lib.rs:454-456 | true exactly when get_voxel_object finds the object |
| Voxels.VoxelObjectManager.CreateNewVoxelObjectId | engine/crates/impact_voxel/src/lib.rs:509-513 | returns the counter, which no stored object uses, and advances it by one; the checked add panics at u32::MAX |
| Voxels.VoxelObjectManager.AddVoxelObject | engine/crates/impact_voxel/src/lib.rs:473-477 | stores the object under a fresh ID larger than every earlier one; the contexts are kept |
| Voxels.VoxelObjectManager.AddPhysicsContextForVoxelObject | engine/crates/impact_voxel/src/lib.rs:481-488 | stores the context under the ID; objects and counter are kept |
| Voxels.VoxelObjectManager.RemoveVoxelObject | engine/crates/impact_voxel/src/lib.rs:492-495 | removes the object and its physics context; the counter is kept, so the ID is never handed out again |
| Voxels.VoxelObjectManager.RemoveAllVoxelObjects | engine/crates/impact_voxel/src/lib.rs:498-500 | removes every object; the physics contexts and the counter stay |

## Left out

- Floating-point values are left out or carried as uninterpreted values. This covers `f32` material properties (carried as `real`), `rgb_to_luma`/`ycbcr_to_rgb` pixel values, exposure, and LOD, AABB and bounding-sphere computations.
- SDF sampling, gradients and ray marching in engine/crates/impact_voxel/src/generation/sdf/meta.rs:2449-2760 are left out. `VoxelSignedDistance::from_f32` and `increase_signed_distance` are left out too. `VoxelSignedDistance` is modelled only through its encoded extremes.
- Float comparisons in meta.rs (a scale different from 1, a rotation different from the identity) are modelled as exact comparisons of values.
- Image decoding and encoding (PNG, JPEG), file and memory-mapped reading are input/output. `ImageIO` takes the decoded pixels as values and models the signature dispatch and the byte conversions.
- GPU and code-generation plumbing over naga and wgpu is left out: shader emission, module importing, render commands, bind groups and GPU buffer copies. `ShaderGeneration` models the struct builders, input interpretation and light requirements. It models `generate_shader_module` only up to the projection choice (`ShaderModuleSetup`). A point light without a material generator panics at `fragment_function.unwrap()` (src/rendering/shader.rs:1196-1201); `ShaderModuleSetup` requires a generator in that case.
- ShaderGeneration: the errors for a missing vertex attribute raised while emitting a shader are left out. So is the shader variant used only by the source's tests.
- Concurrency is left out. This covers `generate_voxels_for_chunks_in_parallel` (engine/crates/impact_voxel/src/chunks.rs:354-503) with its thread pool and channels, and the `RwLock` around each component storage of an `ArchetypeTable`, which the model treats as plain data.
- Hashing and randomness are parameters or uninterpreted values: `DefaultHasher`, FNV, `hash64!`, splitmix and the stochastic selection of meta nodes. The archetype ID is modelled as the sorted sequence of component IDs, which determines the hash the source computes from it. Stated properties do not depend on hash values.
- Machine integer widths are modelled where the source relies on them: bit masks and shifts as bit-vectors, and `(2*idx) as u32` wrap-around as `% 2^32`. A `usize` or `u32` overflow that would panic in a debug build becomes a `requires` clause.
- LegacyChunkedVoxelObjects.GenerateWithoutDerivedState: assumes fewer than 2^32 chunks. Beyond that the source's `(start_voxel_idx >> 12) as u32` cast (engine/src/voxel/chunks.rs:2134-2136) would wrap the data offsets silently, without a panic, and the model does not follow it there.
- src/voxel/mod.rs is not part of this model. `VoxelTree` assumes its `X_FACES`, `Y_FACES` and `Z_FACES` constants list the lower face before the upper one.
- `is_maximally_inside_or_outside` is defined outside the modelled files. `Voxels` assumes it holds exactly for the two encoded extreme distances.
- roc_integration/src/ir.rs is not part of this model. `RocIntegration` reconstructs the IR types from their use in roc_integration/src/lib.rs.
- `InstanceFeatureTypeID::not_applicable` is defined outside the modelled files and is assumed to be the zero hash. Each material's `FEATURE_TYPE_ID` and `MATERIAL_START` are parameters, assumed non-zero and distinct.
- The voxel object manager stores objects and physics contexts as opaque values. Meshed voxel objects, inertia and the rest of the physics context are left out.
- LegacyVoxelTree.Build: the storage side effects of building are left out. Building is a pure function of the voxel generator, and node storage is modelled separately.
- MetaSDFBuild: the environment (generator construction, per-node parameter validity, transform sources, surface computations, stochastic selection) is a parameter of the build, as seen from the graph. `SDFGraph::add_node` is assumed to append and return the new node's index. Error context strings are not modelled; errors carry the node's name and label only.
- MetaCanvas: UI, layout, drawing, `show`, `handle_port`, and saving and loading are left out. So are the collapse index and port metadata beyond data types. `connection_allowed` is a parameter. The change flags are a set of flag values. The seen bit-vector of the reachability search is a sequence of booleans sized to the node-ID counter; a ghost set of the visited nodes goes with it.
- MetaCanvas: `remove_node` (the subtree removal built on `obtain_subtree` and `remove_single_node`) is not modelled as one operation.
- MetaCanvas.MetaGraphCanvas.RemoveSingleNode: its `ensures` says only that the pending edge is either kept or dropped. It does not say which edges the source keeps.
- InstanceFeatureManagement.InstanceFeatureManager.ResetToState: the manager is modelled by the feature types that have a storage, not by the storages' contents. So the `remove_all_features` call on every feature storage (engine/crates/impact_model/src/lib.rs:466-468) is not stated. `InstanceFeatures.InstanceFeatureStorage.RemoveAllFeatures` models that call on one storage.
- MetaSDFBuild.MetaSDFGraph.Build: `Resolve` is a method, so its result cannot appear in a ghost `ensures`. `Build` says that after a completed walk the root's output decides the result (`FinishBuild`), that every node reachable from the root was resolved after its children, and that the recorded outputs lie in the grown graph. It does not say that each recorded output is the value `Resolve` returned for that node. That fact holds step by step in `ProcessStep`.
- Postprocessing: the material-library side effects of the setup functions and the exposure value are left out. Passes are modelled by their kind and attachments.
- Archetypes.ArchetypeTable.AddEntities: the model requires the added components to have exactly the table's component types. The source looks each added type up in the table's index map (panicking on an unknown one) and does not check that every stored type is covered.
- Archetypes: single-instance wrappers, component storage views, `get_component_for_entity`, the entry types (`TableEntityEntry`), `is_empty` and `all_entities` iteration are left out.
- The proc-macro argument parsing in roc_codegen, texture loading and RON parsing, and the application loop are outside the modelled core.

## Findings

| source | as written | input that shows it | evidently intended | confidence | as-written member | corrected member |
|---|---|---|---|---|---|---|
| engine/impact_ecs/src/archetype.rs:580-601 | `remove_component_types_with_ids` returns early through `?` when a type is missing, after swap-removing the earlier types, and skips the archetype update after the loop | removing `[present, missing]`, where `present` is stored and `missing` is not: the error is returned, the arrays have lost `present`, and the archetype still lists it | the archetype always matches the stored arrays, as it does after every other operation | medium, not executed | Archetypes.RemoveComponentTypesAsWritten, Archetypes.StaleArchetypeAfterFailedRemoval | Archetypes.ArchetypeComponents.RemoveComponentTypesWithIds |
