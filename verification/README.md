# Genogram layout, family store and attribute markers, in Dafny

This project models the three logic components of a genogram (family-tree
diagram) editor and proves properties of them.

- **The layout engine**, `calculateGenogramLayout`
  (`src/utils/genogramLayout.ts`), turns a list of people into diagram nodes
  and edges in five stages:
  - **Roots:** the parentless people are the roots. When there are none, the
    lowest key is the root.
  - **Forest:** a depth-first build, guarded by a visited set, pairs each
    person with at most one spouse and collects the children of either
    partner.
  - **Sizing:** a bottom-up pass computes each unit's width and centre.
  - **Placement:** a top-down pass positions each unit. Children are grouped
    by twin group, and the groups are ordered by the age of their first
    member.
  - **Edges:** marriage, child, twin and identical-twin edges are created.

  Files:
  - `LayoutTree.dfy` holds the first three stages and the twin grouping.
    The forest build is also written as ghost functions (`TreeFor`,
    `ChildrenFor`, `PlantAllFor`, `GenogramForest`). Each building method is
    proved to return what these functions give, so the laid-out forest is
    determined by the input.
  - `LayoutPlace.dfy` holds placement, edges and the whole pipeline.
  - `Sequences.dfy` holds the stable sort behind `Array.prototype.sort`, and
    sums and concatenations over groups.
- **The family-data store** (`src/store/useGenogramStore.ts`) holds five
  fields: the people, the key counter, the selection, and an undo/redo
  history of `{familyData, nextKey}` snapshots. Its actions are add, update,
  delete, select, toggle, reset, import, export, clear positions, undo and
  redo.
  - `Store.dfy` models the store as the class `GenogramStore`. Each method
    updates the fields as the action's `set` calls do.
  - Each method's `ensures` ties the new state to `Apply(old state, action)`,
    a pure transition function. The store's promises are proved as lemmas
    about `Apply`.
- **The attribute markers** (`src/utils/attributeColors.ts`) are twelve
  markers `A`..`L`, each with a colour and a quadrant of the person symbol,
  plus the drop-down options for each quadrant. They are modelled in
  `Attributes.dfy`.

`Types.dfy` holds the person record and its enumerations, from
`src/types/types.ts`.

Modelling choices:
- Coordinates and widths are `real`, because the layout halves widths.
- A JavaScript truthiness test on an optional key (`if (person.spouse)`) is
  `Truthy`: present and not 0.
- Node and edge ids are datatypes, not strings. For example, `MarriageNode(k1, k2)`
  stands for `marriage-node-k1-k2`.

## Model

| member | source | states |
|---|---|---|
| Attributes.ColorTableTotal | src/utils/attributeColors.ts:4-22 | every marker A..L is in the colour table, so `getAttributeColor` never falls back to "transparent" and returns a 7-character "#rrggbb" colour |
| Attributes.ColorsDistinct | src/utils/attributeColors.ts:4-17 | two different markers get two different colours |
| Attributes.QuadrantTotal | src/utils/attributeColors.ts:33-39 | `getQuadrant` never returns null; the marker is in its quadrant's group, and no other quadrant's group holds it |
| Attributes.QuadrantOfEachMarker | src/utils/attributeColors.ts:25-39 | A,B,C are top-left; D,E,F top-right; J,K,L bottom-left; G,H,I bottom-right |
| Attributes.QuadrantsPartitionMarkers | src/utils/attributeColors.ts:25-30 | each of the four groups has three markers; the twelve markers listed are pairwise distinct and include every marker |
| Attributes.OptionsMatchQuadrant | src/utils/attributeColors.ts:42-67 | each quadrant's drop-down starts with the empty "none" option; the other options are that quadrant's markers, in order, each with its table colour |
| Sequences.StableSortBy | src/utils/genogramLayout.ts:411-415 | the sort is ordered by the key and is a permutation of its input |
| Sequences.SortIsStable | src/utils/genogramLayout.ts:411-415 | among elements with equal keys, the sort keeps their input order |
| LayoutTree.LastWithKey | src/utils/genogramLayout.ts:31-32 | `personMap.get(k)` is a record of the input with key k and no later record has key k (later `set` calls overwrite), or none if no one has key k |
| LayoutTree.BuildPersonMap | src/utils/genogramLayout.ts:31-32 | the map answers every key as `LastWithKey` does, and its keys are exactly the input's keys |
| LayoutTree.PersonMapOf | src/utils/genogramLayout.ts:31-32 | the person map as a function of the people: for every key it answers as `LastWithKey` does |
| LayoutTree.PersonMapUnique | src/utils/genogramLayout.ts:31-32 | any map that answers every key as `LastWithKey` does is `PersonMapOf` the people, so the built map is determined by the input |
| LayoutTree.PersonMapFromData | src/utils/genogramLayout.ts:31-40 | the map built before the fallback sort still maps each key to a person of the sorted list with that key |
| LayoutTree.Parentless | src/utils/genogramLayout.ts:36 | the roots are exactly the input's people with neither a (truthy) father nor a mother |
| LayoutTree.SelectRoots | src/utils/genogramLayout.ts:36-41 | roots exist iff people do; with parentless people they are the roots, in input order; otherwise the list is stably sorted by key and its first person, who has the lowest key, is the only root; the list is only ever reordered |
| LayoutTree.ChildrenOf | src/utils/genogramLayout.ts:78-82 | the children list holds exactly the input's people whose father or mother is the person or the paired spouse |
| LayoutTree.BuildTree | src/utils/genogramLayout.ts:51-94 | null iff the person was already visited; otherwise the tree's keys are exactly the newly visited keys, each once; a spouse is paired iff it is named, present, not the person and unvisited; every child of the couple ends visited; the tree and the visited set after the call are `TreeFor` of the person and the visited set before it |
| LayoutTree.MarkWithSpouse | src/utils/genogramLayout.ts:52-74 | the person is marked visited; a spouse is paired, and marked too, iff named (truthy), present, not the person and unvisited; exactly those one or two keys are newly visited; the pairing is `PairedSpouse` and the new visited set adds exactly `Marked` keys |
| LayoutTree.BuildChildren | src/utils/genogramLayout.ts:84-91 | the built child trees hold exactly the keys visited while building them; each is a child of the couple; every listed child ends visited; trees and visited set are `ChildrenFor` of the children list |
| LayoutTree.BuildNextChild | src/utils/genogramLayout.ts:85-90 | one child: its tree, when not null, is appended, and the children built so far stay `ChildrenFor` of the list up to this child, with every child so far visited |
| LayoutTree.TreeFor | src/utils/genogramLayout.ts:51-94 | `buildTree` as a function of the person and the visited set: it only adds keys of the input to the visited set; null for a visited person, otherwise the person, `PairedSpouse` and the `ChildrenFor` the couple's children |
| LayoutTree.ChildrenFor | src/utils/genogramLayout.ts:78-91 | the children loop as a function: each child in input order is built with the visited set the previous ones left, the null trees are dropped, and only input keys are added |
| LayoutTree.PlantFor | src/utils/genogramLayout.ts:96-99 | `const tree = buildTree(p); if (tree) forest.push(tree)` as a function on a forest and its visited set, which only grows within the input keys |
| LayoutTree.PlantAllFor | src/utils/genogramLayout.ts:96-107 | a `forEach` of `PlantFor` over a list of people, in order; the visited set only grows within the input keys |
| LayoutTree.PlantTree | src/utils/genogramLayout.ts:96-107 | one root or leftover person: a visited person adds nothing; otherwise one tree headed by that person is appended, and the forest's keys stay the visited set; the result is `PlantFor` |
| LayoutTree.BuildRootTrees | src/utils/genogramLayout.ts:96-99 | the forest built from the roots holds each visited key once; with a root, the first tree is headed by the first root; forest and visited set are `PlantAllFor` of the roots from an empty start |
| LayoutTree.BuildDisconnected | src/utils/genogramLayout.ts:101-107 | after the pass over everyone, every key of the input is visited and the forest holds each key exactly once; the result is `PlantAllFor` of all people from the roots' forest |
| LayoutTree.PlantUnvisited | src/utils/genogramLayout.ts:102-107 | one person of the second pass: an unvisited person's tree is appended, a visited one is skipped; the first tree stays first, the forest still holds each visited key once, every person so far is visited, and the state is `PlantAllFor` of the people so far |
| LayoutTree.BuildForest | src/utils/genogramLayout.ts:44-107 | every key of the input appears in the forest exactly once, as a primary person or a paired spouse, every tree is well built, and the forest is `ForestFor` the people, map and roots: the roots' trees, then the leftovers' trees |
| LayoutTree.CoupleIsOneUnit | src/utils/genogramLayout.ts:36-107 | two parentless people naming each other as spouse become one tree: the first is its person, the second its paired spouse, and the second pass adds nothing |
| LayoutTree.ChildrenTotalWidth | src/utils/genogramLayout.ts:261-266 | the children block is the sum of the child widths plus 30 between neighbours, or 0 without children |
| LayoutTree.CalculateSize | src/utils/genogramLayout.ts:110-141 | width = max(parent block 80 or 210, children block); centerX = width / 2 in both branches; width ≥ parent block ≥ 80; every subtree is sized the same way; people and shape are unchanged |
| LayoutTree.SameShapeForestKeys | src/utils/genogramLayout.ts:110-143 | sizing changes no person: the sized forest has the same keys in the same order |
| LayoutTree.TwinsOfMembers | src/utils/genogramLayout.ts:395-402 | a twin group's list holds exactly the children with that twin group number |
| LayoutTree.SeparateOne | src/utils/genogramLayout.ts:395-402 | one child of the first pass keeps the invariant: the map holds exactly the non-empty twin groups seen so far, and the groups and singles together hold each child seen so far once |
| LayoutTree.AddTwin | src/utils/genogramLayout.ts:396-398 | a child with a truthy twin group joins its group's list, opening it when new, and the invariant is kept |
| LayoutTree.JoinTwinGroup | src/utils/genogramLayout.ts:396-398 | a twin whose number already has a list joins the end of that list, and the first-pass invariant is kept |
| LayoutTree.OpenTwinGroup | src/utils/genogramLayout.ts:396-398 | a twin with a new number opens a list for it, listed last in the map's order, and the first-pass invariant is kept |
| LayoutTree.SeparateTwins | src/utils/genogramLayout.ts:391-402 | after the first pass every child is in exactly one twin list or in `singles`, and singles have no twin group |
| LayoutTree.PushTwinGroups | src/utils/genogramLayout.ts:404-406 | one group per map entry is pushed, each the full list of one twin group, holding exactly the pooled twins |
| LayoutTree.PushedGroup | src/utils/genogramLayout.ts:404 | pushing the next number's list adds exactly its twins to the pooled groups, and the pushed list is one whole twin group |
| LayoutTree.PushSingles | src/utils/genogramLayout.ts:407-408 | each single becomes its own one-child group, appended in order after the twin groups |
| LayoutTree.PushedSingle | src/utils/genogramLayout.ts:407 | pushing the next single appends a one-child group holding it, after the groups already pushed |
| LayoutTree.GroupChildrenByTwin | src/utils/genogramLayout.ts:390-418 | the groups partition the children (each child exactly once); each group is one child without a twin group, or all children sharing one twin group; the first-member ages (missing = 0) never increase |
| LayoutPlace.NodeKindOf | src/utils/genogramLayout.ts:177-189 | pregnancy, miscarriage or abortion gives a pregnancy node whatever the gender; otherwise the node type follows the gender; never a marriage node |
| LayoutPlace.MarriageLineKind | src/utils/genogramLayout.ts:292-307 | the marriage line is divorced iff either partner is divorced, else married |
| LayoutPlace.PrimaryKeys | src/utils/genogramLayout.ts:444 | the twin id list has one entry per twin, the twin's key, in order |
| LayoutPlace.CreateMarriageCheck | src/utils/genogramLayout.ts:281-348 | the marriage edge goes from the first partner to the second with the divorced/married kind; the anchor is midway between x1 + 60 and x2 + 20, 20 below the row; the map records the anchor for the couple in both orders |
| LayoutPlace.CreateChildEdge | src/utils/genogramLayout.ts:350-388 | the child edge leaves the couple's marriage node when the map has one, else the parent, and targets the child with its adopted/foster flags; when the map gives the unit's own anchor it is exactly the unit's `ChildEdge` for that child |
| LayoutPlace.CreateTwinEdges | src/utils/genogramLayout.ts:420-480 | nothing for no twins; otherwise one twin edge from the parent source to the first twin, carrying all twin keys; for identical twins also one link between each neighbouring pair; every twin hangs below the source; every edge joins the source and the twins; the list is exactly `TwinEdges(source, twins)` |
| LayoutPlace.TwinEdgesAre | src/utils/genogramLayout.ts:441-479 | a list made of the twin-group edge (from the source to the first twin, carrying the twin keys and the identical flag) followed, for identical twins, by the n - 1 neighbour links, and nothing for no twins, is `TwinEdges(source, twins)` |
| LayoutPlace.IdenticalLinks | src/utils/genogramLayout.ts:463-479 | one straight link from each twin to the next, n - 1 in all, which is `IdenticalLinksOf(twins)` |
| LayoutPlace.IdenticalLinksOf | src/utils/genogramLayout.ts:463-479 | the reference list of identical links: n - 1 links for n ≥ 1 twins (none for none), the i-th from twin i to twin i + 1 |
| LayoutPlace.RowGeometry | src/utils/genogramLayout.ts:163-213 | the parent block is centred on x + width/2, and the spouse sits 130 right of the primary on the same row; with the anchor, the row fits in [x, x + width] without overlap |
| LayoutPlace.RowKeys | src/utils/genogramLayout.ts:191-213 | the row draws the primary and the spouse, then the anchor; its person keys followed by the children's keys are the unit's keys |
| LayoutPlace.RowMap | src/utils/genogramLayout.ts:337-339 | after the marriage check, a couple's child and twin edges leave the couple's anchor; no other couple's map entry changes |
| LayoutPlace.ParentRow | src/utils/genogramLayout.ts:163-228 | the parent row of a unit: centred geometry, its keys, its edges (the marriage edge exactly for a couple, which is all of a childless unit's edges), and the anchor as edge source for the unit |
| LayoutPlace.JoinUnit | src/utils/genogramLayout.ts:230-258 | the parent row stacked above the children block 150 lower gives a unit within [x, x + width] without overlaps, holding the unit's keys once each, with every child hung from the unit |
| LayoutPlace.LayoutNode | src/utils/genogramLayout.ts:150-259 | the primary's box is on row y at x + width/2 - parents width/2 (`PersonBox`); the spouse is 130 right of it and the anchor is at x + width/2; the children lie in a block centred on the same axis, 150 lower; all nodes are within [x, x + width], none overlap, each key of the unit appears once, every edge joins drawn nodes, and every child hangs from the unit's anchor or person; a couple's first edge is its marriage edge, and the edges are, up to order, `UnitEdges(t)`: the marriage edge of each couple in the subtree, one child edge for each single child, and for each twin group one twin edge plus n - 1 identical links when identical, nothing else |
| LayoutPlace.LayoutParents | src/utils/genogramLayout.ts:159-228 | the primary's box at `PersonBox`, and for a couple the spouse 130 right of it and the anchor at x + width/2, 20 below the row; the row fits [x, x + width] without overlap; its edges are exactly the couple's marriage edge (none when unpaired); afterwards the unit's child edges leave its anchor, and only the unit's couples change in the map |
| LayoutPlace.Childless | src/utils/genogramLayout.ts:230 | a unit without children is its parent row: no children block, span 0, and the row's person keys are the unit's keys |
| LayoutPlace.JoinChildren | src/utils/genogramLayout.ts:230-258 | the children block appended after the parent row keeps that row as the prefix, lies in the centred block 150 lower, and the whole unit stays within [x, x + width] without overlaps, each key once, each child hung from the unit; the row's edges stay first, and with the couple's edges in front the whole list is, up to order, `UnitEdges(t)` |
| LayoutPlace.LayoutChildren | src/utils/genogramLayout.ts:230-258 | the returned twin groups partition the children in age order; with start = x + width/2 - block/2, the j-th child of the concatenated groups has its person box on row y + 150 at start + (widths of the children before it) + 30·j, centred over its own width; the block lies in [start, start + block] with no overlaps, each child key once, each child hung from the unit; the edges are, up to order, `ChildrenEdges(t, t.children)`: each child's own unit edges plus its child or twin links, once per child |
| LayoutPlace.PlaceGroup | src/utils/genogramLayout.ts:239-257 | one group of the children loop: its members' boxes at cursor + (widths before) + 30·j on the children's row, the cursor moved past all of them, each member hung from the unit, and the edges, up to order, the group's share `ChildrenEdges(t, group)`: one child edge for a single child, the twin edges once for a twin group |
| LayoutPlace.SingleGroupEdges | src/utils/genogramLayout.ts:243-247 | a group on the single-child branch (one member, or no truthy twin group) gets exactly one child edge per member besides the members' own edges |
| LayoutPlace.TwinGroupEdges | src/utils/genogramLayout.ts:248-256 | a group on the twin branch: the members' own edges followed by one set of `TwinEdges` for the group are, up to order, the group's share of the unit's edges, so no twin gets a child edge of its own |
| LayoutPlace.TwinPrefix | src/utils/genogramLayout.ts:248-256 | for the first k twins of a group, their share of the unit's edges is their own edges plus the group's twin edges once |
| LayoutPlace.TwinLinks | src/utils/genogramLayout.ts:248-256 | within a twin group of two or more, the first twin brings the group's twin edges and every other twin brings none |
| LayoutPlace.ChildrenEdgesPermutation | src/utils/genogramLayout.ts:233-238 | laying the children out in the grouped order rather than the input order draws the same edges, up to order |
| LayoutPlace.ChildrenEdgesAppend | src/utils/genogramLayout.ts:239-257 | the edges of two runs of children laid out one after the other are the first run's edges followed by the second's |
| LayoutPlace.PlaceMembers | src/utils/genogramLayout.ts:239-256 | the j-th member of the group has its person box on the children's row at cursor + (widths of the members before it) + 30·j, centred over its own width (singles and twins alike); the cursor ends at cursor + all widths + 30 per member; the group's boxes fit in its span without overlap; the edges are, up to order, each member's own unit edges plus one child edge per member on the single-child branch and none on the twin branch |
| LayoutPlace.PlaceMember | src/utils/genogramLayout.ts:243-253 | the i-th member's subtree is appended after the boxes so far, its person box first at the cursor on the children's row and every box of it within [cursor, cursor + its width]; the cursor moves by its width plus 30; the boxes so far stay within the span without overlap, the keys placed so far are the members' keys once each, and the edges so far are the members' own edges plus, on the single-child branch, one child edge each |
| LayoutPlace.MemberLinks | src/utils/genogramLayout.ts:243-246 | a member's edges, with its child edge added on the single-child branch, join drawn nodes or the unit's anchor, hang the member on that branch, and are its own unit edges plus that one child edge |
| LayoutPlace.MemberGeometry | src/utils/genogramLayout.ts:243-246 | a member laid out at the cursor lies right of the earlier members, so the boxes placed so far fit the span and do not overlap |
| LayoutPlace.GroupGeometry | src/utils/genogramLayout.ts:239-257 | a group laid out after the earlier groups extends the span by 30 plus its own span, with no overlap |
| LayoutPlace.ChildrenPlaced | src/utils/genogramLayout.ts:233-258 | once every group is placed, the placed span is the children block and all children are drawn and hung |
| LayoutPlace.ParentSourceKept | src/utils/genogramLayout.ts:362-369 | laying out descendants never changes the couple's map entry, so every child edge of the unit leaves the couple's anchor |
| LayoutPlace.SizeForest | src/utils/genogramLayout.ts:143 | every tree of the forest is sized, its people unchanged |
| LayoutPlace.LayoutForest | src/utils/genogramLayout.ts:268-273 | the j-th tree's root box is on row 0 at (widths of the trees before it) + 100·j, centred over its width; every key appears once, no boxes overlap, every coordinate is nonnegative, every edge joins drawn nodes, and the edges are, up to order, `ForestEdges(sized)`: each tree's `UnitEdges`, once per tree |
| LayoutPlace.PlaceTree | src/utils/genogramLayout.ts:269-273 | the i-th tree's nodes are appended with its root box first at the current x on row 0 and every box within [x, x + its width]; the current x, which was (widths before) + 100·i, moves by the tree's width plus 100; the trees so far lie left of it without overlap, each of their keys is drawn once, and the edges so far are, up to order, the first i + 1 trees' edges |
| LayoutPlace.ForestGeometry | src/utils/genogramLayout.ts:269-273 | a tree laid out at the current x, right of all earlier trees, overlaps none of them |
| LayoutPlace.ForestRecords | src/utils/genogramLayout.ts:269-273 | appending one tree's nodes and edges to those of the trees before it keeps each key once, keeps every edge between drawn nodes, and extends the edges, up to order, by that tree's `UnitEdges` |
| LayoutPlace.MarriageEdgeDrawn | src/utils/genogramLayout.ts:214-253 | every couple anywhere below a unit, reached through the recursive `layoutNode` calls on the children, has its marriage edge among the unit's edges |
| LayoutPlace.ForestMarriageEdges | src/utils/genogramLayout.ts:226-273 | every couple in any tree of the forest has its marriage edge among the forest's edges |
| LayoutPlace.CalculateGenogramLayout | src/utils/genogramLayout.ts:27-276 | no people give no nodes and no edges; otherwise every distinct key is drawn as exactly one person node, all nodes lie at x ≥ 0 and y ≥ 0, no two boxes overlap, and every edge joins two drawn nodes; the laid-out trees are, one for one, the sized trees of `GenogramForest(familyData)`, the forest the build makes from this input (roots, person map and spouse pairing included); they hold each key once with root boxes on row 0 at (widths before) + 100·j; the edges are, up to order, `ForestEdges` of these trees, so every couple the build pairs has its marriage edge among the edges |
| Store.GenogramStore.constructor | src/store/useGenogramStore.ts:35-39 | the store starts with no people, key counter 1, no selection and no history |
| Store.GenogramStore.SaveHistory | src/store/useGenogramStore.ts:43-47 | the prior `{familyData, nextKey}` is pushed on `past` and `future` is emptied |
| Store.GenogramStore.AddPerson | src/store/useGenogramStore.ts:41-74 | the new state is `Apply(old, add)` and the returned key is the prior counter, which the appended person carries |
| Store.GenogramStore.UpdatePerson | src/store/useGenogramStore.ts:76-147 | the new state is `Apply(old, update)`, with the history saved before the checks |
| Store.GenogramStore.UpdatePersonChecked | src/store/useGenogramStore.ts:76-147 | the new state is `UpdatedChecked(old, ...)`: as `updatePerson`, but a rejected update changes nothing |
| Store.GenogramStore.DeletePerson | src/store/useGenogramStore.ts:149-174 | the new state is `Apply(old, delete)` |
| Store.GenogramStore.SelectPerson | src/store/useGenogramStore.ts:176-178 | null clears the selection; a key becomes the only selected key |
| Store.GenogramStore.ToggleSelectPerson | src/store/useGenogramStore.ts:180-189 | the new state is `Apply(old, toggle)` |
| Store.GenogramStore.Reset | src/store/useGenogramStore.ts:191-204 | the new state is `Apply(old, reset)` |
| Store.GenogramStore.ImportData | src/store/useGenogramStore.ts:206-219 | the new state is `Apply(old, import)` |
| Store.GenogramStore.ExportData | src/store/useGenogramStore.ts:221-228 | the export is version "1.0" with the present counter and people |
| Store.GenogramStore.ClearAllPositions | src/store/useGenogramStore.ts:229-240 | the new state is `Apply(old, clear positions)` |
| Store.GenogramStore.Undo | src/store/useGenogramStore.ts:242-257 | the new state is `Undone(old)` |
| Store.GenogramStore.Redo | src/store/useGenogramStore.ts:259-274 | the new state is `Redone(old)` |
| Store.UndoRedoWithoutHistory | src/store/useGenogramStore.ts:242-262 | undo with an empty `past`, and redo with an empty `future`, change nothing |
| Store.RedoAfterUndo | src/store/useGenogramStore.ts:242-273 | undo restores the last snapshot's people and counter and moves one entry from `past` to `future`; redo after it restores the people, counter and history (the selection stays cleared) |
| Store.UndoAfterRedo | src/store/useGenogramStore.ts:242-273 | redo restores the first future snapshot and moves one entry back to `past`; undo after it restores the state (the selection stays cleared) |
| Store.AddPersonAppends | src/store/useGenogramStore.ts:41-73 | add appends one person with key = the prior counter, moves the counter on by exactly 1, clears the selection and saves history |
| Store.AddPersonLinksSpouse | src/store/useGenogramStore.ts:57-65 | a named (truthy) spouse's records now name the new key as spouse, with the new person's relation status; everyone else is unchanged |
| Store.AddLeavesFormerPartnerLink | src/store/useGenogramStore.ts:57-65 | adding a person as spouse of 2 while 1 and 2 are married links 2 and the new person both ways, but 1 still names 2 |
| Store.AddPersonFreshKey | src/store/useGenogramStore.ts:49-69 | when all keys are below the counter, the new key is used by no one else, existing keys are kept, and all keys stay below the new counter |
| Store.WithSpouseLink | src/store/useGenogramStore.ts:59-65 | linking a spouse keeps the number of records and every key |
| Store.FindByKey | src/store/useGenogramStore.ts:86 | `find` gives the first person with the key, and none exactly when no one has it |
| Store.ChildrenOfKey | src/store/useGenogramStore.ts:98 | the children are exactly the people whose father or mother is the key |
| Store.IsDescendant | src/store/useGenogramStore.ts:97-104 | the loop over the children with early returns answers `Descends` |
| Store.DescendsHasLineage | src/store/useGenogramStore.ts:97-104 | a yes from the descendant search means a real parent-to-child chain from the person to the target, at most `fuel` generations long |
| Store.LineageDescends | src/store/useGenogramStore.ts:97-104 | every parent-to-child chain of at most `fuel` generations is found by the search |
| Store.LineageWithinRecords | src/store/useGenogramStore.ts:97-104 | every parent-to-child chain, of any length, is found by the search bounded by one generation per record, because a longer chain repeats a key and can be cut short |
| Store.DescendsIffLineage | src/store/useGenogramStore.ts:97-104 | the search bounded by one generation per record answers yes exactly when a parent-to-child chain joins the two keys, which is what the unbounded recursion of `isDescendant` decides when it terminates |
| Store.ShortLineage | src/store/useGenogramStore.ts:97-104 | every parent-to-child chain has one with the same ends and at most one generation per record |
| Store.UpdateAppliedIff | src/store/useGenogramStore.ts:86-111 | the update goes through iff the key is present, it does not make the person their own parent, and the new (truthy) father or mother is not a descendant; it is "not found" iff the key is absent |
| Store.MergedFamily | src/store/useGenogramStore.ts:113-118 | the merge keeps the number of records and every key |
| Store.Released | src/store/useGenogramStore.ts:121-127 | releasing the old spouse keeps the number of records and every key |
| Store.UpdateKeepsKeys | src/store/useGenogramStore.ts:113-143 | an accepted update keeps the number of records and every record's key |
| Store.UpdateMergesPerson | src/store/useGenogramStore.ts:113-118 | the person's records take the update, unless the person is also their own old or new spouse |
| Store.UpdateReleasesOldSpouse | src/store/useGenogramStore.ts:120-127 | a previous spouse that named the person and is no longer the spouse loses the spouse and gets status 'married' |
| Store.UpdateLinksSpouse | src/store/useGenogramStore.ts:129-143 | the resulting (truthy) spouse names the person back, with `updates.relationStatus` or else the person's status |
| Store.UpdateSetsOwnSpouse | src/store/useGenogramStore.ts:113-127 | a truthy spouse the update sets (other than the person) is named by every record of the person afterwards, so the person and that spouse name each other |
| Store.UpdateLeavesFormerPartnerLink | src/store/useGenogramStore.ts:113-143 | with 1 and 2 married and 3 single, `updatePerson(3, { spouse: 2 })` goes through and links 2 and 3 both ways, but 1 still names 2: spouse links are not kept symmetric store-wide |
| Store.UpdateLeavesOthers | src/store/useGenogramStore.ts:113-143 | everyone other than the person, the old spouse and the resulting spouse keeps their record |
| Store.CheckUpdate | src/store/useGenogramStore.ts:85-145 | the checks and record updates inside `updatePerson`'s second `set`, with the descendant search bounded by the number of records, give `UpdateFamily` |
| Store.RejectedUpdateStillSaves | src/store/useGenogramStore.ts:76-111 | as written, a rejected update keeps the people but pushes a snapshot identical to the present and empties `future`, so the next undo restores nothing |
| Store.SelfParentAddsHistory | src/store/useGenogramStore.ts:88-94 | concretely: making person 1 their own father is rejected, yet `past` gains an entry; the corrected update leaves the store as it was |
| Store.CheckedUpdateReverts | src/store/useGenogramStore.ts:76-111 | corrected, a rejected update leaves the whole store unchanged; an accepted one behaves as written |
| Store.DeleteKeepsOthers | src/store/useGenogramStore.ts:159-167 | the remaining people are exactly those with another key, each with only its references to the key cleared |
| Store.DeleteLeavesNoDangling | src/store/useGenogramStore.ts:159-167 | after a delete, no one has the key or names it as father, mother or spouse |
| Store.DeleteKeySet | src/store/useGenogramStore.ts:160 | delete removes exactly the key from the set of keys |
| Store.DeleteClearsKey | src/store/useGenogramStore.ts:149-174 | after `deletePerson(k)`, k is no person's key and is not selected |
| Store.Removed | src/store/useGenogramStore.ts:185 | filtering out a key keeps exactly the other keys |
| Store.ToggleFlips | src/store/useGenogramStore.ts:180-189 | toggling selects the key iff it was not selected, and keeps every other key's selection |
| Store.ToggleTwice | src/store/useGenogramStore.ts:180-189 | toggling an unselected key twice restores the selection |
| Store.SelectionOnly | src/store/useGenogramStore.ts:176-189 | select and toggle change only the selection |
| Store.ResetEmpties | src/store/useGenogramStore.ts:191-204 | reset empties the people, restarts the counter at 1 and clears the selection; undo brings the people back |
| Store.ClearPositionsOnly | src/store/useGenogramStore.ts:237-239 | clearing sets every position to null, changes no other field and no count, and clearing twice equals clearing once |
| Store.ExportAfterImport | src/store/useGenogramStore.ts:206-228 | export after importing d gives d's people and counter with version '1.0', and the selection is cleared |
| Store.ImportAfterExport | src/store/useGenogramStore.ts:206-228 | importing the export restores the people and counter and saves the present in history |
| Store.MutationsSaveHistory | src/store/useGenogramStore.ts:43-47 | every mutating action (add, update, delete, reset, import, clear positions) pushes the prior `{familyData, nextKey}` onto `past` and empties `future` |

## Left out

- The input list is not sorted in place. When no one is parentless, the source sorts the caller's `familyData` array in place, which is the store's array. The model sorts its own copy and uses it for the rest of the layout. The caller's array is not modelled.
- The React Flow `data` and `style` payloads of nodes and edges are not modelled: names, ages, flags, attributes, colours, stroke widths and handles. Nodes keep their id, type and position; edges keep their id, source, target, type and the twin or adoption data.
- Ids are datatypes, not strings. The marriage-node map's `"k1-k2"` keys are `Couple(k1, k2)` values. The model therefore does not capture two couples whose string keys collide.
- `getNodeType`'s default branch (an unknown gender) is not modelled: the gender type has only the four genders.
- Manual positions are not applied. The diagram component replaces a computed position with a stored one; the layout itself ignores `position`.
- No twin anchor node exists in the model, because the source creates none: a twin group only adds edges.
- The tree nodes' own `x` and `y` fields are not stored. The layout writes them but reads only the emitted node positions.
- LayoutPlace.LayoutNode: does not restate where each child's person box goes; LayoutPlace.LayoutChildren states it for the children block that LayoutNode appends.
- LayoutPlace.LayoutChildren: that each child's whole subtree lies in [its start, its start + its width] is stated when the child is placed (LayoutPlace.PlaceMember), not for the finished block.
- LayoutPlace.PlaceMembers: the same holds for the members of one group; the per-member interval is stated by LayoutPlace.PlaceMember.
- LayoutPlace.LayoutForest: that each tree's whole layout lies in [its start, its start + its width] is stated when the tree is placed (LayoutPlace.PlaceTree), not for the finished list.
- LayoutPlace.LayoutNode, LayoutPlace.LayoutChildren, LayoutPlace.LayoutForest and LayoutPlace.CalculateGenogramLayout: the edge list is stated up to order (as a multiset equal to the reference `UnitEdges` or `ForestEdges`), except that a couple's marriage edge comes first. The source emits them in the age-sorted group order; the diagram draws an edge the same wherever it sits in the list.
- LayoutTree.PushTwinGroups: does not state the order of the twin groups, which is the map's insertion order; only the final age order is stated.
- LayoutTree.GroupChildrenByTwin: does not state the order among groups of equal first-member age, which the stable sort keeps from the input order.
- The store's `persist` middleware and localStorage are not modelled. They are foreign library I/O.
- The `console.warn` messages are not modelled. They are output only.
- `useSelectedPerson` is not modelled. It is a React hook beside the store, not a store action.
- Store.IsDescendant: the search is bounded by one generation per record. Store.DescendsIffLineage proves that this bound loses no line of descent, so every descendant the source finds is found. On cyclic parent data the source may recurse until the stack overflows; the model answers instead.
- Spouse symmetry: the comments at src/store/useGenogramStore.ts:57 and :129 call these steps spouse-relation synchronisation, but the code only links the person and the new spouse, and releases the person's own former spouse. The model follows the code, so no store-wide symmetry invariant is stated; Store.UpdateLeavesFormerPartnerLink and Store.AddLeavesFormerPartnerLink show the link that stays behind.
- A `Partial<Person>` update cannot change `key`. The update type has no key field, so an update that renames a person is not modelled.
- Explicit `undefined` and `null` in an update are the same in the model. Both are "set to no value", unlike an absent field.
- `addPerson`'s `position || null` is not a separate case: an absent position is already `None`.

## Findings

| source | as written | input that shows it | evidently intended | confidence | as-written member | corrected member |
|---|---|---|---|---|---|---|
| src/store/useGenogramStore.ts:76-111 | `updatePerson` pushes the history snapshot before its checks. The rejection branches return `{ past: state.past }` (and `state` when the key is absent), which keeps the pushed snapshot and the emptied `future`. | A store holding person 1, then `updatePerson(1, { father: 1 })`. The people are unchanged, but `past` gains a copy of the present and `future` is cleared, so one undo restores nothing. | The comments say "revert history save if no change": a rejected update should leave `past` and `future` as they were. | medium; not executed | Store.RejectedUpdateStillSaves | Store.CheckedUpdateReverts |
