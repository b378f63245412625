# Verification of the thing kernel, its compositor and its host runtime

This project models the parts of the system whose correctness depends on more than one function, and
proves what they promise. `dafny verify dfyconfig.toml` checks all of it.

- **The kernel graph store** (`GraphTypes`, `GraphLog`, `GraphMachine`, `GraphRuns`, `GraphOutcomes`,
  `GraphDelivery`, `GraphSnapshots`, `Paging`, `GraphStore`). The graph is a change log; `GraphMachine`
  gives every operation as a function on it, `GraphOutcomes` and `GraphDelivery` say what each request
  leaves in the graph, permits and sends to which watch, `GraphRuns` proves the invariant for every run of
  operations, and the class `GraphStore.Store`, with its maps, indexes, guarded inserts and bounded queues,
  is proved to do what that machine does.
- **The host runtime** (`HostWatch`, `HostRuntime`). Pushed changes, the re-scan on every poll, the
  revision watermark and partial drains together deliver every change exactly once.
- **The software renderer** (`Geometry`, `Pixel`, `Line`, `Scene`, `Primitives`, `Repaint`, `FastPath`,
  `ClipStacks`, `Layers`, `Windows`, `WindowRepaint`, `Renderer`, `Display`, `CursorSprite`). A scene means a
  function on each pixel; `Primitives` says what each primitive puts where, the raster loops are proved
  against that meaning, and the cursor-only fast path is proved to leave the frame a full repaint would,
  with the exact conditions under which it does.
- **The allocators** (`Frames`, `BootAllocator`, `Pools`, `PooledFrames`, `BumpAllocator`). Carving is
  exact, frames are handed out in list order, the two frame allocators never hand out the same frame,
  and the lock-free heap hands out no overlapping blocks as long as alignments do not wrap around.
- **Small protocols and layout** (`InputRing`, `RuntimeCell`, `FlexLayout`, `FlexPlacement`, `GridLayout`).

## What the proofs found

Some promises hold only under a condition. Each is kept as the code has it, with a lemma for the exact
condition.

- An empty clip intersection is stored as "no clip" (`Repaint.PushNestsIff`, `ClipStacks.ClipStackIff`), so
  a window that the dirty rectangle misses is repainted unclipped. The buffer is right whatever the
  windows show only if every window on the screen meets the dirty rectangle
  (`WindowRepaint.WindowsIff`); otherwise a window away from the cursor is painted over the windows above
  it (`WindowRepaint.LowerWindowCovers`, with the arrow in `WindowRepaint.ArrowUncoversLowerWindow`).
- The fill loops clamp the start of a rectangle but keep its length (`Repaint.SpanHonoursRectIff`), so the
  dirty rectangle must not start left of or above the screen either, unless the cursor hides what it
  reaches (`FastPath.FastPathIff`). A cursor with its hotspot in the middle gets there at the left and top
  edges, and a strip of the buffer turns black (`FastPath.CornerPointerFails`). The arrow, with its hotspot
  in the corner, does not (`FastPath.CornerHotspotIsSafe`).
- The screen is spared most of this, because only dirty pixels are copied to it: a frame whose rectangles
  start on the screen and whose windows paint only inside their frames is shown right, wherever the cursor
  and the windows are (`WindowRepaint.WellPlacedIsShown`). For other frames the exact condition is
  `WindowRepaint.ShownWindowsIff`; a fill that overflows a window (`WindowRepaint.ArrowShowsOverflow`) or
  starts off the screen (`FastPath.OffScreenFillShows`) is shown in the wrong place.
- The rectangle compared to see whether the cursor moved is not clamped to the screen, but the drawn
  cursor is (`Repaint.PointerRectIsDrawnIff`); for a pointer set to positions off the screen nothing may be
  dirty although the drawn cursor moves (`FastPath.OffScreenPointerStays`). A cursor that changes its look
  but not its rectangle is not repainted (`Renderer.BitmapRenderer.CursorTick`).
- The kernel's paging cursor counts results and is used to skip index positions, so a caller that can
  read only part of the index may see a thing twice, but never misses one (`Paging.SeenOnceIff`,
  `Paging.SeenTwice`).
- A host watch is handed the things that existed before it only if it is polled before the first matching
  change; a matching change pushed earlier raises the watermark above them (`HostWatch.BaseAfterPoll`,
  `HostRuntime.OlderThingMissed`).
- A fiat of an id that exists makes its caller an owner of the thing (`GraphRuns.OwnsGainedIff`,
  `GraphRuns.SecondFiatOwns`).
- The pooled frame allocator does not carve around the guarded windows, so its panics can fire
  (`PooledFrames.PooledGuardsFireIff`, `PooledFrames.PooledGuardExample`).
- The heap's alignment arithmetic wraps for a large enough alignment, and then the block starts at
  address 0 (`BumpAllocator.RunSoundIff`, `BumpAllocator.WrappedRun`).
- SpaceAround adds its extra gap twice between items (`FlexLayout.SpaceAroundStaysInsideIff`).
- Tiled windows are enlarged to a minimum size and then may overlap
  (`GridLayout.TiledWindowsApartIff`); gaps that do not fit underflow (`GridLayout.TileWindows`).

Where code and comments disagree, the model follows the code:

- kernel/src/drivers/input.rs:11-13 says that writers only fail when the buffer is full; a push also
  fails when it meets a pop (`InputRing.PushFailsIff`, `InputRing.PushFailsOnEmpty`).
- kernel/src/graph/store.rs:252-253 says that a holder of a capability may grant it; only the owner of
  the target and the kernel may, and hardware capabilities only the kernel
  (`GraphRuns.GrantSucceedsIff`, `GraphRuns.HolderIsRefused`).

## Model

| member | source | states |
|---|---|---|
| `GraphLog.Members` | kernel/src/graph/store.rs:585-613 | the edge list, the index by source and predicate, and the version lists hold exactly the matching records of the log |
| `GraphLog.AuthorityGrows` | kernel/src/graph/store.rs:524-557 | permission to read, write or link is never lost when edges are added |
| `GraphMachine.AddThing` | kernel/src/graph/store.rs:585-598 | a newer version keeps revisions in order and every stored edge authorized |
| `GraphMachine.AddEdge` | kernel/src/graph/store.rs:600-613 | a newer edge its owner may link keeps the order and the authority of all edges |
| `GraphMachine.NextIsNewest` | kernel/src/graph/store.rs:376-380 | the next revision is above everything stored, so the guarded inserts keep it |
| `GraphMachine.SeenIsStable` | kernel/src/graph/store.rs:382-410 | what a watch was sent is not changed by later records |
| `GraphMachine.SeenSplits` | kernel/src/graph/store.rs:110-122 | what a watch sees splits at any poll without loss or repetition |
| `GraphMachine.SeenInOrder` | kernel/src/graph/store.rs:382-410 | what a watch sees was announced, in strictly increasing revision order |
| `GraphRuns.EnsureBundleSound` | kernel/src/graph/store.rs:449-467 | creating a bundle's node keeps the invariant and every earlier record, and the node exists afterwards |
| `GraphRuns.FiatSound` | kernel/src/graph/store.rs:135-163 | a fiat keeps the invariant; its thing is the latest version and the caller owns it, so neither insert was dropped |
| `GraphRuns.LinkSound` | kernel/src/graph/store.rs:176-199 | a link, refused or not, keeps the invariant |
| `GraphRuns.GrantSound` | kernel/src/graph/store.rs:255-302 | a grant keeps the invariant, the capability edge being one its recorded owner may link, and a successful one leaves the grantee holding the capability |
| `GraphRuns.GrantSucceedsIff` | kernel/src/graph/store.rs:255-277 | a grant succeeds if and only if the kernel grants a known capability or the owner of the target grants a data capability, and a refused one changes nothing |
| `GraphRuns.HolderIsRefused` | kernel/src/graph/store.rs:252-277 | after a run in which a bundle was granted CAN_READ it can read the node and is refused when it grants CAN_READ on |
| `GraphRuns.OwnsGainedIff` | kernel/src/graph/store.rs:135-302 | an operation makes a bundle own a thing if and only if it is its own fiat of that id or a permitted link of an ownership edge |
| `GraphRuns.SecondFiatOwns` | kernel/src/graph/store.rs:135-163 | a run in which a bundle that may not write a thing may do so after its own fiat of the same id |
| `GraphRuns.SetPropsSound` | kernel/src/graph/store.rs:236-250 | setting properties keeps the invariant, and on success the latest version has the new revision and every given property; what happens to everything else is `GraphOutcomes.SetPropsExact` |
| `GraphRuns.RegisterSound` | kernel/src/graph/store.rs:51-65 | a new watch has an unused id and keeps the invariant |
| `GraphRuns.PendingIsNewer` | kernel/src/graph/store.rs:110-122 | everything pending is newer than everything a watch was handed |
| `GraphRuns.PolledInOrder` | kernel/src/graph/store.rs:110-122 | batches of one watch are strictly increasing within and across polls |
| `GraphRuns.PollSound` | kernel/src/graph/store.rs:110-122 | a poll keeps the invariant |
| `GraphRuns.RestoreSound` | kernel/src/graph/store.rs:358-374 | applying a snapshot of a sound store gives a sound store without watches |
| `GraphRuns.StepSound` | kernel/src/graph/store.rs:51-374 | every operation, with every snapshot of a reachable store among them, keeps the invariant |
| `GraphRuns.RunSound` | kernel/src/graph/store.rs:25-374 | after every run, roll-backs to earlier snapshots and snapshots of other stores included: revisions below the counter, versions and edges strictly increasing, every edge authorized, every watch history exact |
| `GraphRuns.EveryEdgeAuthorized` | kernel/src/graph/store.rs:537-557 | in every reachable state each stored edge is one its recorded owner may still link |
| `GraphRuns.WatchDelivery` | kernel/src/graph/store.rs:382-410 | in every reachable state a watch's batches and queue are, in strictly increasing revision order, a subsequence of the visible matching changes since registration, from which exactly the changes lost to the bound are missing; which changes match is said by the lemmas of `GraphDelivery` ending in DeliveredIff |
| `GraphRuns.PendingAnnounced` | kernel/src/graph/store.rs:382-410 | an announcement adds one change to a watch exactly when it is visible to the owner and matches |
| `GraphRuns.OwnFiatIsSeen` | kernel/src/graph/store.rs:157-161 | a caller's own matching watch ends with the thing just created, because the ownership edge comes first |
| `GraphOutcomes.SetPropsExact` | kernel/src/graph/store.rs:236-250 | set_props merges: the new latest version has the given properties, every other property with its old value, and the old id, kind, labels and owner; every other thing and every edge is as before, and a refused call changes nothing |
| `GraphOutcomes.NewThingRequested` | kernel/src/graph/store.rs:135-151 | a new thing has exactly the requested labels, the least of them as kind, and the requested properties with the caller as owner property unless one is given |
| `GraphOutcomes.EnsureBundleExact` | kernel/src/graph/store.rs:449-467 | a bundle gets its own node on first use only, silently, and nothing else changes |
| `GraphOutcomes.FiatExact` | kernel/src/graph/store.rs:135-163 | a fiat stores what was requested as the latest version, adds one ownership edge from the caller, announces the thing, and touches at most the caller's own node besides |
| `GraphOutcomes.LinkExact` | kernel/src/graph/store.rs:176-199 | a refused link changes nothing and returns 0; a permitted one leaves an edge between the two nodes: a new one with the requested properties and the returned revision, or the newest there was, whose revision is returned and nothing changes |
| `GraphOutcomes.GrantExact` | kernel/src/graph/store.rs:255-302 | a successful grant adds one edge from the grantee to the target that names the capability and the grantor |
| `GraphDelivery.NobodyMay` | kernel/src/graph/store.rs:524-557 | without edges only the kernel may read, write or link |
| `GraphDelivery.EdgePermits` | kernel/src/graph/store.rs:486-557 | what each edge adds to who may read, write and link what, exactly |
| `GraphDelivery.GrantPermits` | kernel/src/graph/store.rs:255-302 | a grant permits exactly what its capability names, to the grantee, at the target |
| `GraphDelivery.AnnouncedIff` | kernel/src/graph/store.rs:382-410 | an announced change ends the queue of a watch exactly when the watch receives it, and otherwise the queue stays |
| `GraphDelivery.QueueIsTail` | kernel/src/graph/store.rs:382-410 | a queue is the newest pending changes, 1024 of them at most |
| `GraphDelivery.RegisterExact` | kernel/src/graph/store.rs:51-65 | a new watch has the given owner and pattern and an empty queue; no other watch changes |
| `GraphDelivery.PollExact` | kernel/src/graph/store.rs:110-122 | a poll hands out the whole queue and empties it, or returns nothing exactly when there is no such watch or nothing queued; no other watch and no record changes |
| `GraphDelivery.LinkDeliveredIff` | kernel/src/graph/store.rs:382-443 | a new edge ends the queue of a watch if and only if its owner can read one end or made it and the pattern fits: labels of the source node (or, if there is none, of the destination), and each property one of that node or the edge's source, destination or predicate |
| `GraphDelivery.EndpointWatches` | kernel/src/graph/store.rs:412-443 | a watch on a source gets exactly the new edges from it that its owner may see; likewise for a destination and for a predicate given as text or as symbol |
| `GraphDelivery.ThingDeliveredIff` | kernel/src/graph/store.rs:382-443 | an announced thing ends the queue of a watch if and only if it is public, an input event or readable to the owner, and has every label and property of the pattern |
| `GraphDelivery.FiatDeliveredIff` | kernel/src/graph/store.rs:135-163 | the same for a fiat, over the labels and properties requested |
| `GraphDelivery.SetPropsDeliveredIff` | kernel/src/graph/store.rs:236-250 | the same for set_props, over the old labels and the merged properties |
| `GraphDelivery.NothingHiddenDelivered` | kernel/src/graph/store.rs:559-583 | in every reachable state a watch holds and was handed no edge of which its owner can read neither end and which it did not make, and no thing its owner may not see |
| `GraphSnapshots.ReplayOneThing` | kernel/src/graph/store.rs:585-598 | replaying increasing versions of a new thing drops none and touches nothing else |
| `GraphSnapshots.ReplayAllEdges` | kernel/src/graph/store.rs:600-613 | replaying an increasing edge list drops none |
| `GraphSnapshots.SnapshotRoundTrip` | kernel/src/graph/store.rs:343-374 | a store in order restores every version, every edge and its counter from its own snapshot |
| `GraphSnapshots.SnapshotLists` | kernel/src/graph/store.rs:343-356 | a snapshot holds exactly the versions and edges of the store, things in the order of their ids |
| `GraphSnapshots.SameContentsSameIndexes` | kernel/src/graph/store.rs:343-374 | the restored store agrees on all ids, all kinds and all edge indexes |
| `GraphSnapshots.FilterOfEdges` | kernel/src/graph/store.rs:606-612 | the index by source and predicate is the in-order filter of the edge list |
| `GraphSnapshots.RestoredSound` | kernel/src/graph/store.rs:358-374 | the replayed log keeps order and authority |
| `GraphStore.ThingAppended` | kernel/src/graph/store.rs:585-598 | adding a version to the thing map and the kind index keeps both equal to what the log says |
| `GraphStore.EdgeAppended` | kernel/src/graph/store.rs:600-613 | adding an edge to the list and its index keeps both equal to what the log says |
| `GraphStore.SameContentsSameMaps` | kernel/src/graph/store.rs:358-374 | stores of the same contents have equal maps |
| `GraphStore.QueueAnnounced` | kernel/src/graph/store.rs:382-410 | appending to a bounded queue and dropping the oldest keeps it the last 1024 pending changes |
| `GraphStore.InsertsKept` | kernel/src/graph/store.rs:153-159 | a thing and its ownership edge sharing the next revision are both kept by the guarded inserts |
| `GraphStore.FiatIsListed` | kernel/src/graph/store.rs:67-163 | a thing just made is found by its kind by the caller that made it |
| `GraphStore.Store.constructor` | kernel/src/graph/store.rs:25-35 | a new store is the empty graph |
| `GraphStore.Store.HasEdge` | kernel/src/graph/store.rs:486-513 | the index lookup finds an edge exactly when the log holds one |
| `GraphStore.Store.MayRead` | kernel/src/graph/store.rs:524-529 | the index answers readability as the log does |
| `GraphStore.Store.MayWrite` | kernel/src/graph/store.rs:531-535 | the index answers writability as the log does |
| `GraphStore.Store.MaySee` | kernel/src/graph/store.rs:559-583 | the index answers visibility of a change as the log does |
| `GraphStore.Store.LatestOf` | kernel/src/graph/store.rs:304-309 | the stored latest version is the log's |
| `GraphStore.Store.MayLink` | kernel/src/graph/store.rs:537-557 | the loop over link capabilities returns exactly whether the log permits the edge |
| `GraphStore.Store.EdgeBetween` | kernel/src/graph/store.rs:327-333 | the backward search finds the latest edge to the destination, if any |
| `GraphStore.Store.InsertThing` | kernel/src/graph/store.rs:585-598 | the indexes after a guarded insert describe the log after it, whether it was dropped or kept |
| `GraphStore.Store.InsertEdge` | kernel/src/graph/store.rs:600-613 | as above, for edges |
| `GraphStore.Store.NotifyWatches` | kernel/src/graph/store.rs:382-410 | the loop over the watches leaves every queue as the machine says, which is the queue of `GraphDelivery.AnnouncedIff` and `GraphDelivery.QueueIsTail` |
| `GraphStore.Store.EnsureBundleNode` | kernel/src/graph/store.rs:449-467 | refines the machine's step |
| `GraphStore.Store.Fiat` | kernel/src/graph/store.rs:135-163 | refines the machine's step and returns its thing |
| `GraphStore.Store.Link` | kernel/src/graph/store.rs:176-199 | refines the machine's step and returns its revision, 0 on refusal |
| `GraphStore.Store.Grant` | kernel/src/graph/store.rs:255-302 | refines the machine's step and returns whether it was allowed |
| `GraphStore.Store.Props` | kernel/src/graph/store.rs:236-250 | refines the machine's step (`GraphOutcomes.SetPropsExact`) and returns whether it was allowed |
| `GraphStore.Store.Register` | kernel/src/graph/store.rs:51-65 | refines the machine's step and returns the watch id |
| `GraphStore.Store.Poll` | kernel/src/graph/store.rs:110-122 | refines the machine's step: the queue is handed out and emptied, or nothing is |
| `GraphStore.Store.TakeSnapshot` | kernel/src/graph/store.rs:343-356 | every version of every thing in id order, every edge, and the last revision |
| `GraphStore.Store.ApplySnapshot` | kernel/src/graph/store.rs:358-374 | for any snapshot, the indexes describe exactly what the guarded inserts kept |
| `GraphStore.Store.RestoreFrom` | kernel/src/graph/store.rs:343-374 | applying the snapshot of any reachable store, itself included, gives its maps, indexes, edges and counter exactly |
| `GraphStore.Store.FindByKind` | kernel/src/graph/store.rs:67-108 | a page is the latest versions of the readable ids its range of the sorted kind index gives, with the cursor the paging model gives |
| `GraphStore.Store.FollowKind` | userland/src/runtime.rs:101-139 | the caller's loop ends and collects what following the cursor yields |
| `Paging.NextIsInside` | kernel/src/graph/store.rs:67-108 | the cursor grows and stays inside the index, so following it ends |
| `Paging.FollowMissesNothing` | kernel/src/graph/store.rs:67-108 | following the cursor yields an id if and only if it is indexed and readable |
| `Paging.FollowIsLongEnough` | kernel/src/graph/store.rs:67-108 | it never yields fewer results than there are readable positions |
| `Paging.SeenOnceIff` | kernel/src/graph/store.rs:67-108 | it yields each readable id once, in order, if and only if fewer than a page of readable ids lie between the block of 100 of each unreadable position and the last position |
| `Paging.SeenTwice` | kernel/src/graph/store.rs:67-108 | an index of 102 ids with one unreadable id, of which following the cursor yields one id twice |
| `Paging.FullReaderSeesIndex` | kernel/src/graph/store.rs:67-108 | a caller that can read everything gets the index exactly |
| `HostWatch.SortIncreasing` | thing_host/src/lib.rs:280-281 | changes with distinct revisions come out strictly increasing, none lost or added |
| `HostWatch.SortKeeps` | thing_host/src/lib.rs:280-281 | sorting a queue already in order changes nothing |
| `HostWatch.PushKeepsExact` | thing_host/src/lib.rs:142-150 | a push keeps delivered and queued changes together exactly what the watch is owed |
| `HostWatch.PushKeepsScan` | thing_host/src/lib.rs:142-150 | a change made after registration can never be found again by a re-scan |
| `HostWatch.NothingNew` | thing_host/src/lib.rs:262-281 | once a watch is owed anything, a re-scan finds nothing above its watermark |
| `HostWatch.ScanIsComplete` | thing_host/src/lib.rs:262-276 | the first re-scan finds every matching older thing and nothing newer |
| `HostWatch.PollDrains` | thing_host/src/lib.rs:280-297 | draining any number of changes keeps the watch exact |
| `HostWatch.PollScans` | thing_host/src/lib.rs:262-297 | a first poll takes the older things, sorted, ahead of everything else |
| `HostWatch.PollKeeps` | thing_host/src/lib.rs:255-297 | every poll, with any limit and in any listing order of the store, keeps the watch exact |
| `HostWatch.BaseAfterPoll` | thing_host/src/lib.rs:262-297 | a poll before any matching change takes exactly the matching things of the store, and no later poll takes an older thing |
| `HostRuntime.PushKeepsAll` | thing_host/src/lib.rs:142-150 | one push keeps every watch exact |
| `HostRuntime.EdgePushed` | thing_host/src/lib.rs:427-448 | an edge is appended to the queue of a watch exactly if its pattern has no property and, when it has labels, one of them is named like the edge's predicate |
| `HostRuntime.ThingPushed` | thing_host/src/lib.rs:412-448 | a thing is appended exactly if it has every label and every property of the pattern |
| `HostRuntime.NewWatchSound` | thing_host/src/lib.rs:235-246 | a watch starts with nothing owed |
| `HostRuntime.UuidsDiffer` | thing_abi/src/lib.rs:599-602 | ids made from different counts are different, and both halves of an id are its count |
| `HostRuntime.KindMatchesExact` | thing_host/src/store.rs:112-145 | the sorted matches are each thing of the kind once, in id order |
| `HostRuntime.HostRuntime.constructor` | thing_host/src/lib.rs:45-78 | an empty runtime satisfies the invariant |
| `HostRuntime.HostRuntime.PushChange` | thing_host/src/lib.rs:142-150 | the loop offers the change to every watch that matches and to no other; what matches is `HostRuntime.EdgePushed` and `HostRuntime.ThingPushed` |
| `HostRuntime.HostRuntime.Fiat` | thing_host/src/lib.rs:156-180 | the thing with the given or the next made id replaces any with that id, gets the next revision, and goes to the queue of exactly the watches whose labels and properties it has |
| `HostRuntime.HostRuntime.Link` | thing_host/src/lib.rs:181-204 | the edge gets the given or the next made id and the next revision, and goes to the queue of the watches without properties whose labels are none or name its predicate; things are untouched |
| `HostRuntime.HostRuntime.PropsSet` | thing_host/src/lib.rs:333-345 | fails exactly when the thing is missing, and then changes nothing; otherwise merges the fields and pushes |
| `HostRuntime.HostRuntime.WatchRegister` | thing_host/src/lib.rs:235-246 | the id is new and the watch starts empty |
| `HostRuntime.HostRuntime.WatchUnregister` | thing_host/src/lib.rs:247-250 | removes the watch and nothing else |
| `HostRuntime.HostRuntime.Scan` | thing_host/src/lib.rs:263-271 | finds the matching things above the watermark, each once, in any order |
| `HostRuntime.HostRuntime.WatchPoll` | thing_host/src/lib.rs:251-324 | hands out at most as many changes as asked, and leaves some queued only if it handed out that many, with the watermark before and after, takes all older matching things if nothing was owed and none otherwise, touches no other watch, and keeps exactly-once delivery; an unknown watch gives an empty batch |
| `HostRuntime.HostRuntime.ExactlyOnceDelivery` | thing_host/src/lib.rs:142-324 | in every reachable state, delivered plus queued is the older things followed by exactly the matching changes since registration, strictly increasing in revision; if there are older things they are all that still match unchanged; what matches is `HostRuntime.EdgePushed` and `HostRuntime.ThingPushed` |
| `HostRuntime.OlderThingMissed` | thing_host/src/lib.rs:142-297 | a run in which a thing made before a watch is not delivered, because a matching thing was made before its first poll |
| `HostRuntime.HostRuntime.FindByKind` | thing_host/src/store.rs:112-145 | a page is the slice of the sorted matches at the cursor, with a next cursor exactly when more follow |
| `HostRuntime.HostRuntime.FindAll` | userland/src/graph.rs:90-118 | the caller's loop ends with exactly the sorted matches |
| `Geometry.IntersectRect` | compositor/src/framebuffer_backend.rs:168-179 | the intersection holds exactly the shared pixels, and there is none exactly when no pixel is shared |
| `Geometry.Union` | compositor/src/types.rs:23-30 | the union covers both rectangles |
| `Pixel.PackingRoundTrip` | compositor/src/types.rs:50-65 | packing a colour into 32 bits and unpacking are inverse in both directions, and alpha, red, green and blue are the bytes from the highest down |
| `Pixel.Blend` | userland/src/graphics.rs:1-17 | transparent keeps the background, opaque replaces it, anything else is opaque; the channels are said by `Pixel.BlendByChannel` |
| `Pixel.MixIsWeighted` | userland/src/graphics.rs:1-17 | weight 0 keeps the background channel, weight 255 gives the foreground, and between them the channel moves by the weight's share of the way, rounded down |
| `Pixel.MixIsMonotone` | userland/src/graphics.rs:1-17 | a heavier weight moves the channel further towards the foreground |
| `Pixel.BlendByChannel` | userland/src/graphics.rs:1-17 | each channel of a blend lies between the two sources' own, is shared out by the foreground's alpha, and depends on no other channel |
| `Pixel.OverIsBlend` | compositor/src/framebuffer_backend.rs:331-361 | filling with a solid colour is the same blend |
| `Pixel.InkIsCovered` | compositor/src/framebuffer_backend.rs:583-656 | a glyph pixel blends its colour with the coverage's share of its alpha; coverage 0 keeps the pixel and 255 replaces it |
| `Pixel.LayIsWeighted` | compositor/src/framebuffer_backend.rs:703-727 | compositing adds to a sprite channel the share of the pixel below that the sprite's alpha leaves |
| `Pixel.PremultipliedNeverCarries` | compositor/src/framebuffer_backend.rs:703-727 | a premultiplied sprite pixel never overflows one channel into the next, though the source has no clamp |
| `Line.OneOffsetPerStep` | compositor/src/framebuffer_backend.rs:743-791 | a line has one pixel per step of its longer axis |
| `Line.AdvanceStaysOnLine` | compositor/src/framebuffer_backend.rs:782-790 | one turn of the loop stays on the rounded ideal line and inside the box of the end points |
| `Line.WithinHalfPixel` | compositor/src/framebuffer_backend.rs:743-791 | every visited pixel is within half a pixel of the ideal line |
| `Line.WalkTakesEveryStep` | compositor/src/framebuffer_backend.rs:743-791 | the loop reaches the end point after exactly max(dx, dy) turns and not before |
| `Primitives.CursorDrawsSprite` | compositor/src/framebuffer_backend.rs:658-730 | column i and row j of a cursor's sprite appear at that distance from its hotspot |
| `Primitives.GlyphDrawsMask` | compositor/src/framebuffer_backend.rs:583-656 | column i and row j of a glyph's mask cover that pixel exactly if clip and text bounds admit it |
| `Primitives.BlitDrawsImage` | compositor/src/framebuffer_backend.rs:363-405 | column i and row j of an image appear at the rectangle's corner, moved back by the offset |
| `Primitives.ImageRepeats` | compositor/src/bitmap.rs:31-46 | a repeated image starts again after its width and height; otherwise there is nothing beyond its edges |
| `Primitives.HatchLines` | compositor/src/framebuffer_backend.rs:189-215 | hatching paints every spacing-th diagonal, beginning with the one through the origin |
| `Primitives.LineDrawsEnds` | compositor/src/framebuffer_backend.rs:732-792 | a line is drawn through both of its ends |
| `Primitives.LineIsStraight` | compositor/src/framebuffer_backend.rs:732-792 | every pixel of a line lies in the box of its ends and within half a pixel of the straight line through them |
| `Primitives.ClearFills` | compositor/src/framebuffer_backend.rs:48-63 | clearing gives every pixel the colour, whatever was drawn before |
| `Primitives.LaterCoversEarlier` | compositor/src/framebuffer_backend.rs:52-146 | an opaque rectangle covers what was drawn before it inside the current clip and nothing else |
| `Repaint.SpanHonoursClip` | compositor/src/framebuffer_backend.rs:331-361 | under a clip on the screen the fill loops visit exactly the pixels of both rectangles |
| `Repaint.SpanHonoursRectIff` | compositor/src/framebuffer_backend.rs:339-342 | the loops visit exactly the rectangle's pixels if and only if it starts on the screen, reaches the far edge anyway, or is off it |
| `Repaint.PushNestsIff` | compositor/src/framebuffer_backend.rs:132-136 | a pushed clip restricts drawing to both rectangles if and only if they overlap |
| `Repaint.StacksStayAgreed` | compositor/src/framebuffer_backend.rs:52-146 | the clip stacks of a full and a partial repaint agree on every dirty pixel throughout |
| `Repaint.DrawnAgrees` | compositor/src/framebuffer_backend.rs:189-792 | every primitive does the same to a dirty pixel in both repaints and nothing to a clean one |
| `Repaint.CleanPixelKept` | compositor/src/framebuffer_backend.rs:163-165 | a partial repaint keeps every pixel outside the dirty rectangle |
| `Repaint.DirtyPixelRepainted` | compositor/src/framebuffer_backend.rs:163-165 | a partial repaint gives every dirty pixel its value in a full repaint, whatever was there |
| `Repaint.CursorOnlyInItsRect` | compositor/src/framebuffer_backend.rs:658-730 | the cursor changes no pixel outside its rectangle |
| `Repaint.CursorRepaintIsFullRepaint` | compositor/src/compositor.rs:840-852 | from the full frame with the old cursor, the fast path gives every pixel of the full frame with the new one |
| `Repaint.RepaintableIsExact` | compositor/src/framebuffer_backend.rs:163-165 | under the stated conditions on a scene a partial repaint is exact |
| `Repaint.NonNegativeOriginIff` | compositor/src/framebuffer_backend.rs:331-361 | for scenes without pushes, every scene is repainted exactly if and only if the dirty rectangle does not start off screen or paints nothing |
| `Repaint.PointerRectIsDrawnIff` | compositor/src/compositor.rs:672-685 | the reported cursor rectangle is the drawn one if and only if the pointer is on the screen |
| `FastPath.FastPathIff` | compositor/src/compositor.rs:840-852 | for content without pushes, the buffer ends as the full frame with the new cursor whatever the content if and only if the dirty rectangle does not start off screen or the cursor hides every pixel it can paint |
| `FastPath.FastPathOriginIff` | compositor/src/compositor.rs:840-852 | for content without pushes and a dirty rectangle that ends before the far edges this depends on its origin alone |
| `FastPath.ShownIff` | compositor/src/framebuffer_backend.rs:285-318 | for content without pushes, what is copied to the screen is right whatever the content and the buffer held if and only if the dirty rectangle does not start off screen or the cursor hides all of it |
| `FastPath.CornerHotspotIsSafe` | compositor/src/cursor.rs:244-246 | for content without pushes and a hotspot in the corner both conditions above hold wherever the pointer is |
| `FastPath.CornerPointerFails` | compositor/src/cursor.rs:260-263 | a pointer move in the screen corner that leaves a white pixel of the buffer black |
| `FastPath.OffScreenFillShows` | compositor/src/framebuffer_backend.rs:331-361 | a pointer move in the screen corner after which a rectangle that starts off screen is shown too wide |
| `FastPath.OffScreenPointerStays` | compositor/src/compositor.rs:2902-2906 | a pointer set to two positions off the screen, for which nothing on the screen is dirty although the drawn cursor moves |
| `ClipStacks.ClipStackIff` | compositor/src/framebuffer_backend.rs:132-141 | for any pushes and pops and any old buffer, everything drawn under them is repainted exactly if and only if each clip that is empty in one repaint is empty in the other and then everything is dirty |
| `ClipStacks.OverlappingPushIff` | compositor/src/framebuffer_backend.rs:132-136 | under one push that meets the screen, and from any old buffer, this is so if and only if the push overlaps the dirty rectangle |
| `Layers.FrameValue` | compositor/src/compositor.rs:761-834 | a frame of layers, each under its own window or unclipped, means the cleared screen, the layers under their clips in order, and the cursor |
| `WindowRepaint.WindowsIff` | compositor/src/compositor.rs:840-852 | for given windows, the buffer ends as the full frame with the new cursor whatever is drawn in and between them if and only if the condition on the dirty rectangle holds and every window meets the dirty rectangle if it meets the screen, and otherwise meets it only if all dirty pixels are hidden and misses it only if everything is dirty |
| `WindowRepaint.ShownWindowsIff` | compositor/src/framebuffer_backend.rs:285-318 | for given windows, what is shown is right whatever is drawn in and between them if and only if the cursor hides every dirty pixel, or the dirty rectangle does not start off screen and each window meets it exactly if it meets the screen |
| `WindowRepaint.WellPlacedIsShown` | compositor/src/compositor.rs:2573-2833 | a frame whose rectangles start on the screen and whose windows paint only inside their frames is shown right, wherever the cursor, the dirty rectangle and the windows are |
| `WindowRepaint.LowerWindowCovers` | compositor/src/compositor.rs:2657-2659 | where two windows overlap, a dirty rectangle that meets only the upper one leaves the colour of the lower one in the buffer |
| `WindowRepaint.ArrowUncoversLowerWindow` | compositor/src/compositor.rs:2657-2659 | a move of the arrow by one pixel for which this happens |
| `WindowRepaint.OverflowShows` | compositor/src/compositor.rs:2657-2659 | what a window away from the cursor paints beyond its frame is shown where it is dirty |
| `WindowRepaint.ArrowShowsOverflow` | compositor/src/compositor.rs:2657-2659 | a move of the arrow by one pixel for which this happens |
| `Renderer.CellsDistinct` | compositor/src/framebuffer_backend.rs:331-361 | no two pixels share a cell of the row-major buffer |
| `Renderer.BitmapRenderer.constructor` | compositor/src/framebuffer_backend.rs:34-40 | a new buffer is all zero |
| `Renderer.BitmapRenderer.RasterSpan` | compositor/src/framebuffer_backend.rs:331-405 | fill, hatch and blit change each pixel as their meaning says and no other |
| `Renderer.BitmapRenderer.RasterCursor` | compositor/src/framebuffer_backend.rs:658-730 | the cursor loops change each pixel as their meaning says |
| `Renderer.BitmapRenderer.RasterGlyph` | compositor/src/framebuffer_backend.rs:583-656 | the glyph loops honour screen, clip and text bounds at every pixel |
| `Renderer.BitmapRenderer.RasterLine` | compositor/src/framebuffer_backend.rs:732-792 | the uncounted loop ends, and it has blended each visible pixel of the line once and no other |
| `Renderer.BitmapRenderer.RenderScene` | compositor/src/framebuffer_backend.rs:52-146 | after the whole scene every pixel has the value the scene means |
| `Renderer.BitmapRenderer.Render` | compositor/src/framebuffer_backend.rs:154-161 | a full repaint does not depend on what was there |
| `Renderer.BitmapRenderer.RenderPartial` | compositor/src/framebuffer_backend.rs:163-165 | every pixel is as a partial repaint means |
| `Renderer.BitmapRenderer.CursorTick` | compositor/src/compositor.rs:840-855 | the buffer goes from the full frame with the old cursor to the full frame with the new one for every repaintable frame and, under the exact conditions above, for content without pushes and for windows; it stays when the rectangle did not move |
| `Display.FramebufferDevice.PresentPartial` | compositor/src/framebuffer_backend.rs:285-318 | exactly the dirty pixels on the screen are copied, for any dirty rectangle |
| `Display.FramebufferDevice.CursorTick` | compositor/src/compositor.rs:840-855 | what is shown goes from one full frame to the other although only the dirty rectangle was drawn and copied, whatever the buffer held, for every repaintable frame, every well placed one, and under the exact condition for content without pushes |
| `CursorSprite.Shadow` | compositor/src/cursor.rs:171-203 | the blurred shadow never exceeds its initial strength |
| `CursorSprite.ShadowSpreads` | compositor/src/cursor.rs:188-203 | k blur passes reach k pixels: beyond there is no shadow, and that deep inside it keeps full strength |
| `CursorSprite.ShadowStarts` | compositor/src/cursor.rs:171-187 | the shadow starts as the shape moved four pixels right and down at strength 160 |
| `CursorSprite.BlurIsMean` | compositor/src/cursor.rs:188-203 | a blur pass gives each inner pixel the mean of the nine around it and keeps the border |
| `CursorSprite.PremultiplyIsScaled` | compositor/src/cursor.rs:205-236 | premultiplying scales every channel by the colour's own alpha, rounded down |
| `CursorSprite.IconShows` | compositor/src/cursor.rs:205-236 | a pixel of the shape is the outline if and only if one of its four neighbours is not in it, and else the fill; any other pixel is the shadow |
| `CursorSprite.IconComposites` | compositor/src/cursor.rs:205-236 | every sprite pixel is premultiplied, so drawing a cursor is plain compositing |
| `CursorSprite.IconIsTransparentFarAway` | compositor/src/cursor.rs:166-242 | away from the shape and its shadow the cursor leaves the screen alone |
| `CursorSprite.BlurPass` | compositor/src/cursor.rs:189-203 | one pass in place, reading from a copy, gives the next shadow at every pixel |
| `CursorSprite.IconFromMask` | compositor/src/cursor.rs:166-242 | the loops produce the sprite pixel by pixel |
| `Frames.PagesFromExact` | kernel/src/mm/allocator.rs:315-349 | a range lists exactly the aligned frames that fit in it, ascending |
| `Frames.PagesExact` | kernel/src/mm/allocator.rs:315-349 | a list of ranges lists exactly the frames that fit in one of them |
| `Frames.PagesDistinct` | kernel/src/mm/allocator.rs:315-349 | disjoint ranges list no frame twice |
| `BootAllocator.CarveFromExact` | kernel/src/mm/allocator.rs:163-208 | carving keeps exactly the addresses outside the holes, overlapping or not |
| `BootAllocator.StackHole` | kernel/src/mm/allocator.rs:135-143 | the hole around the boot stack is page aligned, reaches from 128 KiB below the stack pointer to a page above it, and is less than a page larger at either end |
| `BootAllocator.CarveAllExact` | kernel/src/mm/allocator.rs:163-208 | for any memory map the ranges cover exactly the usable addresses above the forbidden window and outside the holes |
| `BootAllocator.CarveAllDisjoint` | kernel/src/mm/allocator.rs:163-208 | disjoint regions give disjoint ranges, each inside a usable region |
| `BootAllocator.CollectRanges` | kernel/src/mm/allocator.rs:125-212 | the loops over regions and holes record the carved ranges, up to 32 |
| `BootAllocator.RecordedExact` | kernel/src/mm/allocator.rs:163-208 | the recorded ranges cover only kept addresses, and all of them unless the slots overflow |
| `BootAllocator.GuardsNeverFire` | kernel/src/mm/allocator.rs:353-363 | every byte of every frame of the simple variant is usable and neither panic can fire |
| `BootAllocator.RecordedDistinct` | kernel/src/mm/allocator.rs:163-208 | with disjoint regions no frame is listed twice |
| `BootAllocator.BootFrameAllocator.AllocateFrame` | kernel/src/mm/allocator.rs:315-349 | over a whole run the frames are a prefix of the list, and None comes exactly when all are used |
| `BootAllocator.NewSimple` | kernel/src/mm/allocator.rs:125-231 | fails exactly when carving leaves nothing; otherwise starts with the recorded ranges |
| `Pools.LargestIsLargest` | kernel/src/mm/pools.rs:59-67 | the region picked is the first usable one of greatest length |
| `Pools.AllPoolsDisjoint` | kernel/src/mm/pools.rs:74-110 | pools of all roles are pairwise disjoint, inside usable regions and above low memory |
| `Pools.OneTablePool` | kernel/src/mm/pools.rs:74-110 | there is at most one page-table pool, and it is aligned and 4 MiB long |
| `Pools.TablePoolIff` | kernel/src/mm/pools.rs:74-110 | there is a page-table pool if and only if the largest region has room for both pools and a frame above low memory; it is then the start of that region, and the stack pool follows it |
| `Pools.PoolsCover` | kernel/src/mm/pools.rs:74-110 | pools of all roles together are exactly the usable memory above low memory |
| `Pools.PoolManager.AddPool` | kernel/src/mm/pools.rs:113-118 | a pool is recorded while there is a slot |
| `Pools.PoolManager.Init` | kernel/src/mm/pools.rs:46-111 | records the pools of the memory map once; a second call changes nothing |
| `Pools.PageTableAllocator.AllocPtFrame` | kernel/src/mm/pools.rs:144-197 | over a whole run the frames are a prefix of the page-table pool's frames, and None comes exactly when all are used |
| `PooledFrames.SortKeeps` | kernel/src/mm/allocator.rs:292-294 | sorting by size loses and adds no range and keeps disjointness |
| `PooledFrames.SortSorts` | kernel/src/mm/allocator.rs:292-294 | the sorted ranges decrease in size, and those of one size keep their order |
| `PooledFrames.SortSlots` | kernel/src/mm/allocator.rs:292-294 | after the in-place sort the slots decrease in size, slots of one size are in their old order, and later slots are untouched |
| `PooledFrames.NewPooled` | kernel/src/mm/allocator.rs:233-313 | fails exactly when no pool has general frames; otherwise starts with the first 32 general ranges, largest first |
| `PooledFrames.FramesApart` | kernel/src/mm/allocator.rs:233-313 | a general frame is never a page-table frame |
| `PooledFrames.RecordedPoolsGood` | kernel/src/mm/pools.rs:46-118 | disjoint aligned regions give pools both allocators can use |
| `PooledFrames.Interleave` | kernel/src/mm/pools.rs:144-197 | from any memory map and any schedule of the two allocators, no frame is handed out twice all lie in usable memory, and they are the first of each list, one for each request while there are any |
| `PooledFrames.PooledGuardsFireIff` | kernel/src/mm/allocator.rs:353-363 | some general frame hits a panic if and only if a pool range touches a guarded window |
| `PooledFrames.PooledGuardExample` | kernel/src/mm/allocator.rs:353-363 | a memory map whose first general frames lie in the forbidden window |
| `BumpAllocator.WrapsToZero` | kernel/src/mm/bump_allocator.rs:37-73 | when the alignment arithmetic wraps, the aligned address is 0 |
| `BumpAllocator.ExchangeSoundIff` | kernel/src/mm/bump_allocator.rs:37-73 | a successful exchange keeps the heap invariant if and only if the arithmetic did not wrap |
| `BumpAllocator.StepSoundIff` | kernel/src/mm/bump_allocator.rs:37-73 | a load or exchange of any thread keeps the invariant if and only if it does not hand out a block whose alignment arithmetic wrapped, and never takes a block back |
| `BumpAllocator.RunSoundIff` | kernel/src/mm/bump_allocator.rs:37-73 | every interleaving keeps the invariant throughout if and only if no block it hands out came from wrapped arithmetic |
| `BumpAllocator.RunSound` | kernel/src/mm/bump_allocator.rs:37-73 | such an interleaving ends sound, never lowers `next` and keeps every block |
| `BumpAllocator.BlocksDisjoint` | kernel/src/mm/bump_allocator.rs:24-73 | in such an interleaving of any number of threads every block is aligned and inside the heap, and all are pairwise disjoint |
| `BumpAllocator.AloneIsFirstFit` | kernel/src/mm/bump_allocator.rs:37-73 | a request no other thread interrupts is given the first aligned address from `next` on, with at least a word of space, if and only if that fits in the heap; otherwise the heap is unchanged |
| `BumpAllocator.FittingRequestsAreSafe` | kernel/src/mm/bump_allocator.rs:37-73 | an interleaving whose requests cannot wrap anywhere in the heap window is one of these |
| `BumpAllocator.KernelHeapFits` | kernel/src/mm/layout.rs:27-29 | the kernel's heap admits every alignment up to 64 TiB |
| `BumpAllocator.WrappedRun` | kernel/src/mm/bump_allocator.rs:37-73 | on the kernel's heap a request aligned to 128 TiB is given address 0 |
| `InputRing.PushLoadTailSound` | kernel/src/drivers/input.rs:34-42 | the full test is exact for the tail it sees |
| `InputRing.PushWriteSound` | kernel/src/drivers/input.rs:43-46 | the write goes to a slot without an unread value |
| `InputRing.PopLoadTailSound` | kernel/src/drivers/input.rs:52-60 | a pop finds the buffer empty exactly when nothing is unread |
| `InputRing.StepSound` | kernel/src/drivers/input.rs:34-67 | every load, lock and store keeps the invariant |
| `InputRing.RunSound` | kernel/src/drivers/input.rs:34-67 | so does every interleaving of one producer and one consumer |
| `InputRing.FirstInFirstOut` | kernel/src/drivers/input.rs:34-88 | under any interleaving popped values are a prefix of accepted ones, at most N - 1 are held, and `len` and `is_empty` tell how many |
| `InputRing.PushAlone` | kernel/src/drivers/input.rs:34-50 | a push that meets no pop and finds room appends its value |
| `InputRing.PopAlone` | kernel/src/drivers/input.rs:52-67 | a pop that meets no push takes the oldest unread value |
| `InputRing.PushFailsIff` | kernel/src/drivers/input.rs:34-50 | a push fails if and only if N - 1 values are unread or a pop holds the lock |
| `InputRing.PushFailsOnEmpty` | kernel/src/drivers/input.rs:11-13 | an interleaving in which a push into an empty buffer fails |
| `RuntimeCell.StepSound` | thing_abi/src/lib.rs:555-576 | every step of any thread keeps the invariant, and an initialised cell keeps its value |
| `RuntimeCell.SetOnce` | thing_abi/src/lib.rs:547-581 | under any interleaving at most one set succeeds, and every get that returns a runtime returns that one |
| `RuntimeCell.SetThenGet` | thing_abi/src/lib.rs:555-581 | a set of an empty cell that is not interrupted succeeds, and the next get returns its runtime |
| `RuntimeCell.InitialisedForGood` | thing_abi/src/lib.rs:571-576 | once initialised, every later get returns the value and every later set fails |
| `FlexLayout.BreakLines` | compositor/src/layout.rs:155-192 | lines concatenate to the children, a line of several items fits, and no line could have taken the next item |
| `FlexLayout.PlaceLine` | compositor/src/layout.rs:195-336 | each item of a line is where justification, alignment and growth put it, which `FlexPlacement` says of the placed items |
| `FlexLayout.ItemsFollow` | compositor/src/layout.rs:266-336 | items of a line follow each other at least the gap apart |
| `FlexLayout.ItemInBand` | compositor/src/layout.rs:281-312 | items of a wrapped line stay inside its band across the main axis |
| `FlexLayout.LayoutFlex` | compositor/src/layout.rs:141-340 | one rectangle per child in order, all apart, for every justification, alignment, wrapping and growth share; where they are is said by `FlexPlacement` |
| `FlexLayout.RectsDisjoint` | compositor/src/layout.rs:314-330 | placed items that are apart share no pixel, in both directions |
| `FlexLayout.StaysInsideUnlessAround` | compositor/src/layout.rs:230-336 | a fitting line that does not grow stays inside the main axis in every mode but SpaceAround |
| `FlexLayout.BrokenLinesStayInside` | compositor/src/layout.rs:155-336 | so does every line of several items that line breaking makes |
| `FlexLayout.StaysInsideIff` | compositor/src/layout.rs:230-336 | in every mode a line that does not grow stays inside if and only if its lead, its cut-down sizes and its strides fit |
| `FlexLayout.SpaceAroundStaysInsideIff` | compositor/src/layout.rs:230-336 | a SpaceAround line that does not grow stays inside if and only if its cut-down sizes, its gaps, the lead and the doubled extra gaps fit in the main axis |
| `FlexLayout.SpaceAroundOverflows` | compositor/src/layout.rs:230-336 | a fitting line that SpaceAround pushes outside |
| `FlexPlacement.GrowingLine` | compositor/src/layout.rs:195-336 | on a line where something grows the items start at the beginning, stand the gap apart, and each gets its basis and its share of the free space up to its maximum |
| `FlexPlacement.StillLine` | compositor/src/layout.rs:195-336 | on a line that does not grow each item has its basis up to its maximum, and neighbours stand the gap apart, widened alike by the two spacing modes only |
| `FlexPlacement.JustifyExact` | compositor/src/layout.rs:230-336 | on a fitting line that does not grow: start begins at 0; end ends exactly at the far edge; centre leaves as much before as after, within one; space-between begins at 0 and, with several items, ends within their number less two of the far edge; what maxima cut off is missing at the end |
| `FlexPlacement.SpaceAroundExact` | compositor/src/layout.rs:230-336 | space-around begins after a half share of the free space and leaves two whole shares between neighbours |
| `FlexPlacement.OverfullLine` | compositor/src/layout.rs:230-336 | a line without free space begins at 0 and keeps the gap in every mode |
| `FlexPlacement.BandExact` | compositor/src/layout.rs:195-229 | the band of a wrapped line is as wide as its widest item; an unwrapped line has the container's |
| `FlexPlacement.AlignExact` | compositor/src/layout.rs:281-312 | across the main axis start and stretched items begin where the band begins, end items end where it ends, centred ones are in its middle within one; stretched items fill it up to their maximum |
| `FlexPlacement.BandsFollow` | compositor/src/layout.rs:195-336 | the first line is at the start, and each next one a gap after the band of the line before |
| `FlexPlacement.RectExact` | compositor/src/layout.rs:314-330 | in a row the main axis runs right and items have their own width, in a column it runs down and they have their own height, each up to its maximum |
| `GridLayout.LengthsIff` | compositor/src/layout.rs:120-129 | the size of the last column or row is computed without underflow if and only if the gaps fit |
| `GridLayout.ExtentIsStart` | compositor/src/layout.rs:102-129 | a full row or column and its gaps sum exactly to the size of the area |
| `GridLayout.LayoutGrid` | compositor/src/layout.rs:102-140 | as many children as there are cells are placed, each in its cell, unless a placed child's size underflows |
| `GridLayout.CellsDisjoint` | compositor/src/layout.rs:112-139 | cells share no pixel |
| `GridLayout.CellInArea` | compositor/src/layout.rs:112-139 | cells lie inside the area |
| `GridLayout.NeighbourCells` | compositor/src/layout.rs:102-139 | the first cell is in the corner, the next a gap to the right and as tall, the one below a gap down and as wide, the last ones end where the container ends, and all but the last are as large as the first |
| `GridLayout.MaximumCuts` | compositor/src/layout.rs:129-139 | a maximum cuts a cell down at its far side and changes nothing else |
| `GridLayout.PickGrid` | compositor/src/compositor.rs:1525-1530 | the least number of columns whose square holds all windows, and the fewest rows of that many |
| `GridLayout.ChosenIsUnique` | compositor/src/compositor.rs:1525-1530 | those two numbers are determined by the number of windows |
| `GridLayout.TileWindows` | compositor/src/compositor.rs:1520-1566 | every window is moved to its own cell, or the layout underflows: exactly when the gaps of the chosen grid do not fit |
| `GridLayout.TiledWindowFillsCell` | compositor/src/compositor.rs:1545-1551 | a tiled window is in the corner of its cell and fills it, and is larger only where the cell is below the minimum |
| `GridLayout.TiledWindowsApartIff` | compositor/src/compositor.rs:1545-1551 | no two tiled windows overlap if and only if the minimum window size fits between neighbouring cells |
| `GridLayout.TilingExamples` | compositor/src/types.rs:132-150 | on a 640 x 480 screen ten windows are apart and the first two of seventeen overlap |

## Left out

- Integer widths: revisions, handles and counters are unbounded, and 32-bit overflow in geometry and layout is not modelled, except where a lemma above speaks of wrap-around or underflow.
- Text: shaping, wrapping and measurement belong to a font library; a glyph arrives placed, with its coverage mask.
- Symbols and derived ids: the symbol table and the derivation of ids from content are functions given to the model.
- Memory order: the ring and the runtime cell interleave atomic steps in one order; weaker orderings are not modelled.
- Store wrappers: `fiat`, `that`, `register_watch`, `get_nodes`, `get_props`, `latest_of_kind`, `edges_of` and `changes_since` only call or filter what is modelled.
- Journal and events: logging and event emission have no effect on the state modelled.
- GraphStore.Store.TakeSnapshot: does not model the snapshot's thing and edge counts, because applying a snapshot ignores them.
- GraphStore.Store.FollowKind: pages one unchanged store; changes between two pages are not modelled.
- HostRuntime.HostRuntime.WatchPoll: does not model two calls at once, because every call is one atomic step; nor a failing store.
- The Neo4j store, the HTTP and WebSocket server and the device calls of the host: input and output.
- Renderer.BitmapRenderer.CursorTick: windows are not nested in each other, as in every frame `tick` draws; for nested pushes only `Repaint.Repaintable` applies.
- WindowRepaint.WellPlacedIsShown: that the widgets of a window paint only inside its frame is a condition here; widgets are not modelled.
- The other branches of `tick`, `resize`, full `present` and frame publication: they call `Render` or copy the whole frame.
- How scenes are made: window chrome, widgets, wallpaper, scroll bars and hit tests.
- The stencils of the individual cursors: constant shapes; `CursorSprite` holds for every stencil.
- BootAllocator.GuardsNeverFire: does not model the optional kernel-image and page-table checks, because they depend on addresses known only at boot.
- BumpAllocator.StepSoundIff: takes clearing the low bits below a power of two as rounding down to a multiple.
- InputRing.FirstInFirstOut: does not model `clear` while a push or pop is under way.
- FlexLayout.PlaceLine: does not model the floating-point share of a growing item, which is any natural number.
- Row, Column and Stack layouts: they place the children side by side, one below the other, or all over the whole container, without breaking lines or growing.
