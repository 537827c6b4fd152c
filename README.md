# HeartAR trackable reconciliation, modelled in Dafny

HeartAR is a set of Unity scripts on top of Google's ARCore SDK. Three
controllers keep virtual models in step with what ARCore tracks:

- **MarkerAnchorController** keeps one model instance per entry of the
  augmented-image database. It uses two arrays indexed by database index:
  the instance table and the last-seen table. Each frame, while the session
  is tracking, it reconciles the tables with the images ARCore reports as
  updated. A Tracking image with an empty slot gets a new anchor and an
  instance parented under it. A Tracking image with a filled slot refreshes
  its last-seen time. A Stopped image destroys its instance. A Paused image
  changes nothing. Indices beyond the table are skipped. A sweep then
  destroys every instance not seen for more than 5 seconds.
- **PlaneAnchorController** places one model under a new anchor for a tap
  that passes four guards: a first touch that has just begun, not over UI,
  a raycast hit, and not the back face of a detected plane. The instances
  go in a growable list. Each frame, a reverse loop removes every entry whose
  trackable is Stopped and destroys its anchor.
- **ManipulatorController** does the same for tap gestures. Its guards are:
  not cancelled, no target object, a raycast hit, not a back face. The model
  sits under a manipulator, which sits under the anchor. Cleanup destroys
  the anchor, which is the model's grandparent.

Files:

- `wrappers.dfy`: `Option`.
- `scene.dfy`: tracking states, trackable references, and placed game
  objects with their parent chain. It also holds raycast hits, the back-face
  predicate, and the invariants shared by all lists: every instance has its
  anchor, no two share one, every handle is allocated, no live instance's
  anchor is in the destroy log, and every logged handle was allocated.
- `cleanup.dfy`: what the reverse cleanup loop computes. `Kept` is the
  surviving list and `DestroyOrder` the anchors destroyed, in destruction
  order. Lemmas about both.
- `marker.dfy`: the marker controller. `Table` and the functions on it
  give one frame on values. The class `MarkerAnchorController` runs the
  frame in place on two arrays and is proved to compute exactly `Frame`.
- `plane.dfy`, `manipulator.dfy`: the two tap controllers as classes. Each
  has a `seq` field for the list, a handle counter and a log of destroyed
  anchors.

Modelling choices:

- ARCore and Unity are inputs:
  - The updated images are a sequence of `(databaseIndex, trackingState)`.
  - `Time.time` is the parameter `now`, a `real`.
  - The raycast result is an `Option<TrackableHit>`.
  - The back-face dot product is the boolean `facesAway`.
  - `IsPointerOverGameObject` is a function from finger id to bool.
  - The current tracking state of every trackable is a function `TrackingStates`.
- `Instantiate` and `CreateAnchor` return fresh handles from a counter field.
  `Destroy` of an anchor appends its handle to the `destroyed` log.
  Destroying an anchor takes all its descendants with it. The log therefore
  records "instance destroyed ⇒ anchor destroyed" (the model is a
  descendant of its anchor: its child in the marker and plane controllers,
  its grandchild under the manipulator).
- A null `GameObject` is `None`. A missing `ArPrefab` component is a
  `component` of `None`.
- `TrackAugmentedImages` never reads an image's tracking method, and a
  Paused image changes nothing. The model does the same.

## Model

| member | source | states |
|---|---|---|
| `MarkerAnchor.MarkerAnchorController.Start` | Assets/Scripts/MarkerAnchorController.cs:51-56 | both tables are newly allocated, with one slot per prefab, every slot empty with last-seen 0; the tables are `const` arrays, so no later operation changes their length |
| `MarkerAnchor.MarkerAnchorController.Update` | Assets/Scripts/MarkerAnchorController.cs:59-66 | the state becomes `Frame` of the old state while the session is Tracking, and is unchanged for any other session status |
| `MarkerAnchor.MarkerAnchorController.TrackAugmentedImages` | Assets/Scripts/MarkerAnchorController.cs:69-135 | the two arrays, the handle counter and the destroy log after the in-place pass and sweep are exactly `Frame(old state, images, now)`; the table invariant is kept |
| `MarkerAnchor.MarkerAnchorController.TrackImage` | Assets/Scripts/MarkerAnchorController.cs:77-121 | the body of the per-image loop changes the arrays exactly as `ApplyImage` says |
| `MarkerAnchor.MarkerAnchorController.SweepStaleMarkers` | Assets/Scripts/MarkerAnchorController.cs:126-134 | the in-place `for` sweep computes `SweepUpTo` over every slot |
| `MarkerAnchor.MarkerAnchorController.DestroyPrefab` | Assets/Scripts/MarkerAnchorController.cs:143-153 | the slot's anchor is logged as destroyed, the slot becomes empty, its last-seen becomes 0; nothing else changes |
| `MarkerAnchor.MarkerAnchorController.ArePrefabsInstantiated` | Assets/Scripts/MarkerAnchorController.cs:138-141 | true iff some slot of the instance table is non-null |
| `MarkerAnchor.AnyInstantiated` | Assets/Scripts/MarkerAnchorController.cs:140 | the recursive `Any` over the table is true iff some slot holds an instance |
| `MarkerAnchor.Created` | Assets/Scripts/MarkerAnchorController.cs:86-103 | filling an empty slot with a new instance under a fresh anchor keeps the table invariant: the two tables stay in step, anchors stay distinct |
| `MarkerAnchor.Refreshed` | Assets/Scripts/MarkerAnchorController.cs:104-110 | moving a filled slot's last-seen time keeps the table invariant |
| `MarkerAnchor.Cleared` | Assets/Scripts/MarkerAnchorController.cs:143-153 | clearing a slot keeps the invariant (empty slot has last-seen 0), and the removed instance's anchor is in the destroy log |
| `MarkerAnchor.ApplyImage` | Assets/Scripts/MarkerAnchorController.cs:77-121 | one image keeps the invariant, touches no slot but its own, and never loses an instance without destroying its anchor |
| `MarkerAnchor.ApplyImages` | Assets/Scripts/MarkerAnchorController.cs:77-122 | the per-image pass keeps the invariant and the table lengths; every instance that leaves the table had its anchor destroyed |
| `MarkerAnchor.Stale` | Assets/Scripts/MarkerAnchorController.cs:128-129 | a slot is stale iff it holds an instance and `now` minus its last-seen time exceeds 5 seconds (a definition; `SweepBoundary` and `Frame` state its consequences) |
| `MarkerAnchor.SweepSlotEffect` | Assets/Scripts/MarkerAnchorController.cs:128-133 | about `SweepSlot`, the sweep's step at one slot: it keeps the table invariant; a stale slot is emptied and exactly its anchor is logged; any other slot leaves the table unchanged |
| `MarkerAnchor.SweepUpTo` | Assets/Scripts/MarkerAnchorController.cs:126-134 | after sweeping the first k slots, exactly the stale instances among them are gone with last-seen 0, every other slot is unchanged, no handle is allocated, and the destroy log grows by exactly the stale instances' anchors in slot order (`StaleAnchors`) |
| `MarkerAnchor.StaleAnchors` | Assets/Scripts/MarkerAnchorController.cs:126-134 | a handle is listed iff it is the anchor of a stale instance among the first k slots |
| `MarkerAnchor.Frame` | Assets/Scripts/MarkerAnchorController.cs:69-135 | after a frame every filled slot was seen at most 5 seconds before `now`; the table invariant holds, so no live instance's anchor is in the destroy log and every logged handle was allocated; every instance removed had its anchor destroyed |
| `MarkerAnchor.OutOfRangeImageIgnored` | Assets/Scripts/MarkerAnchorController.cs:82 | an image whose database index is at least the table length changes nothing |
| `MarkerAnchor.TrackingImageFillsEmptySlot` | Assets/Scripts/MarkerAnchorController.cs:84-103 | a Tracking image with an empty slot fills exactly that slot with an instance of that image under an anchor no other instance uses, sets its last-seen to now, and leaves every other slot and the destroy log unchanged |
| `MarkerAnchor.TrackingImageRefreshesFilledSlot` | Assets/Scripts/MarkerAnchorController.cs:104-110 | a Tracking image with a filled slot changes only that slot's last-seen time, to now |
| `MarkerAnchor.StoppedImageClearsSlot` | Assets/Scripts/MarkerAnchorController.cs:112-117 | a Stopped image with a filled slot empties it, resets its last-seen to 0 and destroys its anchor |
| `MarkerAnchor.PausedImageIgnored` | Assets/Scripts/MarkerAnchorController.cs:112-121 | a Paused image, or a Stopped image with an empty slot, changes nothing |
| `MarkerAnchor.InstanceNeverReplaced` | Assets/Scripts/MarkerAnchorController.cs:86 | a live instance is never overwritten by another one: its slot keeps it or becomes empty (at most one instance per index) |
| `MarkerAnchor.TrackedSlotAfterPass` | Assets/Scripts/MarkerAnchorController.cs:84-110 | after the pass, the slot of a Tracking image holds an instance seen now, unless a later image of the same index was Stopped |
| `MarkerAnchor.TrackedSlotSurvivesFrame` | Assets/Scripts/MarkerAnchorController.cs:102-108 | a slot created or refreshed in this frame survives the staleness sweep |
| `MarkerAnchor.PassIsIdentity` | Assets/Scripts/MarkerAnchorController.cs:104-110 | repeated Tracking reports for instances already seen now, with no Stopped image, change nothing |
| `MarkerAnchor.FrameIdempotent` | Assets/Scripts/MarkerAnchorController.cs:69-135 | running a frame twice with the same reports and time (no Stopped image) gives the state of running it once: no new instance, no anchor churn |
| `MarkerAnchor.SweepFindingNothingStale` | Assets/Scripts/MarkerAnchorController.cs:126-134 | a sweep that finds no stale slot leaves the whole state unchanged |
| `MarkerAnchor.SweepBoundary` | Assets/Scripts/MarkerAnchorController.cs:128-129 | a slot holds an instance after the frame iff it held one after the pass and was seen no more than 5 seconds ago |
| `MarkerAnchor.StaleMarkerRemoved` | Assets/Scripts/MarkerAnchorController.cs:23 | a marker seen at time 0 and never again is still present at 4.9 s and gone, with its anchor destroyed, at 5.1 s |
| `Cleanup.IsStopped` | Assets/Scripts/PlaneAnchorController.cs:90 | the `?.` chain of the cleanup test: a null entry or an entry without the ArPrefab component is never Stopped |
| `Cleanup.Kept` | Assets/Scripts/PlaneAnchorController.cs:87-101 | the order-preserving filter of non-Stopped entries that both reverse loops compute; its own contract only bounds the length, and what it means comes from its definition and the lemmas `KeptMembership`, `KeptAppend`, `KeptIdempotent` and `KeptEmptyIff` |
| `Cleanup.DestroyOrder` | Assets/Scripts/PlaneAnchorController.cs:94 | the anchors of the Stopped entries, back to front; its own contract only bounds the length, and what it means comes from its definition and the lemmas `DestroyOrderMembership`, `DestroyOrderAppend` and `CleanupCount` |
| `Cleanup.KeptMembership` | Assets/Scripts/PlaneAnchorController.cs:90-97 | an entry survives iff it was in the list and its trackable is not Stopped |
| `Cleanup.UntrackableEntriesKept` | Assets/Scripts/PlaneAnchorController.cs:90 | a null entry, or one without the ArPrefab component, is kept |
| `Cleanup.KeptAppend` | Assets/Scripts/PlaneAnchorController.cs:87-101 | the survivors keep their relative order: cleaning a concatenation is the concatenation of the cleaned parts |
| `Cleanup.KeptIdempotent` | Assets/Scripts/PlaneAnchorController.cs:87-101 | a second cleanup under the same tracking states removes nothing |
| `Cleanup.KeptNoneStopped` | Assets/Scripts/PlaneAnchorController.cs:90 | a list with no Stopped entry is left as it is |
| `Cleanup.KeptEmptyIff` | Assets/Scripts/PlaneAnchorController.cs:87-107 | the list becomes empty (and `ArePrefabsInstantiated` false) iff every entry was Stopped |
| `Cleanup.CleanupCount` | Assets/Scripts/PlaneAnchorController.cs:94-97 | every entry is either kept or has its anchor destroyed: kept plus destroyed equals the list length |
| `Cleanup.DestroyOrderMembership` | Assets/Scripts/ManipulatorController.cs:119-125 | the anchors destroyed are exactly those of the Stopped entries |
| `Cleanup.DestroyOrderAppend` | Assets/Scripts/ManipulatorController.cs:116 | anchors are destroyed back to front: the later part of the list is destroyed first |
| `Cleanup.KeptPreservesInvariant` | Assets/Scripts/ManipulatorController.cs:116-133 | survivors still have their anchors, no two share one, and all handles stay allocated |
| `Cleanup.KeptAnchorsLive` | Assets/Scripts/PlaneAnchorController.cs:87-101 | after the cleanup no survivor's anchor is in the destroy log, and every logged handle is still one that was allocated |
| `PlaneAnchor.PlaneAnchorController.constructor` | Assets/Scripts/PlaneAnchorController.cs:20 | the controller starts with an empty list |
| `PlaneAnchor.PlaneAnchorController.Update` | Assets/Scripts/PlaneAnchorController.cs:28-32 | tap handling, then cleanup: the new list is the cleaned list after the possible placement, the destroy log grows by that cleanup's anchors, and two handles are allocated exactly when a tap places |
| `PlaneAnchor.TapPlaces` | Assets/Scripts/PlaneAnchorController.cs:39-60 | the guard chain: a touch exists, the first one has just begun, it is not over UI, and the raycast hit is not the back of a plane (a definition; `FailedGuardPlacesNothing` shows each failing guard blocks placement) |
| `Scene.IsBackFaceHit` | Assets/Scripts/PlaneAnchorController.cs:55-57 | only a hit on a detected plane can be a back-face hit; hits on other trackables are always accepted |
| `PlaneAnchor.PlacedOnPlane` | Assets/Scripts/PlaneAnchorController.cs:64-72 | the placed instance carries the hit trackable in its ArPrefab component, its parent is the new anchor `next + 1`, and all its handles are among the two just allocated |
| `PlaneAnchor.PlaneAnchorController.TrackPlaneAnchors` | Assets/Scripts/PlaneAnchorController.cs:35-82 | when every guard passes, exactly one instance (the model under a new anchor on the hit trackable) is appended and every earlier entry is unchanged; otherwise the list is unchanged |
| `PlaneAnchor.FailedGuardPlacesNothing` | Assets/Scripts/PlaneAnchorController.cs:39-60 | no touch, a first touch not Began, a touch over UI, a raycast miss, or a back-face hit on a detected plane each prevents placement |
| `PlaneAnchor.PlaneAnchorController.CleanUntrackedObjects` | Assets/Scripts/PlaneAnchorController.cs:85-102 | the in-place reverse loop leaves exactly `Kept` of the old list and logs exactly `DestroyOrder` (each removed entry's parent anchor) |
| `PlaneAnchor.PlaneAnchorController.ArePrefabsInstantiated` | Assets/Scripts/PlaneAnchorController.cs:104-107 | true iff the list is non-empty, null entries included |
| `Manipulator.ManipulatorController.constructor` | Assets/Scripts/ManipulatorController.cs:25 | the controller starts with an empty list and nothing selected |
| `Manipulator.ManipulatorController.CanStartManipulationForGesture` | Assets/Scripts/ManipulatorController.cs:44-52 | true iff the gesture has no target object |
| `Manipulator.RefusedGesturePlacesNothing` | Assets/Scripts/ManipulatorController.cs:44-69 | a gesture for which manipulation may not start is one whose end places nothing |
| `Manipulator.FailedGuardPlacesNothing` | Assets/Scripts/ManipulatorController.cs:60-85 | a cancelled gesture, a target object, a raycast miss, or a back-face hit on a detected plane each prevents placement |
| `Manipulator.GesturePlaces` | Assets/Scripts/ManipulatorController.cs:60-85 | a gesture places only if it is one the manipulator may start for (`CanStartManipulationForGesture`), it was not cancelled, and the hit is accepted |
| `Manipulator.PlacedWithManipulator` | Assets/Scripts/ManipulatorController.cs:88-104 | the placed instance carries the hit trackable in its ArPrefab component, its grandparent is the new anchor `next + 2`, and all its handles are among the three just allocated |
| `Manipulator.ManipulatorController.OnEndManipulation` | Assets/Scripts/ManipulatorController.cs:58-112 | when every guard passes, exactly one instance is appended (model under a new manipulator under a new anchor) and the manipulator is selected; otherwise nothing changes |
| `Manipulator.ManipulatorController.CleanUntrackedObjects` | Assets/Scripts/ManipulatorController.cs:114-133 | the reverse loop leaves exactly `Kept` of the old list and destroys each removed entry's grandparent anchor, in `DestroyOrder` |
| `Manipulator.ManipulatorController.Update` | Assets/Scripts/ManipulatorController.cs:33-37 | one frame in the order the model chooses: a tap gesture that ends this frame is handled first, then cleanup runs on the resulting list; the new manipulator is selected and three handles are allocated exactly when the gesture places, otherwise the selection is unchanged |
| `Manipulator.ManipulatorController.ArePrefabsInstantiated` | Assets/Scripts/ManipulatorController.cs:135-138 | true iff the list is non-empty, null entries included |

## Left out

- ARCore and Unity runtime calls (`Session.GetTrackables`, `Frame.Raycast`, `CreateAnchor`, `Instantiate`, `Destroy`, transforms, `Time.time`) are foreign code. They are inputs, fresh handles and a destroy log.
- Poses and the back-face test: the dot product in `Vector3.Dot(...) < 0` is floating-point vector maths. It is the boolean input `facesAway`. The raycast filter flags only shape which hits ARCore returns, so they are not modelled.
- Floating-point time: `Time.time` and the last-seen table are `float` in the source and `real` here. Rounding is not modelled.
- `Debug.Log` calls only produce output.
- The base `Manipulator` class and the gesture system of ARCore's object-manipulation example are not part of this model. `ManipulatorController.Update` takes as an input a tap gesture that ends this frame. Which gestures get delivered, and when `CanStartManipulationForGesture` is asked, is not modelled.
- `Manipulator.ManipulatorController.Update`: the model handles a gesture that ends this frame before the cleanup. In the program their order within a frame depends on Unity's script execution order. So an entry placed on a trackable that is already Stopped may only be removed in the next frame. The model does not capture that order.
- `Select()` on the new manipulator is the `selected` field of the controller. The rest of the manipulation system's selection logic is external.
- `DatabaseIndex` is a `nat`. ARCore never reports a negative index. For a Tracking or Stopped image the source would index the arrays with it and throw; a Paused one is only logged.
- `MarkerAnchor.MarkerAnchorController.TrackAugmentedImages`: the per-image loop body and the sweep loop are the helper methods `TrackImage` and `SweepStaleMarkers`, which keep each proof small. The order of the steps and the effect on the two arrays are unchanged.
- A Unity object destroyed by something else compares equal to null under the `== null` and `!= null` tests of the marker controller (MarkerAnchorController.cs:86, 113, 128, 140). External destruction is not modelled. Afterwards the source's slot reads as empty, but its last-seen time is not zero. `TableValid` excludes that state. So the invariant "an empty slot has last-seen 0" holds only while nothing else destroys an instance.
- Externally destroyed list entries in the cleanup: `?.` in PlaneAnchorController.cs:90 and ManipulatorController.cs:119 bypasses Unity's overloaded null test. An entry destroyed by something else therefore does not short-circuit, and `GetComponent` on it throws. The model does not capture this: its `None` entries are true nulls, which the cleanup keeps.
- LifecycleController.cs, AutofocusController.cs, ShadowQuadHelper.cs, TrackingCheck.cs and the Sketchfab plugin are UI, SDK configuration or I/O with no reconciliation logic. They are not part of this model. ArPrefab.cs is only the `attachedTo` field of the `ArPrefab` component.
