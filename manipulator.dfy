/**
 * ManipulatorController: a tap gesture that ends on a detected plane places
 * a model under a manipulator under a new anchor and selects the
 * manipulator; each frame the instances whose trackable has Stopped are
 * removed together with their anchor, which is the model's grandparent.
 */
module Manipulator {
  import opened Wrappers
  import opened Scene
  import opened Cleanup

  /** A tap gesture as the gesture recogniser reports it; its position only feeds the raycast. */
  datatype TapGesture = TapGesture(wasCancelled: bool, targetObject: Option<Handle>)

  /**
   * The guard chain of OnEndManipulation: the gesture was not cancelled, it
   * does not target an existing object, and the raycast hit something other
   * than the back of a detected plane.
   */
  predicate GesturePlaces(gesture: TapGesture, hit: Option<TrackableHit>)
    ensures GesturePlaces(gesture, hit) ==> ManipulatorController.CanStartManipulationForGesture(gesture)
  {
    !gesture.wasCancelled && gesture.targetObject.None? && AcceptsHit(hit)
  }

  /** The instance a successful gesture places: model under manipulator under a new anchor. */
  function PlacedWithManipulator(next: Handle, hit: TrackableHit): (o: GameObject)
    ensures o.component == Some(ArPrefab(hit.trackable))
    ensures HasAncestor(o, 2) && Ancestor(o, 2) == next + 2 && HandlesBelow(o, next + 3)
  {
    GameObject(next, Some(ArPrefab(hit.trackable)), [next + 1, next + 2])
  }

  /** Each guard that fails stops the placement. */
  lemma FailedGuardPlacesNothing(gesture: TapGesture, hit: Option<TrackableHit>)
    ensures gesture.wasCancelled ==> !GesturePlaces(gesture, hit)
    ensures gesture.targetObject.Some? ==> !GesturePlaces(gesture, hit)
    ensures hit.None? ==> !GesturePlaces(gesture, hit)
    ensures hit.Some? && hit.value.trackable.DetectedPlane? && hit.value.facesAway ==> !GesturePlaces(gesture, hit)
  {
  }

  /** A gesture the manipulator refuses to start is one whose end places nothing. */
  lemma RefusedGesturePlacesNothing(gesture: TapGesture, hit: Option<TrackableHit>)
    requires !ManipulatorController.CanStartManipulationForGesture(gesture)
    ensures !GesturePlaces(gesture, hit)
  {
  }

  /**
   * The controller: the list of placed instances, the handle counter
   * standing for Unity's allocation of new scene objects, the log of anchors
   * destroyed, and the manipulator last selected.
   */
  class ManipulatorController {
    var instances: seq<Option<GameObject>>
    var nextHandle: Handle
    var destroyed: seq<Handle>
    var selected: Option<Handle>

    /** Every live instance has an anchor as its grandparent, no two share one, and no live anchor has been destroyed. */
    ghost predicate Valid()
      reads this
    {
      && Rooted(instances, 2) && DistinctAnchors(instances, 2) && AllBelow(instances, nextHandle)
      && AnchorsLive(instances, 2, destroyed) && LogBelow(destroyed, nextHandle)
    }

    constructor ()
      ensures Valid() && instances == [] && destroyed == [] && selected == None
    {
      instances := [];
      nextHandle := 0;
      destroyed := [];
      selected := None;
    }

    /** Manipulation may start exactly for a gesture that targets no existing object. */
    static function CanStartManipulationForGesture(gesture: TapGesture): (r: bool)
      ensures r <==> gesture.targetObject.None?
    {
      gesture.targetObject == None
    }

    /**
     * Update: one frame, in the order the model chooses: a tap gesture that
     * ends this frame goes to OnEndManipulation, and then the cleanup runs.
     */
    method Update(finished: Option<TapGesture>, hit: Option<TrackableHit>, states: TrackingStates)
      requires Valid()
      modifies this
      ensures Valid()
      ensures var placed := if finished.Some? && GesturePlaces(finished.value, hit)
                            then old(instances) + [Some(PlacedWithManipulator(old(nextHandle), hit.value))]
                            else old(instances);
        && Rooted(placed, 2)
        && instances == Kept(placed, states)
        && destroyed == old(destroyed) + DestroyOrder(placed, states, 2)
      ensures finished.Some? && GesturePlaces(finished.value, hit) ==>
        selected == Some(old(nextHandle) + 1) && nextHandle == old(nextHandle) + 3
      ensures !(finished.Some? && GesturePlaces(finished.value, hit)) ==>
        selected == old(selected) && nextHandle == old(nextHandle)
    {
      if finished.Some? {
        OnEndManipulation(finished.value, hit);
      }
      CleanUntrackedObjects(states);
    }

    /** A gesture that passes every guard appends exactly one instance and selects its manipulator. */
    method OnEndManipulation(gesture: TapGesture, hit: Option<TrackableHit>)
      requires Valid()
      modifies this
      ensures Valid()
      ensures GesturePlaces(gesture, hit) ==>
        && instances == old(instances) + [Some(PlacedWithManipulator(old(nextHandle), hit.value))]
        && nextHandle == old(nextHandle) + 3
        && selected == Some(old(nextHandle) + 1)
      ensures !GesturePlaces(gesture, hit) ==>
        instances == old(instances) && nextHandle == old(nextHandle) && selected == old(selected)
      ensures destroyed == old(destroyed)
    {
      if gesture.wasCancelled {
        return;
      }
      if gesture.targetObject.Some? {
        return;
      }
      if hit.Some? {
        if !IsBackFaceHit(hit.value) {
          var model := nextHandle;
          var manipulator := nextHandle + 1;
          var anchor := nextHandle + 2;
          nextHandle := nextHandle + 3;
          instances := instances + [Some(GameObject(model, Some(ArPrefab(hit.value.trackable)), [manipulator, anchor]))];
          selected := Some(manipulator);
        }
      }
    }

    /**
     * Walks the list from the back and removes every entry whose trackable
     * is Stopped, destroying its anchor (the entry's grandparent).
     */
    method CleanUntrackedObjects(states: TrackingStates)
      requires Valid()
      modifies this`instances, this`destroyed
      ensures Valid()
      ensures instances == Kept(old(instances), states)
      ensures destroyed == old(destroyed) + DestroyOrder(old(instances), states, 2)
    {
      ghost var start := instances;
      var i := |instances|;
      while i > 0
        invariant 0 <= i <= |start|
        invariant instances == start[..i] + Kept(start[i..], states)
        invariant destroyed == old(destroyed) + DestroyOrder(start[i..], states, 2)
      {
        i := i - 1;
        CleanupLoopStep(start, states, 2, i, instances);
        if IsStopped(instances[i], states) {
          destroyed := destroyed + [instances[i].value.ancestors[1]];
          instances := instances[..i] + instances[i + 1..];
        }
      }
      assert start[0..] == start && start[..0] == [];
      assert instances == Kept(start, states);
      KeptPreservesInvariant(start, states, 2, nextHandle);
      KeptAnchorsLive(start, states, 2, nextHandle, old(destroyed));
    }

    /** Something has been placed: true iff the list is non-empty, null entries included. */
    function ArePrefabsInstantiated(): (r: bool)
      reads this
      ensures r <==> instances != []
    {
      |instances| > 0
    }
  }
}
