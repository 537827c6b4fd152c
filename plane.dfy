/**
 * PlaneAnchorController: a tap on a detected plane or feature point places
 * one model instance under a new anchor; each frame the instances whose
 * trackable has Stopped are removed, anchors and all.
 */
module PlaneAnchor {
  import opened Wrappers
  import opened Scene
  import opened Cleanup

  datatype TouchPhase = Began | Moved | Stationary | Ended | Canceled

  /** A screen touch; its position only feeds the raycast, whose outcome is an input. */
  datatype Touch = Touch(fingerId: int, phase: TouchPhase)

  /**
   * The guard chain of TrackPlaneAnchors: there is a touch, the first touch
   * has just begun, it is not over a UI element, and the raycast hit
   * something other than the back of a detected plane.
   */
  predicate TapPlaces(touches: seq<Touch>, isPointerOverUI: int -> bool, hit: Option<TrackableHit>)
  {
    && |touches| >= 1
    && touches[0].phase == Began
    && !isPointerOverUI(touches[0].fingerId)
    && AcceptsHit(hit)
  }

  /** The instance a successful tap places: the model, parented under a new anchor on the hit trackable. */
  function PlacedOnPlane(next: Handle, hit: TrackableHit): (o: GameObject)
    ensures o.component == Some(ArPrefab(hit.trackable))
    ensures HasAncestor(o, 1) && Ancestor(o, 1) == next + 1 && HandlesBelow(o, next + 2)
  {
    GameObject(next, Some(ArPrefab(hit.trackable)), [next + 1])
  }

  /** Each guard that fails stops the placement. */
  lemma FailedGuardPlacesNothing(touches: seq<Touch>, isPointerOverUI: int -> bool, hit: Option<TrackableHit>)
    ensures touches == [] ==> !TapPlaces(touches, isPointerOverUI, hit)
    ensures touches != [] && touches[0].phase != Began ==> !TapPlaces(touches, isPointerOverUI, hit)
    ensures touches != [] && isPointerOverUI(touches[0].fingerId) ==> !TapPlaces(touches, isPointerOverUI, hit)
    ensures hit.None? ==> !TapPlaces(touches, isPointerOverUI, hit)
    ensures hit.Some? && hit.value.trackable.DetectedPlane? && hit.value.facesAway ==>
      !TapPlaces(touches, isPointerOverUI, hit)
  {
  }

  /**
   * The controller: the list of placed instances, the handle counter
   * standing for Unity's allocation of new scene objects, and the log of
   * anchors destroyed.
   */
  class PlaneAnchorController {
    var instances: seq<Option<GameObject>>
    var nextHandle: Handle
    var destroyed: seq<Handle>

    /** Every live instance sits directly under its own anchor, no two share one, and no live anchor has been destroyed. */
    ghost predicate Valid()
      reads this
    {
      && Rooted(instances, 1) && DistinctAnchors(instances, 1) && AllBelow(instances, nextHandle)
      && AnchorsLive(instances, 1, destroyed) && LogBelow(destroyed, nextHandle)
    }

    constructor ()
      ensures Valid() && instances == [] && destroyed == []
    {
      instances := [];
      nextHandle := 0;
      destroyed := [];
    }

    /** Update: tap handling, then the cleanup. */
    method Update(touches: seq<Touch>, isPointerOverUI: int -> bool, hit: Option<TrackableHit>, states: TrackingStates)
      requires Valid()
      modifies this
      ensures Valid()
      ensures var placed := if TapPlaces(touches, isPointerOverUI, hit)
                            then old(instances) + [Some(PlacedOnPlane(old(nextHandle), hit.value))]
                            else old(instances);
        && Rooted(placed, 1)
        && instances == Kept(placed, states)
        && destroyed == old(destroyed) + DestroyOrder(placed, states, 1)
      ensures nextHandle == old(nextHandle) + if TapPlaces(touches, isPointerOverUI, hit) then 2 else 0
    {
      TrackPlaneAnchors(touches, isPointerOverUI, hit);
      CleanUntrackedObjects(states);
    }

    /** A tap that passes every guard appends exactly one instance; otherwise nothing changes. */
    method TrackPlaneAnchors(touches: seq<Touch>, isPointerOverUI: int -> bool, hit: Option<TrackableHit>)
      requires Valid()
      modifies this
      ensures Valid()
      ensures TapPlaces(touches, isPointerOverUI, hit) ==>
        instances == old(instances) + [Some(PlacedOnPlane(old(nextHandle), hit.value))]
        && nextHandle == old(nextHandle) + 2
      ensures !TapPlaces(touches, isPointerOverUI, hit) ==>
        instances == old(instances) && nextHandle == old(nextHandle)
      ensures destroyed == old(destroyed)
    {
      if |touches| < 1 || touches[0].phase != Began {
        return;
      }
      var touch := touches[0];
      if isPointerOverUI(touch.fingerId) {
        return;
      }
      if hit.Some? {
        if !IsBackFaceHit(hit.value) {
          var model := nextHandle;
          var anchor := nextHandle + 1;
          nextHandle := nextHandle + 2;
          instances := instances + [Some(GameObject(model, Some(ArPrefab(hit.value.trackable)), [anchor]))];
        }
      }
    }

    /**
     * Walks the list from the back and removes every entry whose trackable
     * is Stopped, destroying its anchor (the entry's parent).
     */
    method CleanUntrackedObjects(states: TrackingStates)
      requires Valid()
      modifies this`instances, this`destroyed
      ensures Valid()
      ensures instances == Kept(old(instances), states)
      ensures destroyed == old(destroyed) + DestroyOrder(old(instances), states, 1)
    {
      ghost var start := instances;
      var i := |instances|;
      while i > 0
        invariant 0 <= i <= |start|
        invariant instances == start[..i] + Kept(start[i..], states)
        invariant destroyed == old(destroyed) + DestroyOrder(start[i..], states, 1)
      {
        i := i - 1;
        CleanupLoopStep(start, states, 1, i, instances);
        if IsStopped(instances[i], states) {
          destroyed := destroyed + [instances[i].value.ancestors[0]];
          instances := instances[..i] + instances[i + 1..];
        }
      }
      assert start[0..] == start && start[..0] == [];
      assert instances == Kept(start, states);
      KeptPreservesInvariant(start, states, 1, nextHandle);
      KeptAnchorsLive(start, states, 1, nextHandle, old(destroyed));
    }

    /** Something has been placed: true iff the list is non-empty, null entries included. */
    function ArePrefabsInstantiated(): (r: bool)
      reads this
      ensures r <==> instances != []
    {
      |instances| > 0
    }
  }
}
