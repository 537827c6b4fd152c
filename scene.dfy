/**
 * The parts of the AR session and of the Unity scene graph that the three
 * controllers read and write: trackables and their tracking state, placed
 * model instances with the chain of transforms above them, and raycast hits.
 */
module Scene {
  import opened Wrappers

  /** ARCore's tracking state of a trackable. */
  datatype TrackingState = Tracking | Paused | Stopped

  /**
   * A reference to an ARCore trackable. Only its kind (is it a DetectedPlane?)
   * and its identity matter to the controllers; an augmented image is known
   * by its index in the image database.
   */
  datatype TrackableRef =
    | DetectedPlane(planeId: nat)
    | FeaturePoint(pointId: nat)
    | AugmentedImage(databaseIndex: nat)

  /** The current tracking state of every trackable, as ARCore reports it this frame. */
  type TrackingStates = TrackableRef -> TrackingState

  /** The identity of a scene object created by Instantiate or CreateAnchor. */
  type Handle = nat

  /** The ArPrefab component: the trackable the instance was placed on. */
  datatype ArPrefab = ArPrefab(attachedTo: TrackableRef)

  /**
   * A model instance in the scene: its own handle, its ArPrefab component
   * (None when the component is missing) and the handles of the transforms
   * above it, nearest parent first.
   */
  datatype GameObject = GameObject(handle: Handle, component: Option<ArPrefab>, ancestors: seq<Handle>)

  /** A raycast hit; facesAway is the outcome of the camera-versus-normal dot product test. */
  datatype TrackableHit = TrackableHit(trackable: TrackableRef, facesAway: bool)

  /** The object has a transform `level` steps up (1 = parent, 2 = grandparent). */
  predicate HasAncestor(o: GameObject, level: nat)
  {
    1 <= level <= |o.ancestors|
  }

  function Ancestor(o: GameObject, level: nat): Handle
    requires HasAncestor(o, level)
  {
    o.ancestors[level - 1]
  }

  /** Every handle of the object was allocated before `next`. */
  predicate HandlesBelow(o: GameObject, next: Handle)
  {
    o.handle < next && forall k :: 0 <= k < |o.ancestors| ==> o.ancestors[k] < next
  }

  /** Every live entry has its anchor `level` steps up. */
  ghost predicate Rooted(s: seq<Option<GameObject>>, level: nat)
  {
    forall k :: 0 <= k < |s| && s[k].Some? ==> HasAncestor(s[k].value, level)
  }

  /** No two live entries share an anchor. */
  ghost predicate DistinctAnchors(s: seq<Option<GameObject>>, level: nat)
    requires Rooted(s, level)
  {
    forall i, j :: 0 <= i < j < |s| && s[i].Some? && s[j].Some? ==>
      Ancestor(s[i].value, level) != Ancestor(s[j].value, level)
  }

  /** Every live entry was allocated before `next`. */
  ghost predicate AllBelow(s: seq<Option<GameObject>>, next: Handle)
  {
    forall k :: 0 <= k < |s| && s[k].Some? ==> HandlesBelow(s[k].value, next)
  }

  /** No live entry's anchor is in the log of destroyed anchors. */
  ghost predicate AnchorsLive(s: seq<Option<GameObject>>, level: nat, log: seq<Handle>)
    requires Rooted(s, level)
  {
    forall k :: 0 <= k < |s| && s[k].Some? ==> Ancestor(s[k].value, level) !in log
  }

  /** Every destroyed handle was allocated before `next`. */
  ghost predicate LogBelow(log: seq<Handle>, next: Handle)
  {
    forall h :: h in log ==> h < next
  }

  /** A hit on the back of a detected plane; hits on other trackables are never back-face hits. */
  predicate IsBackFaceHit(hit: TrackableHit)
    ensures IsBackFaceHit(hit) ==> hit.trackable.DetectedPlane?
  {
    hit.trackable.DetectedPlane? && hit.facesAway
  }

  /** The raycast found something and it is not the back of a detected plane. */
  predicate AcceptsHit(hit: Option<TrackableHit>)
  {
    hit.Some? && !IsBackFaceHit(hit.value)
  }
}
