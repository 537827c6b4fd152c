/**
 * MarkerAnchorController: one model instance per entry of the augmented
 * image database. The table of instances and the table of last-seen times
 * are two arrays of the same length, indexed by database index. Each frame
 * the controller reconciles the tables with the images ARCore reports as
 * updated, then removes every instance not seen for more than five seconds.
 *
 * Table and the functions on it give the meaning of one frame on values;
 * the class runs the same frame in place on its two arrays and is proved to
 * compute exactly that.
 */
module MarkerAnchor {
  import opened Wrappers
  import opened Scene

  /** DeleteNotUpdatedMarkersAfterSeconds. */
  const StaleAfterSeconds: real := 5.0

  /** The AR session's status; ARCore's other statuses behave like any status other than Tracking. */
  datatype SessionStatus = Initializing | Tracking | LostTracking | NotTracking | FatalError

  /** An augmented image reported as updated this frame. */
  datatype AugmentedImageUpdate = AugmentedImageUpdate(databaseIndex: nat, trackingState: TrackingState)

  /**
   * The controller's state as a value: the instance table, the last-seen
   * table, the next fresh scene handle and the anchors destroyed so far.
   */
  datatype Table = Table(slots: seq<Option<GameObject>>, lastSeen: seq<real>, nextHandle: Handle, destroyed: seq<Handle>)

  /**
   * The tables stay in step: an empty slot has last-seen 0; a filled slot
   * holds an instance of image i, parented directly under its anchor; no two
   * instances share an anchor; every handle was allocated; and no instance
   * in the table has a destroyed anchor.
   */
  ghost predicate TableValid(t: Table)
  {
    && |t.slots| == |t.lastSeen|
    && (forall i :: 0 <= i < |t.slots| && t.slots[i].None? ==> t.lastSeen[i] == 0.0)
    && (forall i :: 0 <= i < |t.slots| && t.slots[i].Some? ==>
          t.slots[i].value.component == Some(ArPrefab(AugmentedImage(i))) && |t.slots[i].value.ancestors| == 1)
    && Rooted(t.slots, 1)
    && DistinctAnchors(t.slots, 1)
    && AllBelow(t.slots, t.nextHandle)
    && AnchorsLive(t.slots, 1, t.destroyed)
    && LogBelow(t.destroyed, t.nextHandle)
  }

  /** Every instance that left the table between t and r had its anchor destroyed. */
  ghost predicate Accounted(t: Table, r: Table)
    requires TableValid(t)
  {
    && |r.slots| == |t.slots|
    && t.nextHandle <= r.nextHandle
    && t.destroyed <= r.destroyed
    && forall i :: 0 <= i < |t.slots| && t.slots[i].Some? && r.slots[i] != t.slots[i] ==>
         Ancestor(t.slots[i].value, 1) in r.destroyed
  }

  lemma AccountedTrans(a: Table, b: Table, c: Table)
    requires TableValid(a) && TableValid(b)
    requires Accounted(a, b) && Accounted(b, c)
    ensures Accounted(a, c)
  {
    forall i | 0 <= i < |a.slots| && a.slots[i].Some? && c.slots[i] != a.slots[i]
      ensures Ancestor(a.slots[i].value, 1) in c.destroyed
    {
      if b.slots[i] != a.slots[i] {
        var h := Ancestor(a.slots[i].value, 1);
        assert h in b.destroyed;
        assert c.destroyed[..|b.destroyed|] == b.destroyed;
      }
    }
  }

  /** The slot holds an instance that has not been seen for more than the timeout. */
  ghost predicate Stale(t: Table, i: nat, now: real)
    requires i < |t.slots| && i < |t.lastSeen|
  {
    t.slots[i].Some? && now - t.lastSeen[i] > StaleAfterSeconds
  }

  /** A Tracking image with an empty slot: a new anchor, and an instance parented under it. */
  ghost function Created(t: Table, i: nat, now: real): (r: Table)
    requires TableValid(t) && i < |t.slots| && t.slots[i].None?
    ensures TableValid(r)
  {
    var anchor := t.nextHandle;
    var instance := GameObject(t.nextHandle + 1, Some(ArPrefab(AugmentedImage(i))), [anchor]);
    Table(t.slots[i := Some(instance)], t.lastSeen[i := now], t.nextHandle + 2, t.destroyed)
  }

  /** A Tracking image whose instance exists: only its last-seen time moves. */
  ghost function Refreshed(t: Table, i: nat, now: real): (r: Table)
    requires TableValid(t) && i < |t.slots| && t.slots[i].Some?
    ensures TableValid(r)
  {
    t.(lastSeen := t.lastSeen[i := now])
  }

  /** DestroyPrefab: the anchor (and with it the instance) is destroyed and the slot emptied. */
  ghost function Cleared(t: Table, i: nat): (r: Table)
    requires TableValid(t) && i < |t.slots| && t.slots[i].Some?
    ensures TableValid(r) && Accounted(t, r)
  {
    Table(t.slots[i := None], t.lastSeen[i := 0.0], t.nextHandle, t.destroyed + [Ancestor(t.slots[i].value, 1)])
  }

  /** The per-image step of the reconciliation. */
  ghost function ApplyImage(t: Table, image: AugmentedImageUpdate, now: real): (r: Table)
    requires TableValid(t)
    ensures TableValid(r) && Accounted(t, r)
    ensures forall j :: 0 <= j < |t.slots| && j != image.databaseIndex ==>
      r.slots[j] == t.slots[j] && r.lastSeen[j] == t.lastSeen[j]
  {
    var i := image.databaseIndex;
    if |t.slots| <= i then t
    else if image.trackingState == TrackingState.Tracking then
      if t.slots[i].None? then Created(t, i, now) else Refreshed(t, i, now)
    else if image.trackingState == TrackingState.Stopped && t.slots[i].Some? then Cleared(t, i)
    else t
  }

  /** The per-image pass over the updated images, in the order ARCore lists them. */
  ghost function ApplyImages(t: Table, images: seq<AugmentedImageUpdate>, now: real): (r: Table)
    requires TableValid(t)
    ensures TableValid(r) && Accounted(t, r)
    decreases |images|
  {
    if images == [] then t
    else
      var p := ApplyImages(t, images[..|images| - 1], now);
      var r := ApplyImage(p, images[|images| - 1], now);
      AccountedTrans(t, p, r);
      r
  }

  /** One step of the staleness sweep. */
  ghost function SweepSlot(t: Table, now: real, i: nat): Table
    requires TableValid(t) && i < |t.slots|
  {
    if Stale(t, i, now) then Cleared(t, i) else t
  }

  /**
   * One step of the sweep keeps the invariant; a stale slot is emptied and
   * exactly its anchor is destroyed; a slot that is not stale changes nothing.
   */
  lemma SweepSlotEffect(t: Table, now: real, i: nat)
    requires TableValid(t) && i < |t.slots|
    ensures TableValid(SweepSlot(t, now, i)) && Accounted(t, SweepSlot(t, now, i))
    ensures Stale(t, i, now) ==>
      (SweepSlot(t, now, i).slots[i].None? && SweepSlot(t, now, i).destroyed == t.destroyed + [Ancestor(t.slots[i].value, 1)])
    ensures !Stale(t, i, now) ==> SweepSlot(t, now, i) == t
  {
  }

  /** The anchors of the stale instances among the first k slots, in slot order. */
  ghost function StaleAnchors(t: Table, now: real, k: nat): (r: seq<Handle>)
    requires TableValid(t) && k <= |t.slots|
    ensures forall h :: h in r <==> exists i :: 0 <= i < k && Stale(t, i, now) && Ancestor(t.slots[i].value, 1) == h
  {
    if k == 0 then []
    else StaleAnchors(t, now, k - 1) + (if Stale(t, k - 1, now) then [Ancestor(t.slots[k - 1].value, 1)] else [])
  }

  /**
   * The staleness sweep over the first k slots: exactly the stale ones among
   * them are cleared, and exactly their anchors are destroyed, in slot order.
   */
  ghost function SweepUpTo(t: Table, now: real, k: nat): (r: Table)
    requires TableValid(t) && k <= |t.slots|
    ensures TableValid(r) && Accounted(t, r) && r.nextHandle == t.nextHandle
    ensures r.destroyed == t.destroyed + StaleAnchors(t, now, k)
    ensures forall i :: 0 <= i < |t.slots| ==>
      r.slots[i] == (if i < k && Stale(t, i, now) then None else t.slots[i])
    ensures forall i :: 0 <= i < |t.slots| ==>
      r.lastSeen[i] == (if i < k && Stale(t, i, now) then 0.0 else t.lastSeen[i])
  {
    if k == 0 then t
    else
      var p := SweepUpTo(t, now, k - 1);
      assert p.slots[k - 1] == t.slots[k - 1] && p.lastSeen[k - 1] == t.lastSeen[k - 1];
      assert Stale(p, k - 1, now) == Stale(t, k - 1, now);
      var r := SweepSlot(p, now, k - 1);
      AccountedTrans(t, p, r);
      r
  }

  /** The sweep over k + 1 slots is the sweep over k slots followed by one step at slot k. */
  lemma SweepUnfold(t: Table, now: real, k: nat)
    requires TableValid(t) && k < |t.slots|
    ensures TableValid(SweepUpTo(t, now, k))
    ensures SweepUpTo(t, now, k + 1) == SweepSlot(SweepUpTo(t, now, k), now, k)
  {
  }

  /** A sweep that finds nothing stale changes nothing. */
  lemma {:induction false} SweepFindingNothingStale(t: Table, now: real, k: nat)
    requires TableValid(t) && k <= |t.slots|
    requires forall i :: 0 <= i < k ==> !Stale(t, i, now)
    ensures SweepUpTo(t, now, k) == t
  {
    if k > 0 {
      SweepFindingNothingStale(t, now, k - 1);
    }
  }

  /**
   * One frame while the session is tracking: the per-image pass, then the
   * staleness sweep over every slot. Afterwards no instance is stale, and
   * every instance that left the table had its anchor destroyed.
   */
  ghost function Frame(t: Table, images: seq<AugmentedImageUpdate>, now: real): (r: Table)
    requires TableValid(t)
    ensures TableValid(r) && Accounted(t, r)
    ensures forall i :: 0 <= i < |r.slots| && r.slots[i].Some? ==> now - r.lastSeen[i] <= StaleAfterSeconds
  {
    var p := ApplyImages(t, images, now);
    var r := SweepUpTo(p, now, |p.lastSeen|);
    AccountedTrans(t, p, r);
    r
  }

  /** Some slot holds an instance. */
  function AnyInstantiated(s: seq<Option<GameObject>>): (r: bool)
    ensures r <==> exists i :: 0 <= i < |s| && s[i].Some?
  {
    if s == [] then false
    else s[0].Some? || (assert forall i :: 0 < i < |s| ==> s[i] == s[1..][i - 1]; AnyInstantiated(s[1..]))
  }

  // ---- Properties of one image ----

  /** An image whose database index has no slot changes nothing. */
  lemma OutOfRangeImageIgnored(t: Table, image: AugmentedImageUpdate, now: real)
    requires TableValid(t) && image.databaseIndex >= |t.slots|
    ensures ApplyImage(t, image, now) == t
  {
  }

  /**
   * A Tracking image with an empty slot fills exactly that slot with a new
   * instance of that image, under a freshly created anchor no other instance
   * uses, and sets its last-seen time to now.
   */
  lemma TrackingImageFillsEmptySlot(t: Table, image: AugmentedImageUpdate, now: real)
    requires TableValid(t) && image.databaseIndex < |t.slots|
    requires image.trackingState == TrackingState.Tracking && t.slots[image.databaseIndex].None?
    ensures var r := ApplyImage(t, image, now); var i := image.databaseIndex;
      && r.slots[i].Some? && r.slots[i].value.component == Some(ArPrefab(AugmentedImage(i)))
      && r.lastSeen[i] == now
      && (forall j :: 0 <= j < |t.slots| && t.slots[j].Some? ==> Ancestor(t.slots[j].value, 1) != Ancestor(r.slots[i].value, 1))
      && (forall j :: 0 <= j < |t.slots| && j != i ==> r.slots[j] == t.slots[j] && r.lastSeen[j] == t.lastSeen[j])
      && r.destroyed == t.destroyed
  {
  }

  /** A Tracking image whose slot is filled only moves that slot's last-seen time to now. */
  lemma TrackingImageRefreshesFilledSlot(t: Table, image: AugmentedImageUpdate, now: real)
    requires TableValid(t) && image.databaseIndex < |t.slots|
    requires image.trackingState == TrackingState.Tracking && t.slots[image.databaseIndex].Some?
    ensures ApplyImage(t, image, now) == t.(lastSeen := t.lastSeen[image.databaseIndex := now])
  {
  }

  /** A Stopped image with a filled slot destroys its anchor, empties the slot and resets last-seen to 0. */
  lemma StoppedImageClearsSlot(t: Table, image: AugmentedImageUpdate, now: real)
    requires TableValid(t) && image.databaseIndex < |t.slots|
    requires image.trackingState == TrackingState.Stopped && t.slots[image.databaseIndex].Some?
    ensures var r := ApplyImage(t, image, now); var i := image.databaseIndex;
      && r.slots == t.slots[i := None] && r.lastSeen == t.lastSeen[i := 0.0]
      && r.destroyed == t.destroyed + [Ancestor(t.slots[i].value, 1)]
  {
  }

  /** A Paused image, or a Stopped image with an empty slot, changes nothing. */
  lemma PausedImageIgnored(t: Table, image: AugmentedImageUpdate, now: real)
    requires TableValid(t)
    requires image.trackingState == TrackingState.Paused
      || (image.trackingState == TrackingState.Stopped
          && (image.databaseIndex >= |t.slots| || t.slots[image.databaseIndex].None?))
    ensures ApplyImage(t, image, now) == t
  {
  }

  /** A live instance is never replaced by another: its slot keeps it or is emptied. */
  lemma InstanceNeverReplaced(t: Table, image: AugmentedImageUpdate, now: real, i: nat)
    requires TableValid(t) && i < |t.slots| && t.slots[i].Some?
    ensures var r := ApplyImage(t, image, now); r.slots[i] == t.slots[i] || r.slots[i].None?
  {
  }

  // ---- Properties of a frame ----

  /**
   * A slot a Tracking image created or refreshed holds an instance seen now
   * at the end of the per-image pass, unless a later image of the same
   * index in the same pass was Stopped.
   */
  lemma {:induction false} TrackedSlotAfterPass(t: Table, images: seq<AugmentedImageUpdate>, now: real, p: nat)
    requires TableValid(t) && p < |images|
    requires images[p].trackingState == TrackingState.Tracking && images[p].databaseIndex < |t.slots|
    requires forall q :: p < q < |images| && images[q].databaseIndex == images[p].databaseIndex ==>
      images[q].trackingState != TrackingState.Stopped
    ensures var r := ApplyImages(t, images, now);
      r.slots[images[p].databaseIndex].Some? && r.lastSeen[images[p].databaseIndex] == now
  {
    var n := |images|;
    var front := images[..n - 1];
    var pre := ApplyImages(t, front, now);
    if p < n - 1 {
      forall q | p < q < |front| && front[q].databaseIndex == front[p].databaseIndex
        ensures front[q].trackingState != TrackingState.Stopped
      {
        assert front[q] == images[q];
      }
      TrackedSlotAfterPass(t, front, now, p);
      assert front[p] == images[p];
    }
  }

  /** A slot created or refreshed in this frame survives the staleness sweep. */
  lemma TrackedSlotSurvivesFrame(t: Table, images: seq<AugmentedImageUpdate>, now: real, p: nat)
    requires TableValid(t) && p < |images|
    requires images[p].trackingState == TrackingState.Tracking && images[p].databaseIndex < |t.slots|
    requires forall q :: p < q < |images| && images[q].databaseIndex == images[p].databaseIndex ==>
      images[q].trackingState != TrackingState.Stopped
    ensures var r := Frame(t, images, now);
      r.slots[images[p].databaseIndex].Some? && r.lastSeen[images[p].databaseIndex] == now
  {
    TrackedSlotAfterPass(t, images, now, p);
  }

  /**
   * When every Tracking image already has a live instance seen now and no
   * image is Stopped, the per-image pass changes nothing.
   */
  lemma {:induction false} PassIsIdentity(t: Table, images: seq<AugmentedImageUpdate>, now: real)
    requires TableValid(t)
    requires forall q :: 0 <= q < |images| ==> images[q].trackingState != TrackingState.Stopped
    requires forall q :: (0 <= q < |images| && images[q].trackingState == TrackingState.Tracking
                          && images[q].databaseIndex < |t.slots|) ==>
      t.slots[images[q].databaseIndex].Some? && t.lastSeen[images[q].databaseIndex] == now
    ensures ApplyImages(t, images, now) == t
  {
    if images != [] {
      var n := |images|;
      var front := images[..n - 1];
      forall q | 0 <= q < |front| ensures front[q] == images[q] { }
      PassIsIdentity(t, front, now);
      var i := images[n - 1].databaseIndex;
      if i < |t.slots| && images[n - 1].trackingState == TrackingState.Tracking {
        assert t.lastSeen[i := now] == t.lastSeen;
      }
    }
  }

  /**
   * Repeating a frame with the same reports and the same time creates no
   * instance, destroys no anchor and changes no time, as long as no image is
   * Stopped.
   */
  lemma FrameIdempotent(t: Table, images: seq<AugmentedImageUpdate>, now: real)
    requires TableValid(t)
    requires forall q :: 0 <= q < |images| ==> images[q].trackingState != TrackingState.Stopped
    ensures Frame(Frame(t, images, now), images, now) == Frame(t, images, now)
  {
    var t1 := Frame(t, images, now);
    forall q | 0 <= q < |images| && images[q].trackingState == TrackingState.Tracking
      && images[q].databaseIndex < |t1.slots|
      ensures t1.slots[images[q].databaseIndex].Some? && t1.lastSeen[images[q].databaseIndex] == now
    {
      TrackedSlotSurvivesFrame(t, images, now, q);
    }
    PassIsIdentity(t1, images, now);
    SweepFindingNothingStale(t1, now, |t1.slots|);
  }

  /** An instance survives the sweep exactly when it was seen no more than five seconds ago. */
  lemma SweepBoundary(t: Table, images: seq<AugmentedImageUpdate>, now: real, i: nat)
    requires TableValid(t) && i < |t.slots|
    ensures var p := ApplyImages(t, images, now);
      Frame(t, images, now).slots[i].Some? <==> p.slots[i].Some? && now - p.lastSeen[i] <= StaleAfterSeconds
  {
  }

  /** A marker seen at time 0 and never again is still shown at 4.9 seconds and gone at 5.1 seconds. */
  lemma StaleMarkerRemoved()
    ensures var o := GameObject(1, Some(ArPrefab(AugmentedImage(0))), [0]);
      var t := Table([Some(o)], [0.0], 2, []);
      Frame(t, [], 4.9).slots == [Some(o)] && Frame(t, [], 5.1).slots == [None]
      && Frame(t, [], 5.1).destroyed == [0]
  {
    var o := GameObject(1, Some(ArPrefab(AugmentedImage(0))), [0]);
    var t := Table([Some(o)], [0.0], 2, []);
    assert TableValid(t);
    assert Frame(t, [], 4.9) == SweepSlot(SweepUpTo(t, 4.9, 0), 4.9, 0) == SweepSlot(t, 4.9, 0) == t;
    assert Frame(t, [], 5.1) == SweepSlot(SweepUpTo(t, 5.1, 0), 5.1, 0) == SweepSlot(t, 5.1, 0) == Cleared(t, 0);
    assert Cleared(t, 0).slots == [None] && Cleared(t, 0).destroyed == [0];
  }

  /**
   * The controller: the two tables as arrays allocated in Start with one
   * slot per prefab, the handle counter standing for Unity's allocation of
   * new scene objects, and the log of anchors destroyed.
   */
  class MarkerAnchorController {
    /** ArPrefabs.Length. */
    const prefabCount: nat
    const instantiatedPrefabs: array<Option<GameObject>>
    const lastSeenPrefabs: array<real>
    var nextHandle: Handle
    var destroyed: seq<Handle>

    ghost function Model(): Table
      reads this, instantiatedPrefabs, lastSeenPrefabs
    {
      Table(instantiatedPrefabs[..], lastSeenPrefabs[..], nextHandle, destroyed)
    }

    ghost predicate Valid()
      reads this, instantiatedPrefabs, lastSeenPrefabs
    {
      && instantiatedPrefabs.Length == prefabCount
      && lastSeenPrefabs.Length == prefabCount
      && TableValid(Model())
    }

    /** Start: both tables get one slot per prefab, all empty. */
    constructor Start(arPrefabCount: nat)
      ensures Valid() && prefabCount == arPrefabCount
      ensures fresh(instantiatedPrefabs) && fresh(lastSeenPrefabs)
      ensures Model() == Table(seq(arPrefabCount, _ => None), seq(arPrefabCount, _ => 0.0), 0, [])
    {
      prefabCount := arPrefabCount;
      instantiatedPrefabs := new Option<GameObject>[arPrefabCount](_ => None);
      lastSeenPrefabs := new real[arPrefabCount](_ => 0.0);
      nextHandle := 0;
      destroyed := [];
    }

    /** Update: the images are reconciled only while the session is tracking. */
    method Update(status: SessionStatus, images: seq<AugmentedImageUpdate>, now: real)
      requires Valid()
      modifies this, instantiatedPrefabs, lastSeenPrefabs
      ensures Valid()
      ensures Model() == if status == SessionStatus.Tracking then Frame(old(Model()), images, now) else old(Model())
    {
      if status == SessionStatus.Tracking {
        TrackAugmentedImages(images, now);
      }
    }

    /** One frame: the per-image pass over the updated images, then the staleness sweep. */
    method TrackAugmentedImages(images: seq<AugmentedImageUpdate>, now: real)
      requires Valid()
      modifies this, instantiatedPrefabs, lastSeenPrefabs
      ensures Valid()
      ensures Model() == Frame(old(Model()), images, now)
    {
      for k := 0 to |images|
        invariant Valid()
        invariant Model() == ApplyImages(old(Model()), images[..k], now)
      {
        assert images[..k + 1][..k] == images[..k];
        TrackImage(images[k], now);
      }
      assert images[..|images|] == images;
      SweepStaleMarkers(now);
    }

    /** The staleness sweep: every instance not seen for more than the timeout is destroyed. */
    method SweepStaleMarkers(now: real)
      requires Valid()
      modifies this, instantiatedPrefabs, lastSeenPrefabs
      ensures Valid()
      ensures Model() == SweepUpTo(old(Model()), now, lastSeenPrefabs.Length)
    {
      ghost var start := Model();
      for c := 0 to lastSeenPrefabs.Length
        invariant Valid()
        invariant Model() == SweepUpTo(start, now, c)
      {
        ghost var before := Model();
        SweepUnfold(start, now, c);
        SweepSlotEffect(before, now, c);
        assert before.slots[c] == instantiatedPrefabs[c] && before.lastSeen[c] == lastSeenPrefabs[c];
        if instantiatedPrefabs[c].Some? && now - lastSeenPrefabs[c] > StaleAfterSeconds {
          DestroyPrefab(c);
        }
      }
    }

    /** The body of the per-image pass, for one updated image. */
    method TrackImage(image: AugmentedImageUpdate, now: real)
      requires Valid()
      modifies this, instantiatedPrefabs, lastSeenPrefabs
      ensures Valid()
      ensures Model() == ApplyImage(old(Model()), image, now)
    {
      if instantiatedPrefabs.Length <= image.databaseIndex {
        return;
      }
      if image.trackingState == TrackingState.Tracking {
        if instantiatedPrefabs[image.databaseIndex].None? {
          var anchor := nextHandle;
          var instance := GameObject(nextHandle + 1, Some(ArPrefab(AugmentedImage(image.databaseIndex))), [anchor]);
          nextHandle := nextHandle + 2;
          instantiatedPrefabs[image.databaseIndex] := Some(instance);
          lastSeenPrefabs[image.databaseIndex] := now;
        } else {
          lastSeenPrefabs[image.databaseIndex] := now;
        }
      } else if image.trackingState == TrackingState.Stopped && instantiatedPrefabs[image.databaseIndex].Some? {
        DestroyPrefab(image.databaseIndex);
      }
    }

    /** DestroyPrefab: destroys the slot's anchor (its instance goes with it) and empties the slot. */
    method DestroyPrefab(databaseIndex: nat)
      requires Valid() && databaseIndex < instantiatedPrefabs.Length
      requires instantiatedPrefabs[databaseIndex].Some?
      modifies this, instantiatedPrefabs, lastSeenPrefabs
      ensures Valid()
      ensures Model() == Cleared(old(Model()), databaseIndex)
    {
      destroyed := destroyed + [instantiatedPrefabs[databaseIndex].value.ancestors[0]];
      instantiatedPrefabs[databaseIndex] := None;
      lastSeenPrefabs[databaseIndex] := 0.0;
    }

    /** Some marker currently has an instance. */
    function ArePrefabsInstantiated(): (r: bool)
      reads this, instantiatedPrefabs
      ensures r <==> exists i :: 0 <= i < instantiatedPrefabs.Length && instantiatedPrefabs[i].Some?
    {
      assert forall i :: 0 <= i < instantiatedPrefabs.Length ==> instantiatedPrefabs[..][i] == instantiatedPrefabs[i];
      AnyInstantiated(instantiatedPrefabs[..])
    }
  }
}
