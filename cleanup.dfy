/**
 * What CleanUntrackedObjects does to a list of placed instances: it walks the
 * list from the back, removes every entry whose attached trackable is Stopped
 * and destroys that entry's anchor. Kept is the list that remains and
 * DestroyOrder the anchors destroyed, in the order the reverse loop destroys them.
 */
module Cleanup {
  import opened Wrappers
  import opened Scene

  /**
   * The entry is live, has its ArPrefab component and its trackable is Stopped.
   * A null entry or a missing component is not Stopped.
   */
  predicate IsStopped(e: Option<GameObject>, states: TrackingStates)
    ensures (e.None? || e.value.component.None?) ==> !IsStopped(e, states)
  {
    e.Some? && e.value.component.Some? && states(e.value.component.value.attachedTo) == Stopped
  }

  /** The entries that survive the cleanup, in their original order. */
  ghost function Kept(s: seq<Option<GameObject>>, states: TrackingStates): (r: seq<Option<GameObject>>)
    ensures |r| <= |s|
  {
    if s == [] then []
    else (if IsStopped(s[0], states) then [] else [s[0]]) + Kept(s[1..], states)
  }

  /** The anchors the cleanup destroys, last entry first (the loop runs from the back). */
  ghost function DestroyOrder(s: seq<Option<GameObject>>, states: TrackingStates, level: nat): (r: seq<Handle>)
    requires Rooted(s, level)
    ensures |r| <= |s|
  {
    if s == [] then []
    else
      RootedTail(s, level);
      DestroyOrder(s[1..], states, level)
      + (if IsStopped(s[0], states) then [Ancestor(s[0].value, level)] else [])
  }

  lemma RootedTail(s: seq<Option<GameObject>>, level: nat)
    requires s != [] && Rooted(s, level)
    ensures Rooted(s[1..], level)
  {
    forall k | 0 <= k < |s[1..]| && s[1..][k].Some? ensures HasAncestor(s[1..][k].value, level) {
      assert s[1..][k] == s[k + 1];
    }
  }

  lemma RootedSuffix(s: seq<Option<GameObject>>, level: nat, i: nat)
    requires i <= |s| && Rooted(s, level)
    ensures Rooted(s[i..], level)
  {
    forall k | 0 <= k < |s[i..]| && s[i..][k].Some? ensures HasAncestor(s[i..][k].value, level) {
      assert s[i..][k] == s[i + k];
    }
  }

  /** One step of the reverse loop: entry i is looked at before the entries after it are kept. */
  lemma CleanupStep(s: seq<Option<GameObject>>, states: TrackingStates, level: nat, i: nat)
    requires i < |s| && Rooted(s, level)
    ensures Rooted(s[i..], level) && Rooted(s[i + 1..], level)
    ensures Kept(s[i..], states) == (if IsStopped(s[i], states) then [] else [s[i]]) + Kept(s[i + 1..], states)
    ensures DestroyOrder(s[i..], states, level) == DestroyOrder(s[i + 1..], states, level)
      + (if IsStopped(s[i], states) then [Ancestor(s[i].value, level)] else [])
  {
    RootedSuffix(s, level, i);
    RootedSuffix(s, level, i + 1);
    assert s[i..][1..] == s[i + 1..];
  }

  /**
   * The reverse loop's step at index i, on a list whose tail after i is
   * already cleaned: removing entry i when it is Stopped, or leaving it,
   * extends the cleaned tail by one entry.
   */
  lemma CleanupLoopStep(start: seq<Option<GameObject>>, states: TrackingStates, level: nat, i: nat,
                        current: seq<Option<GameObject>>)
    requires i < |start| && Rooted(start, level)
    requires current == start[..i + 1] + Kept(start[i + 1..], states)
    ensures i < |current| && current[i] == start[i]
    ensures Rooted(start[i..], level) && Rooted(start[i + 1..], level)
    ensures IsStopped(start[i], states) ==>
      current[..i] + current[i + 1..] == start[..i] + Kept(start[i..], states)
    ensures !IsStopped(start[i], states) ==> current == start[..i] + Kept(start[i..], states)
    ensures DestroyOrder(start[i..], states, level) == DestroyOrder(start[i + 1..], states, level)
      + (if IsStopped(start[i], states) then [Ancestor(start[i].value, level)] else [])
  {
    CleanupStep(start, states, level, i);
    assert start[..i + 1] == start[..i] + [start[i]];
    Splice(start[..i], start[i], Kept(start[i + 1..], states));
  }

  /** Removing the element between a prefix and a suffix leaves the two joined. */
  lemma Splice<T>(prefix: seq<T>, x: T, suffix: seq<T>)
    ensures var c := prefix + [x] + suffix;
      && c[|prefix|] == x
      && c[..|prefix|] + c[|prefix| + 1..] == prefix + suffix
      && c == prefix + ([x] + suffix)
  {
    var c := prefix + [x] + suffix;
    assert c[..|prefix|] == prefix;
    assert c[|prefix| + 1..] == suffix;
  }

  /** An entry survives exactly when it was in the list and is not Stopped. */
  lemma {:induction false} KeptMembership(s: seq<Option<GameObject>>, states: TrackingStates, e: Option<GameObject>)
    ensures e in Kept(s, states) <==> e in s && !IsStopped(e, states)
  {
    if s != [] {
      KeptMembership(s[1..], states, e);
      assert s == [s[0]] + s[1..];
    }
  }

  /** Null entries and entries without an ArPrefab component are always kept. */
  lemma UntrackableEntriesKept(s: seq<Option<GameObject>>, states: TrackingStates, k: nat)
    requires k < |s|
    requires s[k].None? || s[k].value.component.None?
    ensures s[k] in Kept(s, states)
  {
    KeptMembership(s, states, s[k]);
  }

  /** The cleanup keeps the survivors in order: filtering a concatenation filters each part. */
  lemma {:induction false} KeptAppend(a: seq<Option<GameObject>>, b: seq<Option<GameObject>>, states: TrackingStates)
    ensures Kept(a + b, states) == Kept(a, states) + Kept(b, states)
  {
    if a != [] {
      assert (a + b)[1..] == a[1..] + b;
      KeptAppend(a[1..], b, states);
    } else {
      assert a + b == b;
    }
  }

  /** A second cleanup under the same tracking states removes nothing. */
  lemma {:induction false} KeptIdempotent(s: seq<Option<GameObject>>, states: TrackingStates)
    ensures Kept(Kept(s, states), states) == Kept(s, states)
  {
    if s != [] {
      KeptIdempotent(s[1..], states);
      var head := if IsStopped(s[0], states) then [] else [s[0]];
      KeptAppend(head, Kept(s[1..], states), states);
    }
  }

  /** A list with no Stopped entry is left as it is. */
  lemma {:induction false} KeptNoneStopped(s: seq<Option<GameObject>>, states: TrackingStates)
    requires forall k :: 0 <= k < |s| ==> !IsStopped(s[k], states)
    ensures Kept(s, states) == s
  {
    if s != [] {
      KeptNoneStopped(s[1..], states);
      assert s == [s[0]] + s[1..];
    }
  }

  /** Nothing survives exactly when every entry is Stopped. */
  lemma {:induction false} KeptEmptyIff(s: seq<Option<GameObject>>, states: TrackingStates)
    ensures Kept(s, states) == [] <==> forall k :: 0 <= k < |s| ==> IsStopped(s[k], states)
  {
    if s != [] {
      KeptEmptyIff(s[1..], states);
      if forall k :: 0 <= k < |s[1..]| ==> IsStopped(s[1..][k], states) {
        forall k | 0 <= k < |s| ensures IsStopped(s[k], states) || k == 0 {
          if k > 0 { assert s[k] == s[1..][k - 1]; }
        }
      } else {
        var k :| 0 <= k < |s[1..]| && !IsStopped(s[1..][k], states);
        assert s[1..][k] == s[k + 1];
      }
    }
  }

  /** Every entry is either kept or has its anchor destroyed, never both and never neither. */
  lemma {:induction false} CleanupCount(s: seq<Option<GameObject>>, states: TrackingStates, level: nat)
    requires Rooted(s, level)
    ensures |Kept(s, states)| + |DestroyOrder(s, states, level)| == |s|
  {
    if s != [] {
      RootedTail(s, level);
      CleanupCount(s[1..], states, level);
    }
  }

  /** The anchors destroyed are exactly those of the Stopped entries. */
  lemma {:induction false} DestroyOrderMembership(s: seq<Option<GameObject>>, states: TrackingStates, level: nat, h: Handle)
    requires Rooted(s, level)
    ensures h in DestroyOrder(s, states, level) <==>
      exists k :: 0 <= k < |s| && IsStopped(s[k], states) && Ancestor(s[k].value, level) == h
  {
    if s != [] {
      RootedTail(s, level);
      DestroyOrderMembership(s[1..], states, level, h);
      if h in DestroyOrder(s[1..], states, level) {
        var k :| 0 <= k < |s[1..]| && IsStopped(s[1..][k], states) && Ancestor(s[1..][k].value, level) == h;
        assert s[k + 1] == s[1..][k];
      }
      if exists k :: 0 <= k < |s| && IsStopped(s[k], states) && Ancestor(s[k].value, level) == h {
        var k :| 0 <= k < |s| && IsStopped(s[k], states) && Ancestor(s[k].value, level) == h;
        if k > 0 { assert s[1..][k - 1] == s[k]; }
      }
    }
  }

  /** Anchors are destroyed back to front: the later part of the list goes first. */
  lemma {:induction false} DestroyOrderAppend(a: seq<Option<GameObject>>, b: seq<Option<GameObject>>, states: TrackingStates, level: nat)
    requires Rooted(a, level) && Rooted(b, level)
    ensures Rooted(a + b, level)
    ensures DestroyOrder(a + b, states, level) == DestroyOrder(b, states, level) + DestroyOrder(a, states, level)
  {
    assert Rooted(a + b, level) by {
      forall k | 0 <= k < |a + b| && (a + b)[k].Some? ensures HasAncestor((a + b)[k].value, level) {
        if k < |a| { assert (a + b)[k] == a[k]; } else { assert (a + b)[k] == b[k - |a|]; }
      }
    }
    if a != [] {
      RootedTail(a, level);
      assert (a + b)[1..] == a[1..] + b;
      DestroyOrderAppend(a[1..], b, states, level);
    } else {
      assert a + b == b;
    }
  }

  /** The survivors still have their anchors, distinct from each other, and allocated before `next`. */
  lemma {:induction false} KeptPreservesInvariant(s: seq<Option<GameObject>>, states: TrackingStates, level: nat, next: Handle)
    requires Rooted(s, level) && DistinctAnchors(s, level) && AllBelow(s, next)
    ensures Rooted(Kept(s, states), level) && DistinctAnchors(Kept(s, states), level)
    ensures AllBelow(Kept(s, states), next)
  {
    var r := Kept(s, states);
    forall k | 0 <= k < |r| && r[k].Some? ensures HasAncestor(r[k].value, level) && HandlesBelow(r[k].value, next) {
      KeptMembership(s, states, r[k]);
    }
    if s != [] {
      var t := s[1..];
      RootedTail(s, level);
      assert DistinctAnchors(t, level) by {
        forall i, j | 0 <= i < j < |t| && t[i].Some? && t[j].Some?
          ensures Ancestor(t[i].value, level) != Ancestor(t[j].value, level)
        {
          assert t[i] == s[i + 1] && t[j] == s[j + 1];
        }
      }
      assert AllBelow(t, next) by {
        forall k | 0 <= k < |t| && t[k].Some? ensures HandlesBelow(t[k].value, next) {
          assert t[k] == s[k + 1];
        }
      }
      KeptPreservesInvariant(t, states, level, next);
      var rt := Kept(t, states);
      if !IsStopped(s[0], states) && s[0].Some? {
        assert r == [s[0]] + rt;
        forall j | 1 <= j < |r| && r[j].Some?
          ensures Ancestor(r[0].value, level) != Ancestor(r[j].value, level)
        {
          assert r[j] == rt[j - 1];
          KeptMembership(t, states, rt[j - 1]);
          var m :| 0 <= m < |t| && t[m] == rt[j - 1];
          assert t[m] == s[m + 1];
        }
      }
    }
  }

  /**
   * After the cleanup no survivor's anchor is in the destroy log: the anchors
   * it destroys belong to Stopped entries only, and no two entries share one.
   */
  lemma KeptAnchorsLive(s: seq<Option<GameObject>>, states: TrackingStates, level: nat, next: Handle, log: seq<Handle>)
    requires Rooted(s, level) && DistinctAnchors(s, level) && AllBelow(s, next)
    requires AnchorsLive(s, level, log) && LogBelow(log, next)
    ensures Rooted(Kept(s, states), level)
    ensures AnchorsLive(Kept(s, states), level, log + DestroyOrder(s, states, level))
    ensures LogBelow(log + DestroyOrder(s, states, level), next)
  {
    KeptPreservesInvariant(s, states, level, next);
    var r := Kept(s, states);
    var d := DestroyOrder(s, states, level);
    forall k | 0 <= k < |r| && r[k].Some? ensures Ancestor(r[k].value, level) !in log + d {
      KeptMembership(s, states, r[k]);
      var m :| 0 <= m < |s| && s[m] == r[k];
      var h := Ancestor(r[k].value, level);
      forall j | 0 <= j < |s| && IsStopped(s[j], states) ensures Ancestor(s[j].value, level) != h {
        assert j != m;
      }
      DestroyOrderMembership(s, states, level, h);
    }
    forall h | h in log + d ensures h < next {
      if h in d {
        DestroyOrderMembership(s, states, level, h);
        var j :| 0 <= j < |s| && IsStopped(s[j], states) && Ancestor(s[j].value, level) == h;
        assert HandlesBelow(s[j].value, next);
      }
    }
  }
}
