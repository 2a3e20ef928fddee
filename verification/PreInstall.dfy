/** Snapshots that arrived before their session was opened, held oldest first. */
module PreInstalls {
  import opened Wrappers

  const PRE_INSTALL_SNAPSHOTS: nat := 2
  const CONTROL_FRAME_MAX_BYTES: nat := 64 * 1024 * 1024
  const PRE_INSTALL_BUDGET_BYTES: nat := 2 * CONTROL_FRAME_MAX_BYTES

  datatype Snapshot = Snapshot(sessionId: string, load: string, revision: nat)

  datatype Held = Held(snapshot: Snapshot, bytes: nat)

  function TotalBytes(held: seq<Held>): nat {
    if held == [] then 0 else held[0].bytes + TotalBytes(held[1..])
  }

  predicate Fits(held: seq<Held>) {
    |held| <= PRE_INSTALL_SNAPSHOTS && TotalBytes(held) <= PRE_INSTALL_BUDGET_BYTES
  }

  /** The held snapshots of other sessions, in order. */
  function WithoutSession(held: seq<Held>, sessionId: string): seq<Held> {
    if held == [] then []
    else (if held[0].snapshot.sessionId == sessionId then [] else [held[0]]) + WithoutSession(held[1..], sessionId)
  }

  /** How many of the oldest go before the rest is inside both budgets. */
  function Dropped(held: seq<Held>): (k: nat)
    ensures k <= |held|
  {
    if Fits(held) then 0 else 1 + Dropped(held[1..])
  }

  function NewestFitting(held: seq<Held>): seq<Held> {
    held[Dropped(held)..]
  }

  predicate Superseded(held: seq<Held>, snapshot: Snapshot) {
    exists i :: 0 <= i < |held| && held[i].snapshot.sessionId == snapshot.sessionId
                && held[i].snapshot.load == snapshot.load && held[i].snapshot.revision >= snapshot.revision
  }

  ghost predicate OnePerSession(held: seq<Held>) {
    forall i, j | 0 <= i < j < |held| :: held[i].snapshot.sessionId != held[j].snapshot.sessionId
  }

  class PreInstall {
    var held: seq<Held>

    ghost predicate Valid()
      reads this
    {
      Fits(held) && OnePerSession(held)
    }

    constructor ()
      ensures Valid() && held == []
    {
      held := [];
    }

    /** Holds one snapshot; past either budget the oldest go. */
    method Hold(snapshot: Snapshot, bytes: nat)
      requires Valid()
      modifies this
      ensures Valid()
      ensures held == if Superseded(old(held), snapshot) then old(held)
                      else NewestFitting(WithoutSession(old(held), snapshot.sessionId) + [Held(snapshot, bytes)])
    {
      var newer := KnowsNewer(snapshot);
      if newer {
        return;
      }
      WithoutSessionKeeps(held, snapshot.sessionId);
      held := WithoutSession(held, snapshot.sessionId) + [Held(snapshot, bytes)];
      assert OnePerSession(held);
      Evict();
    }

    method KnowsNewer(snapshot: Snapshot) returns (newer: bool)
      ensures newer <==> Superseded(held, snapshot)
    {
      for i := 0 to |held|
        invariant forall j | 0 <= j < i :: !(held[j].snapshot.sessionId == snapshot.sessionId
                                             && held[j].snapshot.load == snapshot.load
                                             && held[j].snapshot.revision >= snapshot.revision)
      {
        if held[i].snapshot.sessionId == snapshot.sessionId && held[i].snapshot.load == snapshot.load
           && held[i].snapshot.revision >= snapshot.revision {
          return true;
        }
      }
      return false;
    }

    method Evict()
      modifies this
      ensures held == NewestFitting(old(held)) && Fits(held)
      ensures OnePerSession(old(held)) ==> OnePerSession(held)
    {
      ghost var gone := 0;
      var total := TotalBytes(held);
      while |held| > PRE_INSTALL_SNAPSHOTS || total > PRE_INSTALL_BUDGET_BYTES
        invariant total == TotalBytes(held)
        invariant 0 <= gone <= |old(held)| && held == old(held)[gone..]
        invariant Dropped(old(held)) == gone + Dropped(held)
        decreases |held|
      {
        total := total - held[0].bytes;
        held := held[1..];
        gone := gone + 1;
      }
    }

    /** Takes the held snapshot of one session, if there is one. */
    method Take(sessionId: string) returns (taken: Option<Snapshot>)
      requires Valid()
      modifies this
      ensures Valid()
      ensures taken.Some? <==> exists i :: 0 <= i < |old(held)| && old(held)[i].snapshot.sessionId == sessionId
      ensures taken.Some? ==> taken.value.sessionId == sessionId
                              && exists i :: 0 <= i < |old(held)| && old(held)[i].snapshot == taken.value
                                             && held == old(held)[..i] + old(held)[i + 1..]
      ensures taken.None? ==> held == old(held)
    {
      var i := 0;
      while i < |held|
        invariant 0 <= i <= |held| && held == old(held)
        invariant forall j | 0 <= j < i :: held[j].snapshot.sessionId != sessionId
      {
        if held[i].snapshot.sessionId == sessionId {
          taken := Some(held[i].snapshot);
          RemovalFits(held, i);
          held := held[..i] + held[i + 1..];
          return;
        }
        i := i + 1;
      }
      return None;
    }
  }

  lemma {:induction false} TotalBytesConcat(a: seq<Held>, b: seq<Held>)
    ensures TotalBytes(a + b) == TotalBytes(a) + TotalBytes(b)
  {
    if a == [] {
      assert a + b == b;
    } else {
      TotalBytesConcat(a[1..], b);
      assert (a + b)[1..] == a[1..] + b;
    }
  }

  lemma RemovalFits(held: seq<Held>, i: nat)
    requires Fits(held) && i < |held|
    ensures Fits(held[..i] + held[i + 1..])
  {
    assert held == held[..i] + ([held[i]] + held[i + 1..]);
    TotalBytesConcat(held[..i], [held[i]] + held[i + 1..]);
    TotalBytesConcat([held[i]], held[i + 1..]);
    TotalBytesConcat(held[..i], held[i + 1..]);
  }

  /** Dropping a session keeps the order and the distinctness of the others. */
  lemma {:induction false} WithoutSessionKeeps(held: seq<Held>, sessionId: string)
    requires OnePerSession(held)
    ensures var kept := WithoutSession(held, sessionId);
            && OnePerSession(kept)
            && (forall h :: h in kept <==> h in held && h.snapshot.sessionId != sessionId)
  {
    if held != [] {
      WithoutSessionKeeps(held[1..], sessionId);
      var kept := WithoutSession(held[1..], sessionId);
      assert held == [held[0]] + held[1..];
      forall j | 0 <= j < |kept|
        ensures kept[j].snapshot.sessionId != held[0].snapshot.sessionId
      {
        assert kept[j] in held[1..];
      }
    }
  }

  /** Eviction stops at the first suffix that fits: no older snapshot could have been kept. */
  lemma {:induction false} EvictionIsLeast(held: seq<Held>)
    ensures Fits(NewestFitting(held))
    ensures forall k | 0 <= k < Dropped(held) :: !Fits(held[k..])
  {
    assert held[0..] == held;
    if !Fits(held) {
      EvictionIsLeast(held[1..]);
      assert NewestFitting(held) == NewestFitting(held[1..]);
      forall k | 0 < k < Dropped(held)
        ensures !Fits(held[k..])
      {
        assert held[k..] == held[1..][k - 1..];
      }
    }
  }
}
