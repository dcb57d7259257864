/** Signed policy snapshots: publishing, loading with a last known good one, acknowledging.
    A signature that verifies stands for a snapshot the publisher wrote. */
module Policy {
  import opened Wrappers

  datatype Snapshot = Snapshot(revision: nat, connection: string, policy: string)

  /** current.json: its content and what os.stat tells of it. */
  datatype Pointer = Pointer(fingerprint: nat, snapshot: Snapshot)

  // ---- Publishing ----

  /** The highest revision in history/. */
  function Latest(history: seq<Snapshot>): (r: nat)
    ensures forall s | s in history :: s.revision <= r
    ensures history != [] ==> exists s :: s in history && s.revision == r
    ensures history == [] ==> r == 0
  {
    if history == [] then 0
    else
      var earlier, last := Latest(history[..|history| - 1]), history[|history| - 1];
      assert history == history[..|history| - 1] + [last];
      if last.revision > earlier then last.revision else earlier
  }

  /** How far one publication gets. */
  datatype Stage = Complete | StopsBeforeHistory | StopsBeforePointer

  predicate IsPublished(current: Option<Pointer>, connection: string, policy: string) {
    current.Some? && current.value.snapshot.connection == connection && current.value.snapshot.policy == policy
  }

  datatype Shelf = Shelf(history: seq<Snapshot>, current: Option<Pointer>, writes: nat)

  /** History first, pointer last.  A pointer that cannot be read counts as different content. */
  function Published(shelf: Shelf, connection: string, policy: string, readable: bool, stage: Stage)
    : (Shelf, Option<nat>)
  {
    if readable && IsPublished(shelf.current, connection, policy) then
      (shelf, Some(shelf.current.value.snapshot.revision))
    else if stage == StopsBeforeHistory then (shelf, None)
    else
      var snapshot := Snapshot(Latest(shelf.history) + 1, connection, policy);
      var history := shelf.history + [snapshot];
      if stage == StopsBeforePointer then (shelf.(history := history), None)
      else (Shelf(history, Some(Pointer(shelf.writes, snapshot)), shelf.writes + 1), Some(snapshot.revision))
  }

  class SnapshotPublisher {
    var shelf: Shelf

    constructor ()
      ensures shelf == Shelf([], None, 0)
    {
      shelf := Shelf([], None, 0);
    }

    method HighestRevision() returns (r: nat)
      ensures r == Latest(shelf.history)
    {
      r := 0;
      for i := 0 to |shelf.history|
        invariant r == Latest(shelf.history[..i])
      {
        assert shelf.history[..i + 1][..i] == shelf.history[..i];
        if shelf.history[i].revision > r { r := shelf.history[i].revision; }
      }
      assert shelf.history[..|shelf.history|] == shelf.history;
    }

    /** The effective revision; None when an exception or a crash ends it early. */
    method Publish(connection: string, policy: string, readable: bool, stage: Stage) returns (revision: Option<nat>)
      modifies this
      ensures (shelf, revision) == Published(old(shelf), connection, policy, readable, stage)
    {
      if readable && IsPublished(shelf.current, connection, policy) {
        return Some(shelf.current.value.snapshot.revision);
      }
      var latest := HighestRevision();
      if stage == StopsBeforeHistory { return None; }
      var snapshot := Snapshot(latest + 1, connection, policy);
      shelf := shelf.(history := shelf.history + [snapshot]);
      if stage == StopsBeforePointer { return None; }
      shelf := shelf.(current := Some(Pointer(shelf.writes, snapshot)), writes := shelf.writes + 1);
      return Some(snapshot.revision);
    }
  }

  // ---- Loading ----

  datatype Reason = Unreadable | Missing | ConnectionChanged | Regressed | Unbuildable

  datatype Rejection = Rejection(reason: Reason, kept: Option<nat>)

  /** The fields of one data-plane process. */
  datatype State = State(expected: Option<string>, snapshot: Option<Snapshot>, fingerprint: Option<nat>,
                         rejection: Option<Rejection>, restartRequired: bool)

  function Fresh(expected: Option<string>): State { State(expected, None, None, None, false) }

  function RevisionOf(snapshot: Option<Snapshot>): Option<nat> {
    if snapshot.Some? then Some(snapshot.value.revision) else None
  }

  /** What the loader found when it opened the file. */
  datatype Found = Loaded(snapshot: Snapshot) | Failed(reason: Reason)

  function Rejected(st: State, reason: Reason, fingerprint: Option<nat>): State {
    st.(fingerprint := fingerprint, rejection := Some(Rejection(reason, RevisionOf(st.snapshot))))
  }

  predicate Skips(st: State, fingerprint: Option<nat>, force: bool) {
    !force && fingerprint == st.fingerprint && (st.snapshot.Some? || fingerprint.Some?)
  }

  /** One refresh: the fingerprint is taken first, the file is read after it, and the engine is
      built last.  Every failure keeps the snapshot. */
  function Refreshed(st: State, fingerprint: Option<nat>, found: Found, built: bool, force: bool): State {
    if Skips(st, fingerprint, force) then st
    else if found.Failed? then Rejected(st, found.reason, fingerprint)
    else
      var s := found.snapshot;
      if st.expected.Some? && s.connection != st.expected.value then
        Rejected(st.(restartRequired := true), ConnectionChanged, fingerprint)
      else if st.snapshot.Some? && s.revision == st.snapshot.value.revision then st.(fingerprint := fingerprint)
      else if st.snapshot.Some? && s.revision < st.snapshot.value.revision then Rejected(st, Regressed, fingerprint)
      else if st.snapshot.Some? && s.connection != st.snapshot.value.connection then
        Rejected(st.(restartRequired := true), ConnectionChanged, fingerprint)
      else if !built then Rejected(st, Unbuildable, fingerprint)
      else st.(snapshot := Some(s), fingerprint := fingerprint)
  }

  class DataplaneRuntime {
    const expected: Option<string>
    var snapshot: Option<Snapshot>
    var fingerprint: Option<nat>
    var rejection: Option<Rejection>
    var restartRequired: bool

    constructor (expected: Option<string>)
      ensures Fields() == Fresh(expected)
    {
      this.expected, snapshot, fingerprint := expected, None, None;
      rejection, restartRequired := None, false;
    }

    function Fields(): State
      reads this
    {
      State(expected, snapshot, fingerprint, rejection, restartRequired)
    }

    method Reject(reason: Reason, seen: Option<nat>)
      modifies this
      ensures Fields() == Rejected(old(Fields()), reason, seen)
    {
      fingerprint := seen;
      rejection := Some(Rejection(reason, RevisionOf(snapshot)));
    }

    /** changed tells whether a newer snapshot is now in force. */
    method Refresh(seen: Option<nat>, found: Found, built: bool, force: bool) returns (changed: bool)
      modifies this
      ensures Fields() == Refreshed(old(Fields()), seen, found, built, force)
      ensures changed == (snapshot != old(snapshot))
    {
      if !force && snapshot.Some? && seen == fingerprint { return false; }
      if !force && snapshot.None? && seen.Some? && seen == fingerprint { return false; }
      var current := snapshot;
      if found.Failed? {
        Reject(found.reason, seen);
        return false;
      }
      var loaded := found.snapshot;
      if expected.Some? && loaded.connection != expected.value {
        restartRequired := true;
        Reject(ConnectionChanged, seen);
        return false;
      }
      if current.Some? {
        if loaded.revision == current.value.revision {
          fingerprint := seen;
          return false;
        }
        if loaded.revision < current.value.revision {
          Reject(Regressed, seen);
          return false;
        }
        if loaded.connection != current.value.connection {
          restartRequired := true;
          Reject(ConnectionChanged, seen);
          return false;
        }
      }
      if !built {
        Reject(Unbuildable, seen);
        return false;
      }
      snapshot, fingerprint := Some(loaded), seen;
      return true;
    }
  }

  // ---- Acknowledging ----

  /** The least revision, when every process told one. */
  function Applied(own: Option<nat>, workers: seq<Option<nat>>): Option<nat> {
    if own.None? || None in workers then None
    else if workers == [] then own
    else
      var rest, last := Applied(own, workers[..|workers| - 1]), workers[|workers| - 1];
      if rest.Some? && last.Some? && last.value < rest.value then last else rest
  }

  /** The acknowledged revision is known exactly when every process reported, and then it is the
      minimum of what they reported. */
  lemma {:induction false} AppliedIsMinimum(own: Option<nat>, workers: seq<Option<nat>>)
    ensures Applied(own, workers).Some? <==> own.Some? && None !in workers
    ensures Applied(own, workers).Some? ==>
              var m := Applied(own, workers).value;
              && m <= own.value && (forall i | 0 <= i < |workers| :: m <= workers[i].value)
              && (own == Some(m) || Some(m) in workers)
  {
    if own.Some? && None !in workers && workers != [] {
      AppliedIsMinimum(own, workers[..|workers| - 1]);
      assert workers == workers[..|workers| - 1] + [workers[|workers| - 1]];
    }
  }

  /** An absent revision counts as 0. */
  function OrZero(reply: Option<nat>): nat { if reply.Some? then reply.value else 0 }

  predicate Acknowledges(replies: seq<Option<nat>>, revision: nat) {
    exists i | 0 <= i < |replies| :: OrZero(replies[i]) >= revision
  }

  /** status() and wait_applied: replies are what successive polls reported before the deadline. */
  method WaitApplied(replies: seq<Option<nat>>, revision: nat) returns (acknowledged: bool)
    ensures acknowledged <==> Acknowledges(replies, revision)
  {
    for i := 0 to |replies|
      invariant forall j | 0 <= j < i :: OrZero(replies[j]) < revision
    {
      if OrZero(replies[i]) >= revision { return true; }
    }
    return false;
  }

  method AppliedRevision(own: Option<nat>, workers: seq<Option<nat>>) returns (applied: Option<nat>)
    ensures applied == Applied(own, workers)
  {
    applied := own;
    if applied.None? { return; }
    for i := 0 to |workers|
      invariant applied == Applied(own, workers[..i]) && applied.Some?
    {
      assert workers[..i + 1][..i] == workers[..i] && workers[..i + 1][i] == workers[i];
      if workers[i].None? {
        assert None in workers;
        return None;
      }
      assert None !in workers[..i] by { AppliedIsMinimum(own, workers[..i]); }
      assert workers[..i + 1] == workers[..i] + [workers[i]];
      if workers[i].value < applied.value { applied := workers[i]; }
    }
    assert workers[..|workers|] == workers;
  }
}
