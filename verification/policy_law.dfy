/** What publishing and refreshing change, field by field. */
module PolicyLaw {
  import opened Wrappers
  import opened Policy

  // ---- Publishing ----

  /** A revision above all that were used, by one. */
  predicate IsNext(history: seq<Snapshot>, r: nat) {
    && (forall s | s in history :: s.revision < r)
    && (r == 1 || exists s :: s in history && s.revision == r - 1)
    && r > 0
  }

  predicate Holds(shelf: Shelf, connection: string, policy: string) {
    shelf.current.Some? && shelf.current.value.snapshot.connection == connection &&
    shelf.current.value.snapshot.policy == policy
  }

  /** A publication changes something if and only if its content is not the readable current one; then
      it uses the next revision, in history first and, if it gets that far, in the pointer. */
  lemma {:induction false} PublishIff(shelf: Shelf, connection: string, policy: string, readable: bool, stage: Stage)
    ensures var (after, revision) := Published(shelf, connection, policy, readable, stage);
            if readable && Holds(shelf, connection, policy) then
              after == shelf && revision == Some(shelf.current.value.snapshot.revision)
            else if stage == StopsBeforeHistory then after == shelf && revision == None
            else
              && |after.history| == |shelf.history| + 1 && after.history[..|shelf.history|] == shelf.history
              && var s := after.history[|shelf.history|];
              && s.connection == connection && s.policy == policy && IsNext(shelf.history, s.revision)
              && if stage == StopsBeforePointer then
                   revision == None && after.current == shelf.current && after.writes == shelf.writes
                 else
                   && revision == Some(s.revision) && after.writes == shelf.writes + 1
                   && after.current == Some(Pointer(shelf.writes, s))
  {
    var latest := Latest(shelf.history);
    if shelf.history == [] { assert latest == 0; }
  }

  /** Publishing the same again changes nothing and answers the same revision. */
  lemma {:induction false} PublishTwice(shelf: Shelf, connection: string, policy: string, readable: bool, stage: Stage)
    ensures var (after, revision) := Published(shelf, connection, policy, readable, Complete);
            Published(after, connection, policy, true, stage) == (after, revision)
  {}

  // ---- Refreshing ----

  /** Is the file looked at?  Not when its fingerprint is the one on record, unless there is neither a
      snapshot nor a file. */
  predicate LooksAt(st: State, fingerprint: Option<nat>, force: bool) {
    force || fingerprint != st.fingerprint || (st.snapshot.None? && fingerprint.None?)
  }

  /** What stands in the way of taking a snapshot over, first things first. */
  function Obstacle(st: State, found: Found, built: bool): Option<Reason> {
    match found
    case Failed(reason) => Some(reason)
    case Loaded(s) =>
      if st.expected.Some? && st.expected.value != s.connection then Some(ConnectionChanged)
      else if st.snapshot.Some? && s.revision < st.snapshot.value.revision then Some(Regressed)
      else if st.snapshot.Some? && s.revision > st.snapshot.value.revision &&
              s.connection != st.snapshot.value.connection then Some(ConnectionChanged)
      else if (st.snapshot.None? || s.revision > st.snapshot.value.revision) && !built then Some(Unbuildable)
      else None
  }

  predicate IsNewer(st: State, s: Snapshot) { st.snapshot.None? || s.revision > st.snapshot.value.revision }

  /** Every field after a refresh.  A file that is looked at leaves its fingerprint; an obstacle leaves
      its reason with the revision that is kept, and a changed connection asks for a restart, which
      nothing takes back; without an obstacle a newer snapshot comes into force. */
  lemma {:induction false} RefreshFields(st: State, fingerprint: Option<nat>, found: Found, built: bool, force: bool)
    ensures var after, why := Refreshed(st, fingerprint, found, built, force), Obstacle(st, found, built);
            && after.expected == st.expected
            && (!LooksAt(st, fingerprint, force) ==> after == st)
            && (LooksAt(st, fingerprint, force) ==>
                  && after.fingerprint == fingerprint
                  && (after.restartRequired <==>
                        st.restartRequired || (found.Loaded? && why == Some(ConnectionChanged)))
                  && after.rejection == (if why.Some? then Some(Rejection(why.value, RevisionOf(st.snapshot)))
                                         else st.rejection)
                  && after.snapshot == if why.None? && IsNewer(st, found.snapshot) then Some(found.snapshot)
                                       else st.snapshot)
  {}
}
