/** One publisher, a gateway (member 0) and its inspector workers, over every run. */
module PolicyRuns {
  import opened Wrappers
  import opened Policy

  /** A process is down, or has its fields, perhaps a refresh that has taken its fingerprint, and
      (for the proofs) the fingerprint under which it last failed to take over a file. */
  datatype Member = Down | Up(state: State, seen: Option<Option<nat>>, refused: Option<nat>)

  /** The end of a refresh. */
  function AfterLoad(shelf: Shelf, m: Member, readable: bool, built: bool, force: bool): Member
    requires m.Up? && m.seen.Some?
  {
    var found := Find(shelf, readable);
    var after := Refreshed(m.state, m.seen.value, found, built, force);
    var took := Skips(m.state, m.seen.value, force) || (found.Loaded? && after.snapshot == Some(found.snapshot));
    Up(after, None, if took then m.refused else m.seen.value)
  }

  datatype Step =
    | Publish(connection: string, policy: string, readable: bool, stage: Stage)
    | Spawn(i: nat, expected: Option<string>)
    | Stop(i: nat)
    | Stat(i: nat)
    | Load(i: nat, readable: bool, built: bool, force: bool)
    | PollOwn
    | PollNext
    | PollEnd

  /** poll holds the revisions reported so far in the current round; acknowledged is the highest
      applied revision that a completed round has shown to wait_applied. */
  datatype Sys = Sys(shelf: Shelf, members: seq<Member>, poll: Option<seq<nat>>, acknowledged: nat)

  function Initial(n: nat): Sys { Sys(Shelf([], None, 0), seq(n + 1, i => Down), None, 0) }

  /** The policy a stream started now on this member is inspected under. */
  function InForce(m: Member): Option<Snapshot> { if m.Up? then m.state.snapshot else None }

  function FileFingerprint(shelf: Shelf): Option<nat> {
    if shelf.current.Some? then Some(shelf.current.value.fingerprint) else None
  }

  function Find(shelf: Shelf, readable: bool): Found {
    if shelf.current.None? then Failed(Missing)
    else if !readable then Failed(Unreadable)
    else Loaded(shelf.current.value.snapshot)
  }

  function MinOf(values: seq<nat>): (m: nat)
    requires values != []
    ensures m in values && forall v | v in values :: m <= v
  {
    if |values| == 1 then values[0]
    else
      assert values == [values[0]] + values[1..];
      var rest := MinOf(values[1..]);
      if values[0] < rest then values[0] else rest
  }

  /** Publishing, refreshing, crashing, respawning, and polling one process at a time.  The
      assumptions: one publisher, which alone writes current.json; one refresher per process; two
      writes of current.json differ in inode, size or time stamp. */
  predicate Enabled(s: Sys, step: Step) {
    match step
    case Publish(_, _, _, _) => true
    case Spawn(i, _) => i < |s.members| && s.members[i].Down?
    case Stop(i) => i < |s.members|
    case Stat(i) => i < |s.members| && s.members[i].Up? && s.members[i].seen.None?
    case Load(i, _, _, _) => i < |s.members| && s.members[i].Up? && s.members[i].seen.Some?
    case PollOwn => s.poll.None? && s.members != [] && InForce(s.members[0]).Some?
    case PollNext => s.poll.Some? && |s.poll.value| < |s.members|
    case PollEnd => s.poll.Some? && |s.poll.value| == |s.members|
  }

  function Next(s: Sys, step: Step): (t: Sys)
    requires WellFormed(s) && Enabled(s, step)
    ensures WellFormed(t) && |t.members| == |s.members|
  {
    match step
    case Publish(connection, policy, readable, stage) =>
      s.(shelf := Published(s.shelf, connection, policy, readable, stage).0)
    case Spawn(i, expected) => s.(members := s.members[i := Up(Fresh(expected), None, None)])
    case Stop(i) => s.(members := s.members[i := Down], poll := if i == 0 then None else s.poll)
    case Stat(i) => s.(members := s.members[i := s.members[i].(seen := Some(FileFingerprint(s.shelf)))])
    case Load(i, readable, built, force) =>
      s.(members := s.members[i := AfterLoad(s.shelf, s.members[i], readable, built, force)])
    case PollOwn => s.(poll := Some([InForce(s.members[0]).value.revision]))
    case PollNext =>
      var k := |s.poll.value|;
      var answer := InForce(s.members[k]);
      s.(poll := if answer.Some? then Some(s.poll.value + [answer.value.revision]) else None)
    case PollEnd =>
      var applied := MinOf(s.poll.value);
      s.(poll := None, acknowledged := if applied > s.acknowledged then applied else s.acknowledged)
  }

  // ---- The invariant ----

  ghost predicate ShelfOk(shelf: Shelf) {
    && (forall i, j | 0 <= i < j < |shelf.history| :: shelf.history[i].revision < shelf.history[j].revision)
    && (forall s | s in shelf.history :: s.revision > 0)
    && (shelf.current.Some? ==>
          && shelf.current.value.snapshot in shelf.history && shelf.current.value.fingerprint < shelf.writes)
  }

  function CurrentRevision(shelf: Shelf): nat {
    if shelf.current.Some? then shelf.current.value.snapshot.revision else 0
  }

  /** A process holds a published snapshot, not newer than the pointer. */
  predicate MemberOk(shelf: Shelf, m: Member) {
    InForce(m).Some? ==> InForce(m).value in shelf.history && InForce(m).value.revision <= CurrentRevision(shelf)
  }

  /** Whatever this member serves now or after a respawn is at least v. */
  predicate AtLeast(shelf: Shelf, m: Member, v: nat) {
    CurrentRevision(shelf) >= v && (InForce(m).Some? ==> InForce(m).value.revision >= v)
  }

  /** A fingerprint on record is of the file or of an older one; when it is of the file, that
      file was taken over or refused. */
  predicate SeenOk(shelf: Shelf, m: Member) {
    m.Up? ==>
      && (m.seen.Some? && m.seen.value.Some? ==>
            shelf.current.Some? && m.seen.value.value <= shelf.current.value.fingerprint)
      && (m.state.fingerprint.Some? ==>
            && shelf.current.Some? && m.state.fingerprint.value <= shelf.current.value.fingerprint
            && (m.state.fingerprint.value == shelf.current.value.fingerprint ==>
                  m.state.snapshot == Some(shelf.current.value.snapshot) || m.refused == m.state.fingerprint))
  }

  ghost predicate Inv(s: Sys) {
    && WellFormed(s) && ShelfOk(s.shelf)
    && (forall i | 0 <= i < |s.members| :: MemberOk(s.shelf, s.members[i]))
    && (forall i | 0 <= i < |s.members| :: SeenOk(s.shelf, s.members[i]))
    && (forall i | 0 <= i < |s.members| :: AtLeast(s.shelf, s.members[i], s.acknowledged))
    && (s.poll.Some? ==>
          && 0 < |s.poll.value| <= |s.members|
          && forall k | 0 <= k < |s.poll.value| :: AtLeast(s.shelf, s.members[k], s.poll.value[k]))
  }

  predicate WellFormed(s: Sys) { s.members != [] && (s.poll.Some? ==> s.poll.value != []) }

  /** The state after these steps, when each is enabled in its turn. */
  function Run(s: Sys, steps: seq<Step>): (r: Option<Sys>)
    requires WellFormed(s)
    ensures r.Some? ==> WellFormed(r.value) && |r.value.members| == |s.members|
    decreases |steps|
  {
    if steps == [] then Some(s)
    else if !Enabled(s, steps[0]) then None
    else Run(Next(s, steps[0]), steps[1..])
  }

  /** s is the state of a system of one gateway and n workers after some run. */
  ghost predicate Reachable(n: nat, s: Sys)
    ensures Reachable(n, s) ==> WellFormed(s)
  {
    exists steps :: Run(Initial(n), steps) == Some(s)
  }

  // ---- Publishing ----

  lemma {:induction false} PublishKeepsShelf(shelf: Shelf, connection: string, policy: string, readable: bool,
                                             stage: Stage)
    requires ShelfOk(shelf)
    ensures var after := Published(shelf, connection, policy, readable, stage).0;
            && ShelfOk(after) && CurrentRevision(shelf) <= CurrentRevision(after)
            && shelf.history <= after.history
            && (after.current == shelf.current
                || (after.current.Some? && after.current.value.fingerprint == shelf.writes))
  {}

  /** What publish answers: a revision under which exactly this content is current. */
  lemma {:induction false} PublishAnswers(shelf: Shelf, connection: string, policy: string, readable: bool,
                                          stage: Stage)
    requires ShelfOk(shelf)
    ensures var (after, revision) := Published(shelf, connection, policy, readable, stage);
            && (revision.Some? ==>
                  && after.current.Some?
                  && after.current.value.snapshot == Snapshot(revision.value, connection, policy)
                  && revision.value > 0)
            && (revision.None? ==> after.current == shelf.current)
            && forall a, b | a in shelf.history && b in after.history && a.revision == b.revision :: a == b
  {
    PublishKeepsShelf(shelf, connection, policy, readable, stage);
    var after := Published(shelf, connection, policy, readable, stage).0;
    forall a, b | a in shelf.history && b in after.history && a.revision == b.revision
      ensures a == b
    {
      RevisionNamesOnePolicy(after, a, b);
    }
  }

  lemma {:induction false} RevisionNamesOnePolicy(shelf: Shelf, a: Snapshot, b: Snapshot)
    requires ShelfOk(shelf) && a in shelf.history && b in shelf.history && a.revision == b.revision
    ensures a == b
  {
    var i :| 0 <= i < |shelf.history| && shelf.history[i] == a;
    var j :| 0 <= j < |shelf.history| && shelf.history[j] == b;
  }

  lemma {:induction false} ShelfGrowthKeepsMember(shelf: Shelf, after: Shelf, m: Member, v: nat)
    requires CurrentRevision(shelf) <= CurrentRevision(after) && shelf.history <= after.history
    ensures MemberOk(shelf, m) ==> MemberOk(after, m)
    ensures AtLeast(shelf, m, v) ==> AtLeast(after, m, v)
  {}

  lemma {:induction false} PublishKeepsInv(s: Sys, step: Step)
    requires Inv(s) && step.Publish?
    ensures Inv(Next(s, step))
  {
    var after := Next(s, step).shelf;
    PublishKeepsShelf(s.shelf, step.connection, step.policy, step.readable, step.stage);
    forall i | 0 <= i < |s.members|
      ensures MemberOk(after, s.members[i]) && SeenOk(after, s.members[i])
      ensures AtLeast(after, s.members[i], s.acknowledged)
    {
      assert MemberOk(s.shelf, s.members[i]) && SeenOk(s.shelf, s.members[i]);
      ShelfGrowthKeepsMember(s.shelf, after, s.members[i], s.acknowledged);
    }
    if s.poll.Some? {
      forall k | 0 <= k < |s.poll.value| ensures AtLeast(after, s.members[k], s.poll.value[k]) {
        ShelfGrowthKeepsMember(s.shelf, after, s.members[k], s.poll.value[k]);
      }
    }
  }

  // ---- Loading ----

  /** A refresh never goes back, and takes nothing but the file's snapshot. */
  lemma {:induction false} RefreshIsForward(shelf: Shelf, m: Member, step: Step, v: nat)
    requires m.Up? && m.seen.Some? && step.Load? && MemberOk(shelf, m) && ShelfOk(shelf)
    ensures var after := AfterLoad(shelf, m, step.readable, step.built, step.force);
            && MemberOk(shelf, after) && (AtLeast(shelf, m, v) ==> AtLeast(shelf, after, v))
  {}

  lemma {:induction false} RefreshRecords(shelf: Shelf, m: Member, step: Step)
    requires m.Up? && m.seen.Some? && step.Load? && SeenOk(shelf, m) && MemberOk(shelf, m) && ShelfOk(shelf)
    ensures var after := AfterLoad(shelf, m, step.readable, step.built, step.force);
            SeenOk(shelf, after)
  {
    if m.state.snapshot.Some? && shelf.current.Some? &&
       m.state.snapshot.value.revision == shelf.current.value.snapshot.revision
    {
      RevisionNamesOnePolicy(shelf, m.state.snapshot.value, shelf.current.value.snapshot);
    }
  }

  lemma {:induction false} ReplaceKeepsInv(s: Sys, i: nat, m: Member)
    requires Inv(s) && i < |s.members|
    requires MemberOk(s.shelf, m) && SeenOk(s.shelf, m)
    requires forall v | AtLeast(s.shelf, s.members[i], v) :: AtLeast(s.shelf, m, v)
    ensures Inv(s.(members := s.members[i := m]))
  {}

  lemma {:induction false} LoadKeepsInv(s: Sys, step: Step)
    requires Inv(s) && step.Load? && Enabled(s, step)
    ensures Inv(Next(s, step))
  {
    var m := s.members[step.i];
    assert MemberOk(s.shelf, m) && SeenOk(s.shelf, m);
    var after := AfterLoad(s.shelf, m, step.readable, step.built, step.force);
    RefreshRecords(s.shelf, m, step);
    forall v | AtLeast(s.shelf, m, v) ensures AtLeast(s.shelf, after, v) {
      RefreshIsForward(s.shelf, m, step, v);
    }
    RefreshIsForward(s.shelf, m, step, 0);
    ReplaceKeepsInv(s, step.i, after);
  }

  // ---- Polling ----

  lemma {:induction false} PollKeepsInv(s: Sys, step: Step)
    requires Inv(s) && Enabled(s, step) && (step.PollOwn? || step.PollNext?)
    ensures Inv(Next(s, step))
  {
    var k := if step.PollOwn? then 0 else |s.poll.value|;
    assert MemberOk(s.shelf, s.members[k]);
    var next := Next(s, step);
    if next.poll.Some? {
      assert AtLeast(s.shelf, s.members[k], next.poll.value[k]);
    }
  }

  lemma {:induction false} PollEndKeepsInv(s: Sys, step: Step)
    requires Inv(s) && Enabled(s, step) && step.PollEnd?
    ensures Inv(Next(s, step))
  {
    var applied := MinOf(s.poll.value);
    forall i | 0 <= i < |s.members| ensures AtLeast(s.shelf, s.members[i], applied) {
      assert AtLeast(s.shelf, s.members[i], s.poll.value[i]);
      assert s.poll.value[i] in s.poll.value;
    }
  }

  lemma {:induction false} StepKeepsInv(s: Sys, step: Step)
    requires Inv(s) && Enabled(s, step)
    ensures Inv(Next(s, step))
  {
    match step {
      case Publish(_, _, _, _) => PublishKeepsInv(s, step);
      case Load(_, _, _, _) => LoadKeepsInv(s, step);
      case PollOwn => PollKeepsInv(s, step);
      case PollNext => PollKeepsInv(s, step);
      case PollEnd => PollEndKeepsInv(s, step);
      case Spawn(i, expected) => ReplaceKeepsInv(s, i, Up(Fresh(expected), None, None));
      case Stop(i) => ReplaceKeepsInv(s, i, Down);
      case Stat(i) =>
        assert MemberOk(s.shelf, s.members[i]) && SeenOk(s.shelf, s.members[i]);
        ReplaceKeepsInv(s, i, s.members[i].(seen := Some(FileFingerprint(s.shelf))));
    }
  }

  lemma {:induction false} RunKeepsInv(s: Sys, steps: seq<Step>)
    requires Inv(s) && Run(s, steps).Some?
    ensures Inv(Run(s, steps).value)
    decreases |steps|
  {
    if steps != [] {
      StepKeepsInv(s, steps[0]);
      RunKeepsInv(Next(s, steps[0]), steps[1..]);
    }
  }

  lemma {:induction false} ReachableInv(n: nat, s: Sys)
    requires Reachable(n, s)
    ensures Inv(s) && |s.members| == n + 1
  {
    var steps :| Run(Initial(n), steps) == Some(s);
    RunKeepsInv(Initial(n), steps);
  }

  /** Neither the acknowledged revision nor the pointer's goes back, nor the number of its writes. */
  predicate Later(s: Sys, t: Sys) {
    && s.acknowledged <= t.acknowledged && CurrentRevision(s.shelf) <= CurrentRevision(t.shelf)
    && s.shelf.writes <= t.shelf.writes
  }

  lemma {:induction false} StepIsLater(s: Sys, step: Step)
    requires Inv(s) && Enabled(s, step)
    ensures Later(s, Next(s, step))
  {
    if step.Publish? {
      PublishKeepsShelf(s.shelf, step.connection, step.policy, step.readable, step.stage);
    }
  }

  lemma {:induction false} RunIsLater(s: Sys, steps: seq<Step>)
    requires Inv(s) && Run(s, steps).Some?
    ensures Later(s, Run(s, steps).value)
    decreases |steps|
  {
    if steps != [] {
      StepIsLater(s, steps[0]);
      StepKeepsInv(s, steps[0]);
      RunIsLater(Next(s, steps[0]), steps[1..]);
    }
  }

  // ---- Main results ----

  /** Apply, then enforce: once a poll round has acknowledged revision r, every stream started
      afterwards, on any member and after any later crash, respawn or publication, is inspected
      under a published policy of revision at least r. */
  lemma {:induction false} ApplyThenEnforce(n: nat, s: Sys, more: seq<Step>, r: nat, i: nat)
    requires Reachable(n, s) && s.acknowledged >= r && i <= n
    requires Run(s, more).Some?
    ensures var t := Run(s, more).value;
            InForce(t.members[i]).Some? ==>
              InForce(t.members[i]).value in t.shelf.history && InForce(t.members[i]).value.revision >= r
  {
    ReachableInv(n, s);
    RunIsLater(s, more);
    RunKeepsInv(s, more);
    var t := Run(s, more).value;
    assert MemberOk(t.shelf, t.members[i]) && AtLeast(t.shelf, t.members[i], t.acknowledged);
  }

  // What the loop in wait_applied sees of a run

  function Reported(values: seq<nat>): seq<Option<nat>> {
    seq(|values|, i requires 0 <= i < |values| => Some(values[i]))
  }

  /** What status answers when a step ends a round: the applied revision it computes from what the
      processes told, or nothing because one of them had nothing to tell. */
  function Reply(s: Sys, step: Step): seq<Option<nat>>
    requires WellFormed(s) && Enabled(s, step)
  {
    match step
    case PollEnd => [Applied(Some(s.poll.value[0]), Reported(s.poll.value[1..]))]
    case PollNext => if InForce(s.members[|s.poll.value|]).None? then [None] else []
    case _ => []
  }

  function Replies(s: Sys, steps: seq<Step>): seq<Option<nat>>
    requires WellFormed(s) && Run(s, steps).Some?
    decreases |steps|
  {
    if steps == [] then [] else Reply(s, steps[0]) + Replies(Next(s, steps[0]), steps[1..])
  }

  lemma {:induction false} AppliedIsMinOf(values: seq<nat>)
    requires values != []
    ensures Applied(Some(values[0]), Reported(values[1..])) == Some(MinOf(values))
  {
    var workers, m := Reported(values[1..]), MinOf(values);
    AppliedIsMinimum(Some(values[0]), workers);
    var least := Applied(Some(values[0]), workers);
    assert forall k | 0 < k < |values| :: workers[k - 1] == Some(values[k]);
    var i :| 0 <= i < |values| && values[i] == m;
    if least != Some(values[0]) {
      var k :| 0 <= k < |workers| && workers[k] == least;
      assert values[k + 1] in values && least == Some(values[k + 1]);
    }
    assert i > 0 ==> least.value <= workers[i - 1].value;
  }

  /** When wait_applied answers true to what it saw of a run, the run has acknowledged the revision. */
  lemma {:induction false} WaitedIsAcknowledged(s: Sys, steps: seq<Step>, r: nat)
    requires Inv(s) && Run(s, steps).Some? && Acknowledges(Replies(s, steps), r)
    ensures Run(s, steps).value.acknowledged >= r
    decreases |steps|
  {
    var next, first := Next(s, steps[0]), Reply(s, steps[0]);
    var later := Replies(next, steps[1..]);
    var i :| 0 <= i < |first + later| && OrZero((first + later)[i]) >= r;
    StepKeepsInv(s, steps[0]);
    if i < |first| {
      RunIsLater(next, steps[1..]);
      if steps[0].PollEnd? { AppliedIsMinOf(s.poll.value); }
    } else {
      assert (first + later)[i] == later[i - |first|];
      WaitedIsAcknowledged(next, steps[1..], r);
    }
  }

  /** The promise of apply, from publish to enforcement: when wait_applied has answered true for
      revision r, every later stream runs under a published policy of revision at least r. */
  lemma {:induction false} WaitThenEnforce(n: nat, steps: seq<Step>, more: seq<Step>, r: nat, i: nat)
    requires Run(Initial(n), steps).Some? && Acknowledges(Replies(Initial(n), steps), r) && i <= n
    requires Run(Run(Initial(n), steps).value, more).Some?
    ensures var t := Run(Run(Initial(n), steps).value, more).value;
            InForce(t.members[i]).Some? ==>
              InForce(t.members[i]).value in t.shelf.history && InForce(t.members[i]).value.revision >= r
  {
    WaitedIsAcknowledged(Initial(n), steps, r);
    ApplyThenEnforce(n, Run(Initial(n), steps).value, more, r, i);
  }

  /** While the pointer still stands at the acknowledged revision, every member enforces exactly
      the policy that was published under it. */
  lemma {:induction false} AcknowledgedPolicyIsEnforced(n: nat, s: Sys, i: nat)
    requires Reachable(n, s) && i < |s.members|
    requires s.acknowledged > 0 && s.acknowledged == CurrentRevision(s.shelf)
    ensures s.shelf.current.Some?
    ensures InForce(s.members[i]).Some? ==> InForce(s.members[i]).value == s.shelf.current.value.snapshot
  {
    ReachableInv(n, s);
    assert MemberOk(s.shelf, s.members[i]) && AtLeast(s.shelf, s.members[i], s.acknowledged);
    if InForce(s.members[i]).Some? {
      RevisionNamesOnePolicy(s.shelf, InForce(s.members[i]).value, s.shelf.current.value.snapshot);
    }
  }

  /** Unchanged, or replaced by a newer revision. */
  predicate Forward(before: Option<Snapshot>, after: Option<Snapshot>) {
    before.Some? ==> after.Some? && (after == before || after.value.revision > before.value.revision)
  }

  lemma {:induction false} MemberMovesForward(s: Sys, step: Step, i: nat)
    requires Inv(s) && Enabled(s, step) && i < |s.members| && step != Stop(i)
    ensures Forward(InForce(s.members[i]), InForce(Next(s, step).members[i]))
  {}

  /** A running process only moves forward: until it is stopped, its snapshot stays the same or is
      replaced by one of a higher revision. */
  lemma {:induction false} RevisionsOnlyGrow(n: nat, s: Sys, more: seq<Step>, i: nat)
    requires Reachable(n, s) && i < |s.members| && Stop(i) !in more
    requires Run(s, more).Some?
    ensures Forward(InForce(s.members[i]), InForce(Run(s, more).value.members[i]))
  {
    ReachableInv(n, s);
    MovesForward(s, more, i);
  }

  lemma {:induction false} MovesForward(s: Sys, more: seq<Step>, i: nat)
    requires Inv(s) && Run(s, more).Some? && i < |s.members| && Stop(i) !in more
    ensures Forward(InForce(s.members[i]), InForce(Run(s, more).value.members[i]))
    decreases |more|
  {
    if more != [] {
      assert more[0] in more;
      MemberMovesForward(s, more[0], i);
      StepKeepsInv(s, more[0]);
      MovesForward(Next(s, more[0]), more[1..], i);
    }
  }

  /** A refresh that is skipped because the fingerprint is unchanged misses nothing: the process
      holds the file's snapshot, or it looked at this very file and refused it. */
  lemma {:induction false} SkippedRefreshMissesNothing(n: nat, s: Sys, i: nat)
    requires Reachable(n, s) && i < |s.members| && s.members[i].Up?
    requires s.shelf.current.Some? && Skips(s.members[i].state, FileFingerprint(s.shelf), false)
    ensures s.members[i].state.snapshot == Some(s.shelf.current.value.snapshot)
         || s.members[i].refused == FileFingerprint(s.shelf)
  {
    ReachableInv(n, s);
    assert SeenOk(s.shelf, s.members[i]);
  }

  /** The connections a process insists on are the file's. */
  predicate Agrees(state: State, file: Snapshot) {
    && (state.expected.Some? ==> state.expected.value == file.connection)
    && (state.snapshot.Some? ==> state.snapshot.value.connection == file.connection)
  }

  /** A refresh ends with the current snapshot in force if and only if it was in force before, or
      the file is looked at, can be read, agrees with the connection and can be built. */
  lemma {:induction false} LoadTakesCurrentIff(n: nat, s: Sys, step: Step)
    requires Reachable(n, s) && step.Load? && Enabled(s, step) && s.shelf.current.Some?
    ensures var m, file := s.members[step.i], s.shelf.current.value.snapshot;
            InForce(Next(s, step).members[step.i]) == Some(file) <==>
              || InForce(m) == Some(file)
              || (!Skips(m.state, m.seen.value, step.force) && step.readable && Agrees(m.state, file) && step.built)
  {
    ReachableInv(n, s);
    var m, file := s.members[step.i], s.shelf.current.value.snapshot;
    assert MemberOk(s.shelf, m);
    if m.state.snapshot.Some? && m.state.snapshot.value.revision == file.revision {
      RevisionNamesOnePolicy(s.shelf, m.state.snapshot.value, file);
    }
  }

  /** Not every refresh on a good file takes it over.  The exact condition, for a refresh that saw
      the current file and could read and build it: the process held it already, or the file is
      another than the one it looked at last. */
  lemma {:induction false} GoodFileIsTakenIff(n: nat, s: Sys, step: Step)
    requires Reachable(n, s) && step.Load? && Enabled(s, step) && s.shelf.current.Some?
    requires step.readable && step.built && !step.force
    requires s.members[step.i].seen.value == FileFingerprint(s.shelf)
    requires Agrees(s.members[step.i].state, s.shelf.current.value.snapshot)
    ensures var m, file := s.members[step.i], s.shelf.current.value.snapshot;
            InForce(Next(s, step).members[step.i]) == Some(file) <==>
              InForce(m) == Some(file) || m.state.fingerprint != FileFingerprint(s.shelf)
  {
    LoadTakesCurrentIff(n, s, step);
  }

  /** A file looked at and not taken over is not looked at again: while the pointer is not written,
      the process is not stopped and no refresh is forced, it stays with what it had. */
  lemma {:induction false} NotTakenStaysNotTaken(n: nat, s: Sys, more: seq<Step>, i: nat)
    requires Reachable(n, s) && Run(s, more).Some? && i < |s.members| && s.members[i].Up?
    requires s.members[i].seen.None? && s.shelf.current.Some?
    requires s.members[i].state.fingerprint == FileFingerprint(s.shelf)
    requires forall step | step in more :: step != Stop(i) && (step.Load? && step.i == i ==> !step.force)
    ensures var t := Run(s, more).value;
            t.shelf.writes == s.shelf.writes ==> InForce(t.members[i]) == InForce(s.members[i])
  {
    ReachableInv(n, s);
    LookedAtIsSkipped(s, more, i);
  }

  lemma {:induction false} LookedAtIsSkipped(s: Sys, more: seq<Step>, i: nat)
    requires Inv(s) && Run(s, more).Some? && i < |s.members| && s.members[i].Up?
    requires s.members[i].seen.None? || s.members[i].seen == Some(FileFingerprint(s.shelf))
    requires s.shelf.current.Some? && s.members[i].state.fingerprint == FileFingerprint(s.shelf)
    requires forall step | step in more :: step != Stop(i) && (step.Load? && step.i == i ==> !step.force)
    ensures var t := Run(s, more).value;
            t.shelf.writes == s.shelf.writes ==> InForce(t.members[i]) == InForce(s.members[i])
    decreases |more|
  {
    if more != [] {
      var next := Next(s, more[0]);
      assert more[0] in more;
      StepKeepsInv(s, more[0]);
      StepIsLater(s, more[0]);
      RunIsLater(next, more[1..]);
      if Run(s, more).value.shelf.writes == s.shelf.writes { LookedAtIsSkipped(next, more[1..], i); }
    }
  }

  lemma {:induction false} RunFirst(s: Sys, first: Step, rest: seq<Step>)
    requires WellFormed(s) && Enabled(s, first)
    ensures Run(s, [first] + rest) == Run(Next(s, first), rest)
  {
    assert ([first] + rest)[1..] == rest;
  }

  /** A run that shows it: one failure to build, and the good file on disk is never in force. */
  lemma {:induction false} OneFailureBlocksTheFile() returns (steps: seq<Step>, s: Sys)
    ensures Run(Initial(0), steps) == Some(s) && s.shelf.current.Some?
    ensures |steps| > 0 && steps[|steps| - 1] == Load(0, true, true, false)
    ensures InForce(s.members[0]).None? && s.members[0].Up?
    ensures Agrees(s.members[0].state, s.shelf.current.value.snapshot)
  {
    var publish, spawn, stat := Publish("c", "p", true, Complete), Spawn(0, None), Stat(0);
    var bad, good := Load(0, true, false, false), Load(0, true, true, false);
    var s0 := Initial(0);
    var s1 := Next(s0, publish);
    var s2 := Next(s1, spawn);
    var s3 := Next(s2, stat);
    var s4 := Next(s3, bad);
    var s5 := Next(s4, stat);
    s := Next(s5, good);
    RunFirst(s5, good, []);
    RunFirst(s4, stat, [good] + []);
    RunFirst(s3, bad, [stat] + ([good] + []));
    RunFirst(s2, stat, [bad] + ([stat] + ([good] + [])));
    RunFirst(s1, spawn, [stat] + ([bad] + ([stat] + ([good] + []))));
    steps := [publish] + ([spawn] + ([stat] + ([bad] + ([stat] + ([good] + [])))));
    RunFirst(s0, publish, steps[1..]);
  }

  /** A publisher that stops between history and pointer leaves every process where it was, and
      the revision it used up is never given to another policy. */
  lemma {:induction false} HalfPublicationIsHarmless(shelf: Shelf, connection: string, policy: string,
                                                     connection': string, policy': string, readable: bool)
    requires ShelfOk(shelf)
    ensures var half := Published(shelf, connection, policy, false, StopsBeforePointer).0;
            var (next, revision) := Published(half, connection', policy', readable, Complete);
            && half.current == shelf.current && half.history != shelf.history
            && revision.Some?
            && forall s | s in half.history && s.revision == revision.value :: s == next.current.value.snapshot
  {
    var half := Published(shelf, connection, policy, false, StopsBeforePointer).0;
    var next := Published(half, connection', policy', readable, Complete).0;
    PublishKeepsShelf(shelf, connection, policy, false, StopsBeforePointer);
    PublishKeepsShelf(half, connection', policy', readable, Complete);
    PublishAnswers(half, connection', policy', readable, Complete);
    SameRevisionSamePolicy(half, next);
  }

  lemma {:induction false} SameRevisionSamePolicy(half: Shelf, next: Shelf)
    requires ShelfOk(next) && half.history <= next.history && next.current.Some?
    ensures forall s | s in half.history && s.revision == CurrentRevision(next) :: s == next.current.value.snapshot
  {
    forall s | s in half.history && s.revision == CurrentRevision(next) ensures s == next.current.value.snapshot {
      RevisionNamesOnePolicy(next, s, next.current.value.snapshot);
    }
  }
}
