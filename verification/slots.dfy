/** Bounded concurrency: the inspection workers, whose slot follows the blocking scan and not its
    caller, and the gateway's admission, with slots and waiters. */
module Slots {
  import opened Sequences
  import opened Wrappers

  type Id = nat

  // ---- Inspection workers ----

  /** queue: callers waiting for a slot; running: scans in their threads; callers: those still
      waiting for the result of a running scan. */
  datatype Workers = Workers(free: nat, queue: set<Id>, running: set<Id>, callers: set<Id>)

  datatype Step =
    | Call(id: Id)      // run is called
    | Take(id: Id)      // the semaphore is acquired and the scan's task created
    | Abandon(id: Id)   // the caller is cancelled or times out
    | End(id: Id)       // the scan ends, well or badly

  predicate Enabled(w: Workers, step: Step) {
    match step
    case Call(id) => id !in w.queue && id !in w.running
    case Take(id) => id in w.queue && w.free > 0
    case Abandon(id) => id in w.queue || id in w.callers
    case End(id) => id in w.running
  }

  function Next(w: Workers, step: Step): Workers
    requires Enabled(w, step)
  {
    match step
    case Call(id) => w.(queue := w.queue + {id})
    case Take(id) => Workers(w.free - 1, w.queue - {id}, w.running + {id}, w.callers + {id})
    case Abandon(id) => w.(queue := w.queue - {id}, callers := w.callers - {id})
    case End(id) => w.(free := w.free + 1, running := w.running - {id}, callers := w.callers - {id})
  }

  function Run(maximum: nat, steps: seq<Step>): Option<Workers> {
    if steps == [] then Some(Workers(maximum, {}, {}, {}))
    else
      var before, last := Run(maximum, steps[..|steps| - 1]), steps[|steps| - 1];
      if before.Some? && Enabled(before.value, last) then Some(Next(before.value, last)) else None
  }

  function Count(steps: seq<Step>, take: bool): nat {
    if steps == [] then 0
    else
      var last := steps[|steps| - 1];
      Count(steps[..|steps| - 1], take) + if (take && last.Take?) || (!take && last.End?) then 1 else 0
  }

  predicate Conserved(maximum: nat, w: Workers) {
    w.free + |w.running| == maximum && w.callers <= w.running && w.queue * w.running == {}
  }

  /** Free slots and running scans always make up the maximum, every slot taken is given back
      once, by the end of its scan, and nobody waits for a scan that does not run. */
  lemma {:induction false} SlotsAreConserved(maximum: nat, steps: seq<Step>)
    requires Run(maximum, steps).Some?
    ensures var w := Run(maximum, steps).value;
            Conserved(maximum, w) && Count(steps, true) == Count(steps, false) + |w.running|
  {
    if steps != [] {
      SlotsAreConserved(maximum, steps[..|steps| - 1]);
    }
  }

  /** A scan keeps its slot, whatever becomes of its caller, until it ends: at most maximum - 1
      others run beside it. */
  lemma {:induction false} AbandonedScanKeepsItsSlot(maximum: nat, steps: seq<Step>, more: seq<Step>, id: Id)
    requires Run(maximum, steps).Some? && Run(maximum, steps + more).Some?
    requires id in Run(maximum, steps).value.running && End(id) !in more
    ensures var w := Run(maximum, steps + more).value;
            id in w.running && w.free + |w.running - {id}| == maximum - 1
    decreases |more|
  {
    var all := steps + more;
    SlotsAreConserved(maximum, all);
    if more == [] {
      ConcatNothing(steps);
    } else {
      ConcatLast(steps, more);
      AbandonedScanKeepsItsSlot(maximum, steps, more[..|more| - 1], id);
    }
  }

  class InspectionWorkers {
    const maximum: nat
    var slots: nat
    var queue: set<Id>
    var running: set<Id>
    var callers: set<Id>

    constructor (maximum: nat)
      ensures this.maximum == maximum && State() == Workers(maximum, {}, {}, {}) && Valid()
    {
      this.maximum, slots, queue, running, callers := maximum, maximum, {}, {}, {};
    }

    function State(): Workers
      reads this
    {
      Workers(slots, queue, running, callers)
    }

    ghost predicate Valid()
      reads this
    {
      Conserved(maximum, State())
    }

    /** The caller waits on the semaphore. */
    method Arrive(id: Id)
      requires Valid() && Enabled(State(), Call(id))
      modifies this
      ensures Valid() && State() == Next(old(State()), Call(id))
    {
      queue := queue + {id};
    }

    /** Acquiring the slot and creating the task happen without a suspension in between. */
    method Start(id: Id)
      requires Valid() && Enabled(State(), Take(id))
      modifies this
      ensures Valid() && State() == Next(old(State()), Take(id))
    {
      slots, queue := slots - 1, queue - {id};
      running, callers := running + {id}, callers + {id};
    }

    /** Cancelling reaches the caller only: the task is shielded. */
    method Cancel(id: Id)
      requires Valid() && Enabled(State(), Abandon(id))
      modifies this
      ensures Valid() && State() == Next(old(State()), Abandon(id)) && slots == old(slots) && running == old(running)
    {
      queue, callers := queue - {id}, callers - {id};
    }

    /** The task's done callback. */
    method Finished(id: Id)
      requires Valid() && Enabled(State(), End(id))
      modifies this
      ensures Valid() && State() == Next(old(State()), End(id))
    {
      slots := slots + 1;
      running, callers := running - {id}, callers - {id};
    }
  }

  // ---- Gateway admission ----

  datatype Gate = Gate(free: nat, inflight: set<Id>, seats: nat, waiting: set<Id>)

  datatype Move =
    | Enter(id: Id)
    | Admit(id: Id)      // a waiting request gets a slot in time
    | GiveUp(id: Id)     // it times out or is cancelled
    | Leave(id: Id)      // an admitted request ends, in any way

  /** Semaphore.locked(): no slot, or somebody is waiting for one. */
  predicate Locked(g: Gate) { g.free == 0 || g.waiting != {} }

  /** GatewayBusy. */
  predicate Refuses(g: Gate, waitMs: nat) { Locked(g) && (waitMs == 0 || g.seats == 0) }

  predicate Possible(g: Gate, move: Move) {
    match move
    case Enter(id) => id !in g.inflight && id !in g.waiting
    case Admit(id) => id in g.waiting && g.free > 0
    case GiveUp(id) => id in g.waiting
    case Leave(id) => id in g.inflight
  }

  function Moved(g: Gate, move: Move, waitMs: nat): Gate
    requires Possible(g, move)
  {
    match move
    case Enter(id) =>
      if Refuses(g, waitMs) then g
      else if Locked(g) then g.(seats := g.seats - 1, waiting := g.waiting + {id})
      else g.(free := g.free - 1, inflight := g.inflight + {id})
    case Admit(id) => Gate(g.free - 1, g.inflight + {id}, g.seats + 1, g.waiting - {id})
    case GiveUp(id) => g.(seats := g.seats + 1, waiting := g.waiting - {id})
    case Leave(id) => g.(free := g.free + 1, inflight := g.inflight - {id})
  }

  function Traffic(limit: nat, waitMs: nat, moves: seq<Move>): Option<Gate> {
    if moves == [] then Some(Gate(limit, {}, limit, {}))
    else
      var before, last := Traffic(limit, waitMs, moves[..|moves| - 1]), moves[|moves| - 1];
      if before.Some? && Possible(before.value, last) then Some(Moved(before.value, last, waitMs)) else None
  }

  predicate Balanced(limit: nat, g: Gate) {
    g.free + |g.inflight| == limit && g.seats + |g.waiting| == limit && g.inflight * g.waiting == {}
  }

  lemma {:induction false} MoveKeepsBalance(limit: nat, g: Gate, move: Move, waitMs: nat)
    requires Balanced(limit, g) && Possible(g, move)
    ensures Balanced(limit, Moved(g, move, waitMs))
  {}

  /** Over any traffic the requests in flight and the waiting ones stay within the limit each, and
      every slot and seat that is not held is free: none is lost and none returned twice. */
  lemma {:induction false} AdmissionIsBalanced(limit: nat, waitMs: nat, moves: seq<Move>)
    requires Traffic(limit, waitMs, moves).Some?
    ensures Balanced(limit, Traffic(limit, waitMs, moves).value)
  {
    if moves != [] {
      AdmissionIsBalanced(limit, waitMs, moves[..|moves| - 1]);
      MoveKeepsBalance(limit, Traffic(limit, waitMs, moves[..|moves| - 1]).value, moves[|moves| - 1], waitMs);
    }
  }

  /** In reachable states a request is turned away exactly when it cannot have a slot at once and
      waiting is switched off or all the seats are taken. */
  lemma {:induction false} RefusedIff(limit: nat, waitMs: nat, moves: seq<Move>)
    requires Traffic(limit, waitMs, moves).Some?
    ensures var g := Traffic(limit, waitMs, moves).value;
            Refuses(g, waitMs) <==>
              (|g.inflight| == limit || g.waiting != {}) && (waitMs == 0 || |g.waiting| == limit)
  {
    AdmissionIsBalanced(limit, waitMs, moves);
  }

  class Admission {
    const limit: nat
    const waitMs: nat
    var slots: nat
    var waiters: nat
    ghost var inflight: set<Id>
    ghost var waiting: set<Id>

    constructor (limit: nat, waitMs: nat)
      ensures this.limit == limit && this.waitMs == waitMs && Valid() && State() == Gate(limit, {}, limit, {})
    {
      this.limit, this.waitMs, slots, waiters := limit, waitMs, limit, limit;
      inflight, waiting := {}, {};
    }

    ghost function State(): Gate
      reads this
    {
      Gate(slots, inflight, waiters, waiting)
    }

    ghost predicate Valid()
      reads this
    {
      Balanced(limit, State())
    }

    /** Up to the point where the request is in, waits, or is refused.  locked is what the slot
        semaphore answers. */
    method TryEnter(id: Id, locked: bool) returns (busy: bool)
      requires Valid() && Possible(State(), Enter(id)) && locked == Locked(State())
      modifies this
      ensures Valid() && State() == Moved(old(State()), Enter(id), waitMs) && busy == Refuses(old(State()), waitMs)
    {
      hide Balanced;
      MoveKeepsBalance(limit, State(), Enter(id), waitMs);
      if locked {
        if waitMs == 0 || waiters == 0 { return true; }
        waiters, waiting := waiters - 1, waiting + {id};
      } else {
        slots, inflight := slots - 1, inflight + {id};
      }
      return false;
    }

    /** The wait ends: with a slot or without one, the seat is given back. */
    method EndWait(id: Id, acquired: bool) returns (busy: bool)
      requires Valid() && Possible(State(), if acquired then Admit(id) else GiveUp(id))
      modifies this
      ensures Valid() && State() == Moved(old(State()), if acquired then Admit(id) else GiveUp(id), waitMs)
      ensures busy == !acquired
    {
      hide Balanced;
      MoveKeepsBalance(limit, State(), if acquired then Admit(id) else GiveUp(id), waitMs);
      if acquired {
        slots, inflight := slots - 1, inflight + {id};
      }
      waiters, waiting := waiters + 1, waiting - {id};
      return !acquired;
    }

    method Exit(id: Id)
      requires Valid() && Possible(State(), Leave(id))
      modifies this
      ensures Valid() && State() == Moved(old(State()), Leave(id), waitMs)
    {
      hide Balanced;
      MoveKeepsBalance(limit, State(), Leave(id), waitMs);
      slots, inflight := slots + 1, inflight - {id};
    }
  }
}
