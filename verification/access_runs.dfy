/** Many broker processes with stale caches over one file: what holds over every run. */
module AccessRuns {
  import opened Sequences
  import opened Wrappers
  import opened Access

  datatype Op =
    | AuthorizeOp(request: Request, env: Reading)
    | SettleOp(id: string, approver: string, approved: bool, now: int)
    | PutAgent(id: string, agent: Agent)
    | PutDelegation(id: string, delegation: Delegation)
    | PutLegacyApproval(id: string, approval: Approval)
    | Note(audit: Audit)

  /** How a transaction ends: it commits, it raises (or the process dies) before the rename, or
      after it, when only the directory sync is missing. */
  datatype Fault = Commits | FailsBefore | FailsAfter

  datatype Step =
    | Transact(p: nat, op: Op, fault: Fault)
    | Mirror(p: nat, request: Request, now: int)                      // evaluate
    | Legacy(p: nat, request: Request, now: int, later: int)          // the verdict of decide; its writes are Ops
    | Reload(p: nat)                                                  // a process starts, or reads

  /** A delivered answer. */
  datatype Answer = Strict(d: Decision) | Mirrored(d: Decision) | Unbound(d: Decision)

  datatype Sys = Sys(disk: Book, caches: map<nat, Book>, log: seq<Answer>)

  const INITIAL := Sys(EMPTY, map[], [])

  function CacheOf(s: Sys, p: nat): Book { if p in s.caches then s.caches[p] else EMPTY }

  /** The book decide looks at: it reloads only to look at an approval. */
  function View(s: Sys, p: nat, r: Request): Book { if r.approval != "" then s.disk else CacheOf(s, p) }

  /** The book a transaction would commit and its answer; no book when it raises ValueError. */
  function Perform(cfg: Config, book: Book, op: Op): (Option<Book>, seq<Answer>) {
    match op
    case AuthorizeOp(r, env) => var (after, d) := Authorize(cfg, book, r, env); (Some(after), [Strict(d)])
    case SettleOp(id, approver, approved, now) => (Settle(book, id, approver, approved, now), [])
    case PutAgent(id, agent) => (Some(book.(agents := book.agents[id := agent])), [])
    case PutDelegation(id, d) => (Some(book.(delegations := book.delegations[id := d])), [])
    case PutLegacyApproval(id, a) => (Some(book.(approvals := book.approvals[id := a])), [])
    case Note(e) => (Some(book.WithAudit(e)), [])
  }

  predicate Allowed(book: Book, op: Op) {
    match op
    case AuthorizeOp(_, env) => env.id !in book.approvals
    case PutLegacyApproval(id, a) => id !in book.approvals && !a.Bound()
    case Note(e) => e.ApprovalEvent? ==> !e.approval.Bound()
    case _ => true
  }

  /** Transactions may fail before or after the atomic rename.  The assumptions, in Allowed: a new
      approval's id is not in the file, and only authorize, approve and deny write events about
      digest-bound approvals. */
  predicate Enabled(s: Sys, step: Step) {
    match step
    case Transact(_, op, _) => Allowed(s.disk, op)
    case Legacy(p, r, _, _) => !IsStrict(View(s, p, r), r)
    case _ => true
  }

  function Next(cfg: Config, s: Sys, step: Step): Sys {
    match step
    case Transact(p, op, fault) =>
      var (after, answer) := Perform(cfg, s.disk, op);
      if after.None? || fault == FailsBefore then s.(caches := s.caches[p := s.disk])
      else Sys(after.value, s.caches[p := after.value], if fault == Commits then s.log + answer else s.log)
    case Mirror(p, r, now) => Sys(s.disk, s.caches[p := s.disk], s.log + [Mirrored(Evaluate(s.disk, r, now))])
    case Legacy(p, r, now, later) =>
      var view := View(s, p, r);
      Sys(s.disk, s.caches[p := view], s.log + [Unbound(LegacyDecision(cfg, view, r, now, later))])
    case Reload(p) => s.(caches := s.caches[p := s.disk])
  }

  function Run(cfg: Config, steps: seq<Step>): Option<Sys> {
    if steps == [] then Some(INITIAL)
    else
      var before, last := Run(cfg, steps[..|steps| - 1]), steps[|steps| - 1];
      if before.Some? && Enabled(before.value, last) then Some(Next(cfg, before.value, last)) else None
  }

  lemma {:induction false} RunGrows(cfg: Config, steps: seq<Step>, last: Step)
    ensures Run(cfg, steps + [last]) ==
            var before := Run(cfg, steps);
            if before.Some? && Enabled(before.value, last) then Some(Next(cfg, before.value, last)) else None
  {
    assert (steps + [last])[..|steps|] == steps;
  }

  // ---- The life of a bound approval ----

  /** The events of one bound approval, oldest first. */
  function Trail(audit: seq<Audit>, id: string): seq<Kind> {
    if audit == [] then []
    else
      var earlier, e := Trail(audit[..|audit| - 1], id), audit[|audit| - 1];
      if e.ApprovalEvent? && e.id == id && e.approval.Bound() then earlier + [e.kind] else earlier
  }

  lemma {:induction false} TrailGrows(audit: seq<Audit>, e: Audit, id: string)
    ensures Trail(audit + [e], id) == Trail(audit, id) +
              (if e.ApprovalEvent? && e.id == id && e.approval.Bound() then [e.kind] else [])
  {
    assert (audit + [e])[..|audit|] == audit;
  }

  function Lifecycle(a: Approval): seq<Kind> {
    match a.status
    case Pending => [WasCreated]
    case Denied => [WasCreated, WasDenied]
    case Approved => if a.consumed.Some? then [WasCreated, WasApproved, WasConsumed] else [WasCreated, WasApproved]
  }

  /** The audit trail of an approval tells its life, and only an approved one is consumed. */
  predicate ApprovalOk(b: Book, id: string) {
    if id in b.approvals && b.approvals[id].Bound() then
      && Trail(b.audit, id) == Lifecycle(b.approvals[id])
      && (b.approvals[id].consumed.Some? ==> b.approvals[id].status == Approved)
    else Trail(b.audit, id) == []
  }

  /** One life after the other: what is bound never changes, and the record changes only by
      moving on in its life. */
  predicate Evolves(a: Approval, b: Approval) {
    && a.context == b.context && a.instance == b.instance && a.digest == b.digest && a.expires == b.expires
    && (a.Bound() ==> Lifecycle(a) <= Lifecycle(b) && (Lifecycle(a) == Lifecycle(b) ==> a == b))
  }

  predicate EvolvesAt(before: Book, after: Book, id: string) {
    id in before.approvals ==> id in after.approvals && Evolves(before.approvals[id], after.approvals[id])
  }

  lemma {:induction false} NothingEvolves(b: Book, id: string)
    ensures EvolvesAt(b, b, id)
  {}

  lemma {:induction false} EvolvesTransitively(a: Book, b: Book, c: Book, id: string)
    requires EvolvesAt(a, b, id) && EvolvesAt(b, c, id)
    ensures EvolvesAt(a, c, id)
  {}

  // ---- What one transaction does to one approval ----

  lemma {:induction false} NoteKeeps(b: Book, e: Audit, id: string)
    requires ApprovalOk(b, id) && (e.ApprovalEvent? ==> !e.approval.Bound())
    ensures ApprovalOk(b.WithAudit(e), id) && EvolvesAt(b, b.WithAudit(e), id)
  {
    TrailGrows(b.audit, e, id);
  }

  lemma {:induction false} MoveKeeps(b: Book, name: string, a: Approval, kind: Kind, id: string)
    requires ApprovalOk(b, id)
    requires name == id && a.Bound() && (id in b.approvals ==> b.approvals[id].Bound() && Evolves(b.approvals[id], a))
    requires Lifecycle(a) == (if id in b.approvals then Lifecycle(b.approvals[id]) else []) + [kind]
    requires a.consumed.Some? ==> a.status == Approved
    ensures ApprovalOk(b.WithApproval(name, a, kind), id) && EvolvesAt(b, b.WithApproval(name, a, kind), id)
  {
    TrailGrows(b.audit, ApprovalEvent(kind, name, a), id);
  }

  lemma {:induction false} OtherKeeps(b: Book, name: string, a: Approval, kind: Kind, id: string)
    requires ApprovalOk(b, id)
    requires name != id || (!a.Bound() && (id in b.approvals ==> Evolves(b.approvals[id], a)))
    ensures ApprovalOk(b.WithApproval(name, a, kind), id) && EvolvesAt(b, b.WithApproval(name, a, kind), id)
  {
    TrailGrows(b.audit, ApprovalEvent(kind, name, a), id);
  }

  /** The three ways authorize can answer about an approval, and what it writes in each. */
  lemma {:induction false} AuthorizeKeeps(cfg: Config, b: Book, r: Request, env: Reading, id: string)
    requires ApprovalOk(b, id) && env.id !in b.approvals
    ensures var after := Authorize(cfg, b, r, env).0; ApprovalOk(after, id) && EvolvesAt(b, after, id)
  {
    var e := EvaluateStrict(b, r, env.now);
    var (after, d) := Authorize(cfg, b, r, env);
    if e.action == Allow && e.approval.Some? {
      var a := Consumption(e.approval.value, env.now);
      if r.approval == id {
        MoveKeeps(b, r.approval, a, WasConsumed, id);
      } else {
        OtherKeeps(b, r.approval, a, WasConsumed, id);
      }
      ThenNote(b, b.WithApproval(r.approval, a, WasConsumed), d, id);
    } else if e.action == ApprovalRequired && e.approval.None? {
      var a := NewApproval(cfg, r, env, e.delegation);
      if env.id == id {
        MoveKeeps(b, env.id, a, WasCreated, id);
      } else {
        OtherKeeps(b, env.id, a, WasCreated, id);
      }
      ThenNote(b, b.WithApproval(env.id, a, WasCreated), d, id);
    } else {
      NoteKeeps(b, DecisionEvent(d), id);
    }
  }

  lemma {:induction false} ThenNote(b: Book, middle: Book, d: Decision, id: string)
    requires ApprovalOk(middle, id) && EvolvesAt(b, middle, id)
    ensures ApprovalOk(middle.WithAudit(DecisionEvent(d)), id) && EvolvesAt(b, middle.WithAudit(DecisionEvent(d)), id)
  {
    NoteKeeps(middle, DecisionEvent(d), id);
  }

  lemma {:induction false} SettleKeeps(b: Book, name: string, approver: string, approved: bool, now: int, id: string)
    requires ApprovalOk(b, id) && Settle(b, name, approver, approved, now).Some?
    ensures var after := Settle(b, name, approver, approved, now).value;
            ApprovalOk(after, id) && EvolvesAt(b, after, id)
  {
    var a := b.approvals[name].(status := if approved then Approved else Denied,
                                decided := Some(now), approver := Some(approver));
    var kind := if approved then WasApproved else WasDenied;
    if name == id && a.Bound() {
      MoveKeeps(b, name, a, kind, id);
    } else {
      OtherKeeps(b, name, a, kind, id);
    }
  }

  lemma {:induction false} TransactionKeeps(cfg: Config, b: Book, op: Op, id: string)
    requires ApprovalOk(b, id) && Allowed(b, op) && Perform(cfg, b, op).0.Some?
    ensures var after := Perform(cfg, b, op).0.value; ApprovalOk(after, id) && EvolvesAt(b, after, id)
  {
    match op {
      case AuthorizeOp(r, env) => AuthorizeKeeps(cfg, b, r, env, id);
      case SettleOp(name, approver, approved, now) => SettleKeeps(b, name, approver, approved, now, id);
      case Note(e) => NoteKeeps(b, e, id);
      case _ =>
    }
  }

  // ---- The invariant of a run ----

  /** Did this answer let a request through on the strength of the named approval? */
  predicate Spends(x: Answer, id: string) {
    !x.Mirrored? && x.d.action == Allow && x.d.approval.Some? && x.d.approval.value.0 == id
  }

  function Spent(log: seq<Answer>, id: string): nat {
    if log == [] then 0 else Spent(log[..|log| - 1], id) + if Spends(log[|log| - 1], id) then 1 else 0
  }

  lemma {:induction false} SpentGrows(log: seq<Answer>, x: Answer, id: string)
    ensures Spent(log + [x], id) == Spent(log, id) + if Spends(x, id) then 1 else 0
  {
    assert (log + [x])[..|log|] == log;
  }

  /** Every allow on a bound approval carries the consumed record and came for the bound request. */
  predicate GrantOk(b: Book, x: Answer, id: string) {
    Spends(x, id) && id in b.approvals && b.approvals[id].Bound() ==>
      x.d.approval.value.1 == b.approvals[id] && b.approvals[id].consumed.Some? && b.approvals[id].Matches(x.d.request)
  }

  ghost predicate LogOk(b: Book, log: seq<Answer>, id: string) {
    && (id !in b.approvals ==> Spent(log, id) == 0)
    && (id in b.approvals && b.approvals[id].Bound() ==>
          Spent(log, id) <= if b.approvals[id].consumed.Some? then 1 else 0)
    && (forall x | x in log :: GrantOk(b, x, id))
  }

  ghost predicate InvAt(s: Sys, id: string) {
    && ApprovalOk(s.disk, id)
    && (forall p | p in s.caches :: EvolvesAt(s.caches[p], s.disk, id))
    && LogOk(s.disk, s.log, id)
  }

  lemma {:induction false} SpentIsCounted(log: seq<Answer>, id: string)
    requires Spent(log, id) == 0
    ensures forall x | x in log :: !Spends(x, id)
  {
    if log != [] {
      SpentIsCounted(log[..|log| - 1], id);
      assert log == log[..|log| - 1] + [log[|log| - 1]];
    }
  }

  /** The log is still right about a book that moved on. */
  lemma {:induction false} LogIsStable(b: Book, after: Book, log: seq<Answer>, id: string)
    requires LogOk(b, log, id) && EvolvesAt(b, after, id) && ApprovalOk(b, id) && ApprovalOk(after, id)
    ensures LogOk(after, log, id)
  {
    if id !in b.approvals || (b.approvals[id].Bound() && b.approvals[id].consumed.None?) {
      SpentIsCounted(log, id);
    }
  }

  lemma {:induction false} LogGrows(b: Book, log: seq<Answer>, x: Answer, id: string)
    requires LogOk(b, log, id) && GrantOk(b, x, id)
    requires Spends(x, id) ==> id in b.approvals && (b.approvals[id].Bound() ==> Spent(log, id) == 0)
    ensures LogOk(b, log + [x], id)
  {
    SpentGrows(log, x, id);
  }

  lemma {:induction false} AuthorizeAnswerOk(cfg: Config, b: Book, log: seq<Answer>, r: Request, env: Reading,
                                             id: string)
    requires ApprovalOk(b, id) && LogOk(b, log, id) && env.id !in b.approvals
    ensures var (after, d) := Authorize(cfg, b, r, env); LogOk(after, log + [Strict(d)], id)
  {
    var (after, d) := Authorize(cfg, b, r, env);
    AuthorizeKeeps(cfg, b, r, env, id);
    LogIsStable(b, after, log, id);
    LogGrows(after, log, Strict(d), id);
  }

  lemma {:induction false} TransactKeepsInv(cfg: Config, s: Sys, step: Step, id: string)
    requires InvAt(s, id) && step.Transact? && Enabled(s, step)
    ensures InvAt(Next(cfg, s, step), id)
  {
    hide Authorize, Settle, ApprovalOk, LogOk, EvolvesAt;
    var (after, answer) := Perform(cfg, s.disk, step.op);
    NothingEvolves(s.disk, id);
    if after.Some? { NothingEvolves(after.value, id); }
    if after.Some? && step.fault != FailsBefore {
      TransactionKeeps(cfg, s.disk, step.op, id);
      LogIsStable(s.disk, after.value, s.log, id);
      forall p | p in s.caches ensures EvolvesAt(s.caches[p], after.value, id) {
        EvolvesTransitively(s.caches[p], s.disk, after.value, id);
      }
      if step.op.AuthorizeOp? {
        AuthorizeAnswerOk(cfg, s.disk, s.log, step.op.request, step.op.env, id);
      } else {
        ConcatNothing(s.log);
      }
    }
  }

  lemma {:induction false} LegacyKeepsInv(cfg: Config, s: Sys, step: Step, id: string)
    requires InvAt(s, id) && step.Legacy? && Enabled(s, step)
    ensures InvAt(Next(cfg, s, step), id)
  {
    var view := View(s, step.p, step.request);
    var d := LegacyDecision(cfg, view, step.request, step.now, step.later);
    assert EvolvesAt(view, s.disk, id);
    LegacyNeverSpendsBound(cfg, view, step.request, step.now, step.later);
    LogGrows(s.disk, s.log, Unbound(d), id);
  }

  lemma {:induction false} StepKeepsInv(cfg: Config, s: Sys, step: Step, id: string)
    requires InvAt(s, id) && Enabled(s, step)
    ensures InvAt(Next(cfg, s, step), id)
  {
    match step {
      case Transact(_, _, _) => TransactKeepsInv(cfg, s, step, id);
      case Legacy(_, _, _, _) => LegacyKeepsInv(cfg, s, step, id);
      case Mirror(_, r, now) => LogGrows(s.disk, s.log, Mirrored(Evaluate(s.disk, r, now)), id);
      case Reload(_) =>
    }
  }

  lemma {:induction false} RunKeepsInv(cfg: Config, steps: seq<Step>, id: string)
    requires Run(cfg, steps).Some?
    ensures InvAt(Run(cfg, steps).value, id)
  {
    if steps != [] {
      RunKeepsInv(cfg, steps[..|steps| - 1], id);
      StepKeepsInv(cfg, Run(cfg, steps[..|steps| - 1]).value, steps[|steps| - 1], id);
    }
  }

  // ---- Main results ----

  /** One-time use: whatever the processes do, a digest-bound approval lets at most one request
      through; that request is the bound one, the approval was approved before, and the durable
      audit trail shows creation, approval and exactly one consumption, in this order. */
  lemma {:induction false} OneTimeUse(cfg: Config, steps: seq<Step>, id: string)
    requires Run(cfg, steps).Some?
    requires id in Run(cfg, steps).value.disk.approvals && Run(cfg, steps).value.disk.approvals[id].Bound()
    ensures var s := Run(cfg, steps).value;
            && Spent(s.log, id) <= 1
            && (Spent(s.log, id) == 1 ==> s.disk.approvals[id].consumed.Some?)
            && (s.disk.approvals[id].consumed.Some? <==>
                Trail(s.disk.audit, id) == [WasCreated, WasApproved, WasConsumed])
            && (forall x | x in s.log && Spends(x, id) ::
                  x.d.approval.value.1 == s.disk.approvals[id] && s.disk.approvals[id].Matches(x.d.request))
  {
    RunKeepsInv(cfg, steps, id);
    var s := Run(cfg, steps).value;
    forall x | x in s.log && Spends(x, id)
      ensures x.d.approval.value.1 == s.disk.approvals[id] && s.disk.approvals[id].Matches(x.d.request)
    {
      assert GrantOk(s.disk, x, id);
    }
  }

  lemma {:induction false} RunEvolves(cfg: Config, steps: seq<Step>, more: seq<Step>, id: string)
    requires Run(cfg, steps).Some? && Run(cfg, steps + more).Some?
    ensures EvolvesAt(Run(cfg, steps).value.disk, Run(cfg, steps + more).value.disk, id)
    decreases |more|
  {
    var all := steps + more;
    if more == [] {
      ConcatNothing(steps);
    } else {
      ConcatLast(steps, more);
      RunEvolves(cfg, steps, more[..|more| - 1], id);
      RunKeepsInv(cfg, all[..|all| - 1], id);
      var s, last := Run(cfg, all[..|all| - 1]).value, all[|all| - 1];
      if last.Transact? && Perform(cfg, s.disk, last.op).0.Some? {
        TransactionKeeps(cfg, s.disk, last.op, id);
      }
      EvolvesTransitively(Run(cfg, steps).value.disk, s.disk, Run(cfg, all).value.disk, id);
    }
  }

  /** Denied and consumed are final: no later step of any process changes such a record, and no
      later answer of any kind lets a request through on it. */
  lemma {:induction false} DecidedIsFinal(cfg: Config, steps: seq<Step>, more: seq<Step>, id: string)
    requires Run(cfg, steps).Some? && Run(cfg, steps + more).Some?
    requires id in Run(cfg, steps).value.disk.approvals
    requires var a := Run(cfg, steps).value.disk.approvals[id]; a.Bound() && (a.status == Denied || a.consumed.Some?)
    ensures var before, after := Run(cfg, steps).value, Run(cfg, steps + more).value;
            && id in after.disk.approvals && after.disk.approvals[id] == before.disk.approvals[id]
            && Trail(after.disk.audit, id) == Trail(before.disk.audit, id)
            && (before.disk.approvals[id].status == Denied ==> Spent(after.log, id) == 0)
  {
    RunEvolves(cfg, steps, more, id);
    RunKeepsInv(cfg, steps, id);
    RunKeepsInv(cfg, steps + more, id);
    LifeIsOver(Run(cfg, steps).value, Run(cfg, steps + more).value, id);
  }

  lemma {:induction false} LifeIsOver(before: Sys, after: Sys, id: string)
    requires InvAt(before, id) && InvAt(after, id) && EvolvesAt(before.disk, after.disk, id)
    requires id in before.disk.approvals
    requires var a := before.disk.approvals[id]; a.Bound() && (a.status == Denied || a.consumed.Some?)
    ensures id in after.disk.approvals && after.disk.approvals[id] == before.disk.approvals[id]
    ensures Trail(after.disk.audit, id) == Trail(before.disk.audit, id)
    ensures before.disk.approvals[id].status == Denied ==> Spent(after.log, id) == 0
  {
    var a, b := before.disk.approvals[id], after.disk.approvals[id];
    assert Lifecycle(a) <= Lifecycle(b);
    assert Lifecycle(a)[1] == Lifecycle(b)[1];
  }

  // ---- Mirror erasure ----

  function Erase(steps: seq<Step>): seq<Step> {
    if steps == [] then []
    else
      var earlier, last := Erase(steps[..|steps| - 1]), steps[|steps| - 1];
      if last.Mirror? then earlier else earlier + [last]
  }

  /** Answers that no evaluate can touch: the strict ones, and the legacy ones to a request that
      names an approval; with legacy set, all legacy ones. */
  predicate Kept(x: Answer, legacy: bool) { x.Strict? || (x.Unbound? && (legacy || x.d.request.approval != "")) }

  function KeptAnswers(log: seq<Answer>, legacy: bool): seq<Answer> {
    if log == [] then []
    else
      var earlier, last := KeptAnswers(log[..|log| - 1], legacy), log[|log| - 1];
      if Kept(last, legacy) then earlier + [last] else earlier
  }

  lemma {:induction false} KeptAnswersGrow(log: seq<Answer>, x: Answer, legacy: bool)
    ensures KeptAnswers(log + [x], legacy) == KeptAnswers(log, legacy) + if Kept(x, legacy) then [x] else []
  {
    assert (log + [x])[..|log|] == log;
  }

  ghost predicate SameCaches(s: Sys, t: Sys) { forall p :: CacheOf(s, p) == CacheOf(t, p) }

  ghost predicate SameFor(s: Sys, t: Sys, legacy: bool) {
    && s.disk == t.disk && (legacy ==> SameCaches(s, t))
    && KeptAnswers(s.log, legacy) == KeptAnswers(t.log, legacy)
  }

  lemma {:induction false} AnswersKeepSame(a: seq<Answer>, b: seq<Answer>, x: Answer, y: Answer, legacy: bool)
    requires KeptAnswers(a, legacy) == KeptAnswers(b, legacy)
    requires if Kept(x, legacy) then x == y else !Kept(y, legacy)
    ensures KeptAnswers(a + [x], legacy) == KeptAnswers(b + [y], legacy)
    ensures !Kept(x, legacy) ==> KeptAnswers(a + [x], legacy) == KeptAnswers(b, legacy)
  {
    KeptAnswersGrow(a, x, legacy);
    KeptAnswersGrow(b, y, legacy);
  }

  lemma {:induction false} CachesKeepSame(s: Sys, t: Sys, after: Sys, next: Sys, p: nat, book: Book)
    requires SameCaches(s, t) && after.caches == s.caches[p := book]
    ensures next.caches == t.caches[p := book] ==> SameCaches(after, next)
    ensures book == CacheOf(s, p) ==> SameCaches(after, t)
  {
    forall q ensures CacheOf(after, q) == if q == p then book else CacheOf(s, q) {}
    if next.caches == t.caches[p := book] {
      forall q ensures CacheOf(next, q) == CacheOf(after, q) {
        assert CacheOf(s, q) == CacheOf(t, q);
      }
    }
  }

  /** Only a legacy answer to a request without an approval depends on a cache. */
  lemma {:induction false} LegacyReads(cfg: Config, s: Sys, t: Sys, p: nat, r: Request, now: int, later: int,
                                       legacy: bool)
    requires SameFor(s, t, legacy)
    ensures IsStrict(View(s, p, r), r) == IsStrict(View(t, p, r), r)
    ensures legacy ==> View(s, p, r) == View(t, p, r)
    ensures var x := Unbound(LegacyDecision(cfg, View(s, p, r), r, now, later));
            var y := Unbound(LegacyDecision(cfg, View(t, p, r), r, now, later));
            if Kept(x, legacy) then x == y else !Kept(y, legacy)
  {}

  lemma {:induction false} StepKeepsSame(cfg: Config, s: Sys, t: Sys, step: Step, legacy: bool)
    requires SameFor(s, t, legacy) && Enabled(s, step)
    ensures Enabled(t, step) && SameFor(Next(cfg, s, step), Next(cfg, t, step), legacy)
  {
    hide Perform, Evaluate, LegacyDecision, KeptAnswers, IsStrict, SameCaches, CacheOf, View;
    var after, next := Next(cfg, s, step), Next(cfg, t, step);
    match step {
      case Transact(p, op, fault) =>
        var (done, answer) := Perform(cfg, s.disk, op);
        var book := if done.None? || fault == FailsBefore then s.disk else done.value;
        if legacy { CachesKeepSame(s, t, after, next, p, book); }
        AnswersAreStrict(cfg, s.disk, op);
        if answer != [] {
          AnswersKeepSame(s.log, t.log, answer[0], answer[0], legacy);
        } else {
          ConcatNothing(s.log);
          ConcatNothing(t.log);
        }
      case Mirror(p, r, now) =>
        if legacy { CachesKeepSame(s, t, after, next, p, s.disk); }
        AnswersKeepSame(s.log, t.log, Mirrored(Evaluate(s.disk, r, now)), Mirrored(Evaluate(s.disk, r, now)), legacy);
      case Legacy(p, r, now, later) =>
        LegacyReads(cfg, s, t, p, r, now, later, legacy);
        if legacy { CachesKeepSame(s, t, after, next, p, View(s, p, r)); }
        AnswersKeepSame(s.log, t.log, Unbound(LegacyDecision(cfg, View(s, p, r), r, now, later)),
                        Unbound(LegacyDecision(cfg, View(t, p, r), r, now, later)), legacy);
      case Reload(p) =>
        if legacy { CachesKeepSame(s, t, after, next, p, s.disk); }
    }
  }

  lemma {:induction false} AnswersAreStrict(cfg: Config, book: Book, op: Op)
    ensures var answer := Perform(cfg, book, op).1; |answer| <= 1 && (answer != [] ==> answer == [answer[0]])
  {}

  /** The exact condition for one evaluate: it changes no book that a later answer reads if and
      only if the cache it refreshes held the file already.  A request that names an approval is
      answered from the file either way. */
  lemma {:induction false} MirrorIsInvisibleIff(cfg: Config, s: Sys, p: nat, m: Request, now: int)
    ensures var t := Next(cfg, s, Mirror(p, m, now));
            && t.disk == s.disk
            && ((forall q, r :: View(t, q, r) == View(s, q, r)) <==> CacheOf(s, p) == s.disk)
            && (forall q, r: Request | r.approval != "" :: View(t, q, r) == View(s, q, r))
            && (forall q, r | q != p :: View(t, q, r) == View(s, q, r))
  {
    hide Evaluate;
    var t := Next(cfg, s, Mirror(p, m, now));
    var r := m.(approval := "");
    assert View(t, p, r) == s.disk && View(s, p, r) == CacheOf(s, p);
  }

  /** Every evaluate of the run comes when its process has the file in its cache. */
  predicate FreshMirrors(cfg: Config, steps: seq<Step>)
    requires Run(cfg, steps).Some?
  {
    steps != [] ==>
      var before, last := steps[..|steps| - 1], steps[|steps| - 1];
      && FreshMirrors(cfg, before)
      && (last.Mirror? ==> var s := Run(cfg, before).value; CacheOf(s, last.p) == s.disk)
  }

  lemma {:induction false} ErasureKeeps(cfg: Config, steps: seq<Step>, legacy: bool)
    requires Run(cfg, steps).Some? && (legacy ==> FreshMirrors(cfg, steps))
    ensures Run(cfg, Erase(steps)).Some?
    ensures SameFor(Run(cfg, steps).value, Run(cfg, Erase(steps)).value, legacy)
  {
    hide Next, Enabled, Kept, KeptAnswers;
    if steps != [] {
      var before, last := steps[..|steps| - 1], steps[|steps| - 1];
      ErasureKeeps(cfg, before, legacy);
      var s, t := Run(cfg, before).value, Run(cfg, Erase(before)).value;
      if last.Mirror? {
        MirrorKeepsSame(cfg, s, t, last, legacy);
      } else {
        StepKeepsSame(cfg, s, t, last, legacy);
        RunGrows(cfg, Erase(before), last);
      }
    }
  }

  lemma {:induction false} MirrorKeepsSame(cfg: Config, s: Sys, t: Sys, step: Step, legacy: bool)
    requires SameFor(s, t, legacy) && step.Mirror? && (legacy ==> CacheOf(s, step.p) == s.disk)
    ensures SameFor(Next(cfg, s, step), t, legacy)
  {
    hide Evaluate, KeptAnswers, SameCaches, CacheOf;
    var x := Mirrored(Evaluate(s.disk, step.request, step.now));
    if legacy { CachesKeepSame(s, t, Next(cfg, s, step), t, step.p, s.disk); }
    AnswersKeepSame(s.log, t.log, x, x, legacy);
  }

  /** Deleting every evaluate from a run leaves a run with the same file and, in the same order,
      the same strict answers and the same legacy answers to requests that name an approval. */
  lemma {:induction false} MirrorErasure(cfg: Config, steps: seq<Step>)
    requires Run(cfg, steps).Some?
    ensures Run(cfg, Erase(steps)).Some?
    ensures var s, t := Run(cfg, steps).value, Run(cfg, Erase(steps)).value;
            s.disk == t.disk && KeptAnswers(s.log, false) == KeptAnswers(t.log, false)
  {
    ErasureKeeps(cfg, steps, false);
  }

  /** When every evaluate comes with the file in the cache, deleting all of them leaves the file,
      every cache and every other answer, strict or legacy, as it was. */
  lemma {:induction false} FreshMirrorErasure(cfg: Config, steps: seq<Step>)
    requires Run(cfg, steps).Some? && FreshMirrors(cfg, steps)
    ensures Run(cfg, Erase(steps)).Some?
    ensures var s, t := Run(cfg, steps).value, Run(cfg, Erase(steps)).value;
            s.disk == t.disk && SameCaches(s, t) && KeptAnswers(s.log, true) == KeptAnswers(t.log, true)
  {
    ErasureKeeps(cfg, steps, true);
  }

  /** The other legacy answers are not protected: decide reads the cache that evaluate refreshed. */
  lemma {:induction false} MirrorChangesLegacy(cfg: Config) returns (steps: seq<Step>, s: Sys, t: Sys)
    ensures Run(cfg, steps) == Some(s) && Run(cfg, Erase(steps)) == Some(t)
    ensures |s.log| == 2 && s.log[1].Unbound? && s.log[1].d.action == Allow
    ensures |t.log| == 1 && t.log[0].Unbound? && t.log[0].d.action == Block
  {
    var r := Request(Context(OnBehalf, None, "u", "a", "d", "t", "x", "y", "edit"), None, "", Absent);
    var first := Transact(0, PutAgent("a", Agent(None, true, Low, false, [], [], [])), Commits);
    var second := Transact(0, PutDelegation("d", Delegation(None, "u", "a", "t", [], [], Active, 1)), Commits);
    var mirror, legacy := Mirror(1, r, 0), Legacy(1, r, 0, 0);
    steps := [first, second, mirror, legacy];
    EditIsNotHighRisk();
    UnfoldRuns(cfg, first, second, mirror, legacy);
    s, t := Run(cfg, steps).value, Run(cfg, Erase(steps)).value;
  }

  lemma {:induction false} EditIsNotHighRisk()
    ensures "edit" !in HIGH_RISK_ACTIONS
  {
    assert |"edit"| == 4;
  }

  lemma {:induction false} EraseGrows(steps: seq<Step>, last: Step)
    ensures Erase(steps + [last]) == if last.Mirror? then Erase(steps) else Erase(steps) + [last]
  {
    assert (steps + [last])[..|steps|] == steps;
  }

  lemma {:induction false} FourSteps(a: Step, b: Step, m: Step, l: Step)
    ensures [a] == [] + [a] && [a, b] == [a] + [b] && [a, b, m] == [a, b] + [m]
    ensures [a, b, m, l] == [a, b, m] + [l]
  {}

  lemma {:induction false} NoSteps(cfg: Config)
    ensures Run(cfg, []) == Some(INITIAL) && Erase([]) == []
  {}

  lemma {:induction false} UnfoldRuns(cfg: Config, a: Step, b: Step, m: Step, l: Step)
    requires !a.Mirror? && !b.Mirror? && m.Mirror? && l.Legacy?
    requires Enabled(INITIAL, a)
    requires var s1 := Next(cfg, INITIAL, a); Enabled(s1, b)
    requires var s2 := Next(cfg, Next(cfg, INITIAL, a), b); Enabled(s2, l) && Enabled(Next(cfg, s2, m), l)
    ensures var s2 := Next(cfg, Next(cfg, INITIAL, a), b);
            && Run(cfg, [a, b, m, l]) == Some(Next(cfg, Next(cfg, s2, m), l))
            && Run(cfg, Erase([a, b, m, l])) == Some(Next(cfg, s2, l))
  {
    assert Enabled(Next(cfg, Next(cfg, INITIAL, a), b), m);
    hide Next, Enabled, Run, Erase;
    FourSteps(a, b, m, l);
    NoSteps(cfg);
    RunGrows(cfg, [], a);
    RunGrows(cfg, [a], b);
    RunGrows(cfg, [a, b], m);
    RunGrows(cfg, [a, b, m], l);
    EraseGrows([], a);
    EraseGrows([a], b);
    EraseGrows([a, b], m);
    EraseGrows([a, b, m], l);
    RunGrows(cfg, [a, b], l);
  }

  /** evaluate tells what authorize would answer on the same file at the same time. */
  lemma {:induction false} MirrorForecasts(cfg: Config, s: Sys, p: nat, q: nat, r: Request, env: Reading)
    requires Enabled(s, Transact(q, AuthorizeOp(r, env), Commits))
    ensures var seen := Next(cfg, s, Mirror(p, r, env.now));
            var done := Next(cfg, seen, Transact(q, AuthorizeOp(r, env), Commits));
            && seen.disk == s.disk
            && |done.log| == |s.log| + 2
            && done.log[|s.log|].d.action == done.log[|s.log| + 1].d.action
            && done.log[|s.log|].d.reason == done.log[|s.log| + 1].d.reason
            && done.log[|s.log|].d.token.None? && done.log[|s.log|].d.approval.None?
  {}
}
