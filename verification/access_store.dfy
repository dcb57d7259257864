/** The file store and the broker as objects: dictionaries updated in place, nested transactions,
    commit by atomic rename.  Every method is tied to the steps of AccessRuns. */
module AccessStore {
  import opened Wrappers
  import opened Access
  import opened AccessRuns

  /** The JSON file that all processes share; a missing file reads as an empty book. */
  class Disk {
    var book: Book

    constructor ()
      ensures book == EMPTY
    {
      book := EMPTY;
    }
  }

  /** What a transaction with these pending records leaves on disk. */
  function Committed(before: Book, pending: Book, raised: bool, dirty: bool, fault: Fault): Book {
    if raised || !dirty || fault == FailsBefore then before else pending
  }

  class FileStore {
    const disk: Disk
    var agents: map<string, Agent>
    var delegations: map<string, Delegation>
    var approvals: map<string, Approval>
    var audit: seq<Audit>
    var depth: nat
    var dirty: bool

    constructor (disk: Disk)
      ensures this.disk == disk && Cache() == disk.book && depth == 0
    {
      this.disk := disk;
      depth, dirty := 0, false;
      agents, delegations := disk.book.agents, disk.book.delegations;
      approvals, audit := disk.book.approvals, disk.book.audit;
    }

    function Cache(): Book
      reads this
    {
      Book(agents, delegations, approvals, audit)
    }

    method Load()
      modifies this`agents, this`delegations, this`approvals, this`audit
      ensures Cache() == disk.book
    {
      agents, delegations := disk.book.agents, disk.book.delegations;
      approvals, audit := disk.book.approvals, disk.book.audit;
    }

    /** Writes a temporary file, renames it, syncs the directory. */
    method Persist(fault: Fault) returns (failed: bool)
      modifies disk
      ensures disk.book == if fault == FailsBefore then old(disk.book) else old(Cache())
      ensures failed == (fault != Commits)
    {
      if fault == FailsBefore { return true; }
      disk.book := Cache();
      return fault == FailsAfter;
    }

    /** Entering the context manager; a nested transaction joins the outer one. */
    method Begin() returns (outer: bool)
      modifies this
      ensures outer == (old(depth) == 0) && depth > 0
      ensures outer ==> Cache() == disk.book && depth == 1 && !dirty
      ensures !outer ==> Cache() == old(Cache()) && depth == old(depth) && dirty == old(dirty)
    {
      if depth > 0 { return false; }
      Load();
      depth, dirty := 1, false;
      return true;
    }

    /** Leaving it: persist when something changed; reload after any failure. */
    method End(outer: bool, raised: bool, fault: Fault) returns (failed: bool)
      modifies this, disk
      ensures !outer ==> failed == raised && Cache() == old(Cache()) && disk.book == old(disk.book)
                         && depth == old(depth) && dirty == old(dirty)
      ensures outer ==>
                && disk.book == Committed(old(disk.book), old(Cache()), raised, old(dirty), fault)
                && failed == (raised || (old(dirty) && fault != Commits))
                && Cache() == (if failed then disk.book else old(Cache()))
                && depth == 0 && !dirty
    {
      failed := raised;
      if !outer { return; }
      if !raised && dirty {
        failed := Persist(fault);
      }
      if failed {
        Load();
      }
      depth, dirty := 0, false;
    }

    /** Inside a transaction the record waits for the commit; alone it is a transaction. */
    method UpsertApproval(id: string, a: Approval, fault: Fault) returns (failed: bool)
      modifies this, disk
      ensures old(depth) > 0 ==> !failed && Cache() == old(Cache()).(approvals := old(approvals)[id := a]) && dirty
                                 && disk.book == old(disk.book) && depth == old(depth)
      ensures old(depth) == 0 ==>
                var pending := old(disk.book).(approvals := old(disk.book.approvals)[id := a]);
                && disk.book == Committed(old(disk.book), pending, false, true, fault)
                && failed == (fault != Commits) && Cache() == disk.book && depth == 0
    {
      var outer := Begin();
      approvals := approvals[id := a];
      dirty := true;
      failed := End(outer, false, fault);
    }

    method AppendAudit(e: Audit, fault: Fault) returns (failed: bool)
      modifies this, disk
      ensures old(depth) > 0 ==> !failed && Cache() == old(Cache()).WithAudit(e) && dirty
                                 && disk.book == old(disk.book) && depth == old(depth)
      ensures old(depth) == 0 ==>
                && disk.book == Committed(old(disk.book), old(disk.book).WithAudit(e), false, true, fault)
                && failed == (fault != Commits) && Cache() == disk.book && depth == 0
    {
      var outer := Begin();
      audit := audit + [e];
      dirty := true;
      failed := End(outer, false, fault);
    }
  }

  class Broker {
    const cfg: Config
    const store: FileStore

    constructor (cfg: Config, store: FileStore)
      ensures this.cfg == cfg && this.store == store
    {
      this.cfg, this.store := cfg, store;
    }

    /** Stores a new or consumed approval and its event, inside the transaction of authorize. */
    method RecordApproval(id: string, a: Approval, kind: Kind)
      requires store.depth > 0
      modifies store, store.disk
      ensures store.Cache() == old(store.Cache()).WithApproval(id, a, kind) && store.dirty
      ensures store.disk.book == old(store.disk.book) && store.depth == old(store.depth)
    {
      var _ := store.UpsertApproval(id, a, Commits);
      var _ := store.AppendAudit(ApprovalEvent(kind, id, a), Commits);
    }

    /** The body of the transaction: the answer, and the records it leaves to be committed. */
    method Answer(r: Request, env: Reading) returns (d: Decision)
      requires store.depth > 0
      modifies store, store.disk
      ensures (store.Cache(), d) == Authorize(cfg, old(store.Cache()), r, env) && store.dirty
      ensures store.disk.book == old(store.disk.book) && store.depth == old(store.depth)
    {
      var e := EvaluateStrict(store.Cache(), r, env.now);
      var approval := if e.approval.Some? then Some((r.approval, e.approval.value)) else None;
      var token := None;
      if e.action == ApprovalRequired && e.approval.None? && r.digest.Text? {
        var a := NewApproval(cfg, r, env, e.delegation);
        RecordApproval(env.id, a, WasCreated);
        approval := Some((env.id, a));
      } else if e.action == Allow {
        if e.approval.Some? {
          var a := Consumption(e.approval.value, env.now);
          RecordApproval(r.approval, a, WasConsumed);
          approval := Some((r.approval, a));
        }
        token := Some(TokenFor(cfg, r, env.later, e.delegation));
      }
      d := Decision(e.action, e.reason, r, false, token, if e.action != Block then approval else None);
      var _ := store.AppendAudit(DecisionEvent(d), Commits);
    }

    /** authorize; None stands for the exception of a failed commit. */
    method AuthorizeRequest(r: Request, env: Reading, fault: Fault) returns (answer: Option<Decision>)
      requires store.depth == 0
      modifies store, store.disk
      ensures var s := Sys(old(store.disk.book), map[], []);
              var next := Next(cfg, s, Transact(0, AuthorizeOp(r, env), fault));
              && store.disk.book == next.disk && store.Cache() == next.caches[0] && store.depth == 0
              && next.log == (if answer.Some? then [Strict(answer.value)] else [])
    {
      var outer := store.Begin();
      var d := Answer(r, env);
      var failed := store.End(outer, false, fault);
      answer := if failed then None else Some(d);
    }

    /** approve and deny; raised stands for ValueError or a failed commit. */
    method SettleApproval(id: string, approver: string, approved: bool, now: int, fault: Fault) returns (raised: bool)
      requires store.depth == 0
      modifies store, store.disk
      ensures var s := Sys(old(store.disk.book), map[], []);
              var next := Next(cfg, s, Transact(0, SettleOp(id, approver, approved, now), fault));
              && store.disk.book == next.disk && store.Cache() == next.caches[0] && store.depth == 0
              && raised == (fault != Commits || Settle(old(store.disk.book), id, approver, approved, now).None?)
    {
      var outer := store.Begin();
      var refused := id !in store.approvals || !Settleable(store.approvals[id], now);
      if !refused {
        var a := store.approvals[id].(status := if approved then Approved else Denied,
                                      decided := Some(now), approver := Some(approver));
        RecordApproval(id, a, if approved then WasApproved else WasDenied);
      }
      raised := store.End(outer, refused, fault);
    }

    /** evaluate reloads and answers; it writes nothing. */
    method EvaluateRequest(r: Request, now: int) returns (d: Decision)
      requires store.depth == 0
      modifies store
      ensures store.Cache() == store.disk.book && store.depth == 0
      ensures d == Evaluate(store.disk.book, r, now)
    {
      store.Load();
      d := Evaluate(store.Cache(), r, now);
    }

    /** decide up to the legacy verdict: the requests it hands to authorize, and for the others
        the verdict on the cache as it stands. */
    method DecideLegacy(r: Request, now: int, later: int) returns (d: Option<Decision>)
      requires store.depth == 0
      modifies store
      ensures var view := if r.approval != "" && r.context.mode == OnBehalf && r.digest == Absent
                          then store.disk.book else old(store.Cache());
              && store.Cache() == view && store.depth == 0
              && d == if IsStrict(view, r) then None else Some(LegacyDecision(cfg, view, r, now, later))
    {
      if r.context.mode == Autonomous || r.digest != Absent { return None; }
      if r.approval != "" {
        store.Load();
        if r.approval in store.approvals && store.approvals[r.approval].Bound() { return None; }
      }
      d := Some(LegacyDecision(cfg, store.Cache(), r, now, later));
    }
  }
}
