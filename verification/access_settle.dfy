/** Approving and denying, over every run: who decided on an approval that was spent. */
module AccessSettle {
  import opened Sequences
  import opened Wrappers
  import opened Access
  import opened AccessRuns

  /** approve and deny, in the fields of the record: they return exactly when the approval exists and,
      if it is bound, is pending, not consumed and not expired; then the record has the new status,
      and nothing else about it or about any other record changes. */
  lemma {:induction false} SettleIff(book: Book, id: string, approver: string, approved: bool, now: int)
    ensures var after := Settle(book, id, approver, approved, now);
            && (after.Some? <==>
                  && id in book.approvals
                  && var a := book.approvals[id];
                     (a.digest.Some? ==>
                        && a.status == Pending && a.consumed.None?
                        && a.expires.Some? && now < a.expires.value))
            && (after.Some? ==>
                  && id in after.value.approvals
                  && after.value.approvals[id] ==
                     book.approvals[id].(status := if approved then Approved else Denied, decided := Some(now),
                                         approver := Some(approver))
                  && (forall other | other != id ::
                        (other in after.value.approvals <==> other in book.approvals) &&
                        (other in book.approvals ==> after.value.approvals[other] == book.approvals[other]))
                  && after.value.agents == book.agents && after.value.delegations == book.delegations
                  && after.value.audit ==
                     book.audit + [ApprovalEvent(if approved then WasApproved else WasDenied, id,
                                                 after.value.approvals[id])])
  {}

  // ---- Runs ----

  predicate IsSettle(step: Step, id: string, approved: bool) {
    step.Transact? && step.op.SettleOp? && step.op.id == id && step.op.approved == approved
  }

  /** Step i of the run is an approve (or a deny) of this approval that took effect: it did not raise,
      and it got as far as the rename. */
  ghost predicate Settled(cfg: Config, steps: seq<Step>, i: nat, id: string, approved: bool) {
    && i < |steps| && IsSettle(steps[i], id, approved) && steps[i].fault != FailsBefore
    && Run(cfg, steps[..i]).Some?
    && var book := Run(cfg, steps[..i]).value.disk;
       Settle(book, id, steps[i].op.approver, approved, steps[i].op.now).Some?
  }

  lemma {:induction false} SettledEarlier(cfg: Config, steps: seq<Step>, i: nat, id: string, approved: bool)
    requires steps != [] && Settled(cfg, steps[..|steps| - 1], i, id, approved)
    ensures Settled(cfg, steps, i, id, approved)
  {
    assert steps[..|steps| - 1][..i] == steps[..i];
  }

  /** What one step can do to the status of a bound approval. */
  lemma {:induction false} StatusMoves(cfg: Config, s: Sys, step: Step, id: string)
    requires Enabled(s, step)
    requires var after := Next(cfg, s, step).disk; id in after.approvals && after.approvals[id].Bound()
    ensures var after := Next(cfg, s, step).disk.approvals[id];
            || (id in s.disk.approvals && s.disk.approvals[id].Bound() && after.status == s.disk.approvals[id].status)
            || (id !in s.disk.approvals && after.status == Pending)
            || (id in s.disk.approvals && IsSettle(step, id, after.status == Approved) && after.status != Pending &&
                step.fault != FailsBefore &&
                Settle(s.disk, id, step.op.approver, after.status == Approved, step.op.now).Some?)
  {
    hide Evaluate, LegacyDecision;
    if step.Transact? && step.op.AuthorizeOp? {
      AuthorizeKeepsStatus(cfg, s.disk, step.op.request, step.op.env, id);
    }
  }

  lemma {:induction false} AuthorizeKeepsStatus(cfg: Config, b: Book, r: Request, env: Reading, id: string)
    requires env.id !in b.approvals
    ensures var after := Authorize(cfg, b, r, env).0;
            id in after.approvals ==>
              if id in b.approvals
              then after.approvals[id].status == b.approvals[id].status
                  && after.approvals[id].digest == b.approvals[id].digest
              else after.approvals[id].status == Pending
  {
    hide Refusal, RequiresApproval;
  }

  /** A bound approval has the status that the last effective approve or deny gave it. */
  lemma {:induction false} StatusHasAuthor(cfg: Config, steps: seq<Step>, id: string)
    returns (i: nat)
    requires Run(cfg, steps).Some? && id in Run(cfg, steps).value.disk.approvals
    requires Run(cfg, steps).value.disk.approvals[id].Bound()
    ensures var status := Run(cfg, steps).value.disk.approvals[id].status;
            status != Pending ==> Settled(cfg, steps, i, id, status == Approved)
  {
    hide Next, Enabled;
    i := 0;
    if steps != [] {
      var before, last := steps[..|steps| - 1], steps[|steps| - 1];
      var s := Run(cfg, before).value;
      StatusMoves(cfg, s, last, id);
      if id in s.disk.approvals && s.disk.approvals[id].Bound() &&
         s.disk.approvals[id].status == Run(cfg, steps).value.disk.approvals[id].status
      {
        i := StatusHasAuthor(cfg, before, id);
        if s.disk.approvals[id].status != Pending {
          SettledEarlier(cfg, steps, i, id, s.disk.approvals[id].status == Approved);
        }
      } else {
        i := |steps| - 1;
      }
    }
  }

  lemma {:induction false} RunPrefix(cfg: Config, steps: seq<Step>, n: nat)
    requires n <= |steps| && Run(cfg, steps).Some?
    ensures Run(cfg, steps[..n]).Some?
    decreases |steps|
  {
    hide Next, Enabled;
    if n == |steps| {
      assert steps[..n] == steps;
    } else {
      assert steps[..|steps| - 1][..n] == steps[..n];
      RunPrefix(cfg, steps[..|steps| - 1], n);
    }
  }

  /** A bound approval was bound ever since it was there. */
  lemma {:induction false} BoundBefore(cfg: Config, steps: seq<Step>, n: nat, id: string)
    requires n <= |steps| && Run(cfg, steps).Some? && Run(cfg, steps[..n]).Some?
    requires id in Run(cfg, steps[..n]).value.disk.approvals
    ensures id in Run(cfg, steps).value.disk.approvals
    ensures Run(cfg, steps).value.disk.approvals[id].Bound() <==> Run(cfg, steps[..n]).value.disk.approvals[id].Bound()
  {
    hide Run;
    assert steps == steps[..n] + steps[n..];
    RunEvolves(cfg, steps[..n], steps[n..], id);
  }

  lemma {:induction false} AfterSettled(cfg: Config, steps: seq<Step>, i: nat, id: string, approved: bool)
    requires Run(cfg, steps).Some? && Settled(cfg, steps, i, id, approved)
    ensures Run(cfg, steps[..i + 1]).Some? && id in Run(cfg, steps[..i + 1]).value.disk.approvals
    ensures Run(cfg, steps[..i + 1]).value.disk.approvals[id].status == if approved then Approved else Denied
  {
    RunPrefix(cfg, steps, i + 1);
    assert steps[..i + 1] == steps[..i] + [steps[i]];
    RunGrows(cfg, steps[..i], steps[i]);
  }

  // ---- Main results ----

  /** Denied means never spent: from an effective deny of a bound approval on, no state of the run
      shows an answer that let a request through on it, and the record stays denied. */
  lemma {:induction false} DeniedIsNeverSpent(cfg: Config, steps: seq<Step>, i: nat, id: string)
    requires Run(cfg, steps).Some? && Settled(cfg, steps, i, id, false)
    requires id in Run(cfg, steps).value.disk.approvals && Run(cfg, steps).value.disk.approvals[id].Bound()
    ensures Spent(Run(cfg, steps).value.log, id) == 0
    ensures Run(cfg, steps).value.disk.approvals[id].status == Denied
  {
    hide Run, Settled;
    AfterSettled(cfg, steps, i, id, false);
    Within(cfg, steps, i, id, false);
    BoundBefore(cfg, steps, i + 1, id);
    assert steps == steps[..i + 1] + steps[i + 1..];
    DecidedIsFinal(cfg, steps[..i + 1], steps[i + 1..], id);
  }

  lemma {:induction false} Within(cfg: Config, steps: seq<Step>, i: nat, id: string, approved: bool)
    requires Settled(cfg, steps, i, id, approved)
    ensures i < |steps|
  {}

  /** Spent means approved: when a request was let through on a bound approval, an approve of it took
      effect earlier in the run, and no deny of it ever did. */
  lemma {:induction false} SpentWasApproved(cfg: Config, steps: seq<Step>, id: string)
    requires Run(cfg, steps).Some? && Spent(Run(cfg, steps).value.log, id) > 0
    requires id in Run(cfg, steps).value.disk.approvals && Run(cfg, steps).value.disk.approvals[id].Bound()
    ensures exists i :: Settled(cfg, steps, i, id, true)
    ensures forall i :: !Settled(cfg, steps, i, id, false)
  {
    hide Run, Settled;
    RunKeepsInv(cfg, steps, id);
    OneTimeUse(cfg, steps, id);
    assert Run(cfg, steps).value.disk.approvals[id].status == Approved;
    var i := StatusHasAuthor(cfg, steps, id);
    forall j: nat ensures !Settled(cfg, steps, j, id, false) {
      if Settled(cfg, steps, j, id, false) { DeniedIsNeverSpent(cfg, steps, j, id); }
    }
  }
}
