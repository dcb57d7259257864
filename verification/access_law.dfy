/** What an answer of the broker requires of the records, said in the fields of the records. */
module AccessLaw {
  import opened Wrappers
  import opened Access

  /** A list names a value, or everything. */
  predicate Names(list: seq<string>, value: string) { "*" in list || value in list }

  predicate IsSha256(d: DigestField) { d.Text? && |d.s| == 64 && forall c | c in d.s :: c in "0123456789abcdef" }

  /** An approver has to agree: a high-risk agent, or one of six actions. */
  predicate NeedsApprover(a: Agent, action: string) {
    a.tier == High ||
    action in ["delete", "deploy", "external_send", "permission_change", "credential_issue", "prod_write"]
  }

  // ---- The strict answer ----

  predicate TenantNamed(c: Context) {
    c.tenant.Some? && exists i | 0 <= i < |c.tenant.value| :: !IsSpace(c.tenant.value[i])
  }

  predicate AgentAdmits(book: Book, c: Context) {
    && c.agent in book.agents
    && var a := book.agents[c.agent];
       a.tenant == c.tenant && a.enabled && Names(a.tools, c.tool) && Names(a.resources, c.resource)
  }

  predicate OnItsOwn(book: Book, c: Context) {
    && c.user == "" && c.delegation == "" && c.task == "" && c.agent in book.agents
    && book.agents[c.agent].autonomous && Names(book.agents[c.agent].actions, c.action)
  }

  predicate OnDelegation(book: Book, c: Context, now: int) {
    && c.user != "" && c.task != "" && c.delegation != "" && c.delegation in book.delegations
    && var d := book.delegations[c.delegation];
       && d.tenant == c.tenant && d.status == Active && now < d.expires
       && d.user == c.user && d.agent == c.agent && d.task == c.task
       && Names(d.resources, c.resource) && Names(d.actions, c.action)
  }

  predicate ScopesAdmit(book: Book, r: Request, now: int) {
    && TenantNamed(r.context) && IsSha256(r.digest) && AgentAdmits(book, r.context)
    && if r.context.mode == Autonomous then OnItsOwn(book, r.context) else OnDelegation(book, r.context, now)
  }

  /** The named approval was made for exactly this request, and can still be used. */
  predicate ApprovalServes(book: Book, r: Request, now: int) {
    && r.approval in book.approvals
    && var a := book.approvals[r.approval];
       && a.context == r.context && a.instance == r.instance
       && a.digest.Some? && r.digest == Text(a.digest.value)
       && a.consumed.None? && a.expires.Some? && now < a.expires.value
  }

  lemma {:induction false} HexDigit(c: char)
    ensures IsHex(c) <==> c in "0123456789abcdef"
  {
    var digits := "0123456789abcdef";
    if '0' <= c <= '9' { assert digits[c as int - '0' as int] == c; }
    if 'a' <= c <= 'f' { assert digits[10 + (c as int - 'a' as int)] == c; }
  }

  lemma {:induction false} SameDigest(d: DigestField)
    ensures IsDigest(d) <==> IsSha256(d)
  {
    if d.Text? && |d.s| == 64 {
      forall i | 0 <= i < 64 ensures IsHex(d.s[i]) <==> d.s[i] in "0123456789abcdef" { HexDigit(d.s[i]); }
      hide IsHex;
      forall i | 0 <= i < 64 ensures d.s[i] in d.s {}
    }
  }

  lemma {:induction false} SameRisk(a: Agent, c: Context)
    ensures RequiresApproval(a, c) <==> NeedsApprover(a, c.action)
  {}

  lemma {:induction false} SameDelegation(book: Book, c: Context, now: int)
    ensures DelegationRefusal(book, c, now).None? <==> OnDelegation(book, c, now)
  {}

  lemma {:induction false} SameScopes(book: Book, r: Request, now: int)
    ensures Refusal(book, r, now).None? <==> ScopesAdmit(book, r, now)
  {
    hide DelegationRefusal, OnDelegation, IsDigest, IsSha256;
    SameDigest(r.digest);
    SameDelegation(book, r.context, now);
  }

  /** When authorize allows, and when it asks for an approval: exactly in these cases.  In all
      others it blocks. */
  lemma {:induction false} AuthorizeIff(cfg: Config, book: Book, r: Request, env: Reading)
    ensures var d := Authorize(cfg, book, r, env).1;
            && (d.action == Allow <==>
                  && ScopesAdmit(book, r, env.now)
                  && if r.approval == "" then !NeedsApprover(book.agents[r.context.agent], r.context.action)
                     else ApprovalServes(book, r, env.now) && book.approvals[r.approval].status == Approved)
            && (d.action == ApprovalRequired <==>
                  && ScopesAdmit(book, r, env.now)
                  && if r.approval == "" then NeedsApprover(book.agents[r.context.agent], r.context.action)
                     else ApprovalServes(book, r, env.now) && book.approvals[r.approval].status == Pending)
            && d.action == Evaluate(book, r, env.now).action
  {
    hide Refusal, ScopesAdmit, RequiresApproval, NeedsApprover;
    SameScopes(book, r, env.now);
    AdmittedAgent(book, r, env.now);
    if r.context.agent in book.agents { SameRisk(book.agents[r.context.agent], r.context); }
  }

  lemma {:induction false} AdmittedAgent(book: Book, r: Request, now: int)
    ensures ScopesAdmit(book, r, now) ==> r.context.agent in book.agents
  {}

  // ---- Why a strict answer refuses ----

  /** The reason of a block is that of the first of these conditions that fails, in this order. */
  ghost predicate FirstFailure(book: Book, r: Request, now: int, why: Reason) {
    var c := r.context;
    if !TenantNamed(c) then why == TenantRequired
    else if !IsSha256(r.digest) then why == DigestRequired
    else if c.agent !in book.agents then why == AgentNotRegistered
    else if book.agents[c.agent].tenant != c.tenant then why == AgentTenantMismatch
    else if !book.agents[c.agent].enabled then why == AgentDisabled
    else if !Names(book.agents[c.agent].tools, c.tool) then why == ToolNotAllowed
    else if !Names(book.agents[c.agent].resources, c.resource) then why == ResourceNotAllowed
    else if c.mode == Autonomous then
      if !(c.user == c.delegation == c.task == "") then why == MixedContext
      else if !book.agents[c.agent].autonomous then why == AutonomousNotAllowed
      else if !Names(book.agents[c.agent].actions, c.action) then why == ActionNotAllowed
      else ApprovalFailure(book, r, now, why)
    else if c.user == "" || c.task == "" || c.delegation == "" then why == DelegationContextRequired
    else if c.delegation !in book.delegations then why == DelegationNotFound
    else DelegationFailure(book, r, book.delegations[c.delegation], now, why)
  }

  ghost predicate DelegationFailure(book: Book, r: Request, d: Delegation, now: int, why: Reason) {
    var c := r.context;
    if d.tenant != c.tenant then why == DelegationTenantMismatch
    else if d.status != Active || d.expires <= now then why == DelegationNotActive
    else if d.user != c.user then why == UserNotDelegator
    else if d.agent != c.agent then why == AgentNotDelegated
    else if d.task != c.task then why == TaskNotDelegated
    else if d.resources != [] && !Names(d.resources, c.resource) then why == ResourceNotDelegated
    else if !Names(d.actions, c.action) && d.actions != [] then why == ActionNotDelegated
    else if d.resources == [] then why == ResourceNotDelegated
    else if d.actions == [] then why == ActionNotDelegated
    else ApprovalFailure(book, r, now, why)
  }

  ghost predicate ApprovalFailure(book: Book, r: Request, now: int, why: Reason) {
    if r.approval !in book.approvals then why == ApprovalNotFound
    else
      var a := book.approvals[r.approval];
      if !(a.context == r.context && a.instance == r.instance && a.digest.Some? && r.digest == Text(a.digest.value))
      then why == ApprovalContextMismatch
      else if a.consumed.Some? then why == ApprovalConsumed
      else if a.expires.None? || a.expires.value <= now then why == ApprovalExpired
      else a.status == Denied && why == ApprovalDenied
  }

  lemma {:induction false} DelegationReason(book: Book, r: Request, now: int)
    requires r.context.delegation in book.delegations
    requires r.context.user != "" && r.context.task != "" && r.context.delegation != ""
    ensures var why := DelegationRefusal(book, r.context, now);
            why.Some? ==> DelegationFailure(book, r, book.delegations[r.context.delegation], now, why.value)
    ensures DelegationRefusal(book, r.context, now).None? ==>
              forall why :: DelegationFailure(book, r, book.delegations[r.context.delegation], now, why) <==>
                            ApprovalFailure(book, r, now, why)
  {
    hide ApprovalFailure;
  }

  lemma {:induction false} ApprovalReason(book: Book, r: Request, now: int)
    ensures ApprovalVerdict(book, r, now).0 == Block ==> ApprovalFailure(book, r, now, ApprovalVerdict(book, r, now).1)
  {}

  lemma {:induction false} RefusalReason(book: Book, r: Request, now: int)
    ensures Refusal(book, r, now).Some? ==> FirstFailure(book, r, now, Refusal(book, r, now).value)
    ensures Refusal(book, r, now).None? ==>
              forall why :: FirstFailure(book, r, now, why) <==> ApprovalFailure(book, r, now, why)
  {
    hide ApprovalFailure, IsDigest, IsSha256, DelegationRefusal, DelegationFailure;
    SameDigest(r.digest);
    var c := r.context;
    if c.delegation in book.delegations && c.user != "" && c.task != "" && c.delegation != "" {
      DelegationReason(book, r, now);
    }
    ContextReason(book, c, now);
  }

  lemma {:induction false} ContextReason(book: Book, c: Context, now: int)
    ensures c.user == "" || c.task == "" || c.delegation == "" ==>
              DelegationRefusal(book, c, now) == Some(DelegationContextRequired)
    ensures c.user != "" && c.task != "" && c.delegation != "" && c.delegation !in book.delegations ==>
              DelegationRefusal(book, c, now) == Some(DelegationNotFound)
  {}

  /** The reason codes of strict answers. */
  lemma {:induction false} AuthorizeReason(cfg: Config, book: Book, r: Request, env: Reading)
    ensures var d := Authorize(cfg, book, r, env).1;
            match d.action
            case Block => FirstFailure(book, r, env.now, d.reason)
            case ApprovalRequired => d.reason == NeedsApproval
            case Allow => d.reason == if r.approval != "" then ApprovedHighRisk
                                      else if r.context.mode == Autonomous then AgentAllowed else DelegationAllowed
  {
    hide Refusal, FirstFailure, ApprovalFailure, RequiresApproval;
    RefusalReason(book, r, env.now);
    ApprovalReason(book, r, env.now);
  }

  // ---- The legacy answer ----

  /** Empty lists admit everything, the tenant and the action list of the agent are not looked at. */
  predicate LegacyScopesAdmit(book: Book, c: Context, now: int) {
    && c.agent in book.agents && c.delegation in book.delegations
    && var a, d := book.agents[c.agent], book.delegations[c.delegation];
       && a.enabled && (a.tools == [] || Names(a.tools, c.tool))
       && (a.resources == [] || Names(a.resources, c.resource))
       && d.status == Active && now < d.expires && d.user == c.user && d.agent == c.agent && d.task == c.task
       && (d.resources == [] || Names(d.resources, c.resource)) && (d.actions == [] || Names(d.actions, c.action))
  }

  /** Neither expiry nor consumption counts here. */
  predicate LegacyApproved(book: Book, r: Request) {
    && r.approval != "" && r.approval in book.approvals
    && var a := book.approvals[r.approval];
       && a.status == Approved && a.context == r.context
       && (a.digest.Some? ==> r.digest == Text(a.digest.value) && a.instance == r.instance)
  }

  lemma {:induction false} LegacyIff(cfg: Config, book: Book, r: Request, now: int, later: int)
    ensures var d, c := LegacyDecision(cfg, book, r, now, later), r.context;
            && (d.action == Allow <==>
                  LegacyScopesAdmit(book, c, now) &&
                  (NeedsApprover(book.agents[c.agent], c.action) ==> LegacyApproved(book, r)))
            && (d.action == ApprovalRequired <==>
                  LegacyScopesAdmit(book, c, now) && NeedsApprover(book.agents[c.agent], c.action) &&
                  !LegacyApproved(book, r))
            && (d.token.Some? <==> d.action == Allow)
  {
    hide RequiresApproval, NeedsApprover, LegacyRefusal, LegacyScopesAdmit;
    SameLegacyScopes(book, r.context, now);
    if r.context.agent in book.agents { SameRisk(book.agents[r.context.agent], r.context); }
  }

  lemma {:induction false} SameLegacyScopes(book: Book, c: Context, now: int)
    ensures LegacyRefusal(book, c, now).None? <==> LegacyScopesAdmit(book, c, now)
    ensures LegacyScopesAdmit(book, c, now) ==> c.agent in book.agents
  {}
}
