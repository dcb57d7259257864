/** The Agent Access Broker: its records, the strict verdict, and what one authorization does
    to the book of records.  Times are seconds of an aware clock. */
module Access {
  import opened Wrappers

  datatype Mode = OnBehalf | Autonomous      // "delegated" and "agent"
  datatype Tier = Low | Medium | High
  datatype Status = Pending | Approved | Denied
  datatype DelegationStatus = Active | Revoked | Lapsed
  datatype Action = Allow | Block | ApprovalRequired

  datatype Reason =
    | TenantRequired | DigestRequired | AgentNotRegistered | AgentTenantMismatch | AgentDisabled
    | ToolNotAllowed | ResourceNotAllowed | MixedContext | AutonomousNotAllowed | ActionNotAllowed
    | DelegationContextRequired | DelegationNotFound | DelegationTenantMismatch | DelegationNotActive
    | UserNotDelegator | AgentNotDelegated | TaskNotDelegated | ResourceNotDelegated | ActionNotDelegated
    | ApprovalNotFound | ApprovalContextMismatch | ApprovalConsumed | ApprovalExpired | ApprovalDenied
    | NeedsApproval | ApprovedHighRisk | AgentAllowed | DelegationAllowed

  datatype Agent = Agent(tenant: Option<string>, enabled: bool, tier: Tier, autonomous: bool,
                         tools: seq<string>, resources: seq<string>, actions: seq<string>)

  datatype Delegation = Delegation(tenant: Option<string>, user: string, agent: string, task: string,
                                   resources: seq<string>, actions: seq<string>,
                                   status: DelegationStatus, expires: int)

  /** The fields a request and an approval have in common.  Absent identifiers are empty. */
  datatype Context = Context(mode: Mode, tenant: Option<string>, user: string, agent: string,
                             delegation: string, task: string, tool: string, resource: string, action: string)

  /** metadata["request_digest"], which a caller may leave out or fill with anything. */
  datatype DigestField = Absent | NotText | Text(s: string)

  datatype Request = Request(context: Context, instance: Option<string>, approval: string, digest: DigestField)

  datatype Approval = Approval(context: Context, instance: Option<string>, digest: Option<string>,
                               status: Status, expires: Option<int>, consumed: Option<int>,
                               decided: Option<int>, approver: Option<string>)
  {
    predicate Matches(r: Request) {
      && context == r.context
      && (digest.None? || (r.digest == Text(digest.value) && instance == r.instance))
    }

    predicate Bound() { digest.Some? }
  }

  datatype Token = Token(expires: int, tenant: Option<string>, digest: DigestField, resource: string, action: string)

  datatype Decision = Decision(action: Action, reason: Reason, request: Request, evaluationOnly: bool,
                               token: Option<Token>, approval: Option<(string, Approval)>)

  datatype Kind = WasCreated | WasApproved | WasDenied | WasConsumed

  datatype Audit =
    | AgentEvent(id: string, agent: Agent)
    | DelegationEvent(id: string, delegation: Delegation)
    | ApprovalEvent(kind: Kind, id: string, approval: Approval)
    | DecisionEvent(decision: Decision)

  /** What the store holds, in memory or on disk. */
  datatype Book = Book(agents: map<string, Agent>, delegations: map<string, Delegation>,
                       approvals: map<string, Approval>, audit: seq<Audit>)
  {
    function WithApproval(id: string, a: Approval, kind: Kind): Book {
      this.(approvals := approvals[id := a], audit := audit + [ApprovalEvent(kind, id, a)])
    }

    function WithAudit(e: Audit): Book { this.(audit := audit + [e]) }
  }

  const EMPTY := Book(map[], map[], map[], [])

  const HIGH_RISK_ACTIONS: set<string> :=
    {"delete", "deploy", "external_send", "permission_change", "credential_issue", "prod_write"}

  // ---- The strict verdict ----

  predicate Matches(value: string, patterns: seq<string>) { "*" in patterns || value in patterns }

  predicate IsFuture(time: Option<int>, now: int) { time.Some? && time.value > now }

  predicate IsSpace(c: char) {
    || '\t' <= c <= '\r' || '\U{1C}' <= c <= ' ' || c == '\U{85}' || c == '\U{A0}' || c == '\U{1680}'
    || '\U{2000}' <= c <= '\U{200A}' || c == '\U{2028}' || c == '\U{2029}' || c == '\U{202F}'
    || c == '\U{205F}' || c == '\U{3000}'
  }

  predicate IsBlank(s: string) { forall i | 0 <= i < |s| :: IsSpace(s[i]) }

  predicate IsHex(c: char) { '0' <= c <= '9' || 'a' <= c <= 'f' }

  predicate IsDigest(d: DigestField) { d.Text? && |d.s| == 64 && forall i | 0 <= i < 64 :: IsHex(d.s[i]) }

  function DelegationMismatch(c: Context, d: Delegation): Option<Reason> {
    if d.user != c.user then Some(UserNotDelegator)
    else if d.agent != c.agent then Some(AgentNotDelegated)
    else if d.task != c.task then Some(TaskNotDelegated)
    else if d.resources != [] && !Matches(c.resource, d.resources) then Some(ResourceNotDelegated)
    else if d.actions != [] && !Matches(c.action, d.actions) then Some(ActionNotDelegated)
    else None
  }

  function AgentRefusal(book: Book, c: Context): Option<Reason> {
    if c.agent !in book.agents then Some(AgentNotRegistered)
    else
      var agent := book.agents[c.agent];
      if agent.tenant != c.tenant then Some(AgentTenantMismatch)
      else if !agent.enabled then Some(AgentDisabled)
      else if !Matches(c.tool, agent.tools) then Some(ToolNotAllowed)
      else if !Matches(c.resource, agent.resources) then Some(ResourceNotAllowed)
      else None
  }

  function AutonomousRefusal(c: Context, agent: Agent): Option<Reason> {
    if c.user != "" || c.delegation != "" || c.task != "" then Some(MixedContext)
    else if !agent.autonomous then Some(AutonomousNotAllowed)
    else if !Matches(c.action, agent.actions) then Some(ActionNotAllowed)
    else None
  }

  function DelegationRefusal(book: Book, c: Context, now: int): Option<Reason> {
    if c.user == "" || c.task == "" || c.delegation == "" then Some(DelegationContextRequired)
    else if c.delegation !in book.delegations then Some(DelegationNotFound)
    else
      var d := book.delegations[c.delegation];
      if d.tenant != c.tenant then Some(DelegationTenantMismatch)
      else if d.status != Active || !IsFuture(Some(d.expires), now) then Some(DelegationNotActive)
      else if DelegationMismatch(c, d).Some? then DelegationMismatch(c, d)
      else if !Matches(c.resource, d.resources) then Some(ResourceNotDelegated)
      else if !Matches(c.action, d.actions) then Some(ActionNotDelegated)
      else None
  }

  /** Why the scopes refuse a request, before any approval is looked at. */
  function Refusal(book: Book, r: Request, now: int): (why: Option<Reason>)
    ensures why.None? ==> r.context.agent in book.agents && IsDigest(r.digest)
    ensures why.None? && r.context.mode == OnBehalf ==> r.context.delegation in book.delegations
  {
    var c := r.context;
    if c.tenant.None? || IsBlank(c.tenant.value) then Some(TenantRequired)
    else if !IsDigest(r.digest) then Some(DigestRequired)
    else if AgentRefusal(book, c).Some? then AgentRefusal(book, c)
    else if c.mode == Autonomous then AutonomousRefusal(c, book.agents[c.agent])
    else DelegationRefusal(book, c, now)
  }

  predicate RequiresApproval(agent: Agent, c: Context) { agent.tier == High || c.action in HIGH_RISK_ACTIONS }

  datatype Evaluation = Evaluation(action: Action, reason: Reason, delegation: Option<Delegation>,
                                   approval: Option<Approval>)

  /** The verdict on a request that names an approval, once the scopes admit it. */
  function ApprovalVerdict(book: Book, r: Request, now: int): (Action, Reason) {
    if r.approval !in book.approvals then (Block, ApprovalNotFound)
    else
      var a := book.approvals[r.approval];
      if a.digest.None? || !a.Matches(r) then (Block, ApprovalContextMismatch)
      else if a.consumed.Some? then (Block, ApprovalConsumed)
      else if !IsFuture(a.expires, now) then (Block, ApprovalExpired)
      else if a.status == Denied then (Block, ApprovalDenied)
      else if a.status == Pending then (ApprovalRequired, NeedsApproval)
      else (Allow, ApprovedHighRisk)
  }

  function EvaluateStrict(book: Book, r: Request, now: int): (e: Evaluation)
    ensures e.approval.Some? ==> r.approval in book.approvals && e.approval == Some(book.approvals[r.approval])
  {
    var c, why := r.context, Refusal(book, r, now);
    if why.Some? then Evaluation(Block, why.value, None, None)
    else
      var delegation := if c.mode == Autonomous then None else Some(book.delegations[c.delegation]);
      if r.approval != "" then
        var (action, reason) := ApprovalVerdict(book, r, now);
        if action == Block then Evaluation(Block, reason, None, None)
        else if r.approval in book.approvals then
          Evaluation(action, reason, delegation, Some(book.approvals[r.approval]))
        else assert false; Evaluation(Block, reason, None, None)
      else if RequiresApproval(book.agents[c.agent], c) then
        Evaluation(ApprovalRequired, NeedsApproval, delegation, None)
      else Evaluation(Allow, if c.mode == Autonomous then AgentAllowed else DelegationAllowed, delegation, None)
  }

  // ---- One authorization ----

  /** What the broker reads from its surroundings: the clock, again for the token, and a new id. */
  datatype Reading = Reading(now: int, later: int, id: string)

  datatype Config = Config(tokenTtl: int, approvalTtl: int)

  function Min(a: int, b: int): int { if a <= b then a else b }

  function Expiry(from: int, ttl: int, delegation: Option<Delegation>): int {
    if delegation.Some? then Min(from + ttl, delegation.value.expires) else from + ttl
  }

  function NewApproval(cfg: Config, r: Request, env: Reading, delegation: Option<Delegation>): Approval
    requires r.digest.Text?
  {
    Approval(r.context, r.instance, Some(r.digest.s), Pending,
             Some(Expiry(env.now, cfg.approvalTtl, delegation)), None, None, None)
  }

  function TokenFor(cfg: Config, r: Request, later: int, delegation: Option<Delegation>): Token {
    Token(Expiry(later, cfg.tokenTtl, delegation), r.context.tenant, r.digest, r.context.resource, r.context.action)
  }

  function Consumption(a: Approval, now: int): Approval { a.(consumed := Some(now)) }

  /** The answer of authorize and the book its transaction commits. */
  function Authorize(cfg: Config, book: Book, r: Request, env: Reading): (Book, Decision) {
    var e := EvaluateStrict(book, r, env.now);
    match e.action
    case Block =>
      var d := Decision(Block, e.reason, r, false, None, None);
      (book.WithAudit(DecisionEvent(d)), d)
    case ApprovalRequired =>
      if e.approval.Some? then
        var d := Decision(ApprovalRequired, e.reason, r, false, None, Some((r.approval, e.approval.value)));
        (book.WithAudit(DecisionEvent(d)), d)
      else if r.digest.Text? then
        var a := NewApproval(cfg, r, env, e.delegation);
        var d := Decision(ApprovalRequired, e.reason, r, false, None, Some((env.id, a)));
        (book.WithApproval(env.id, a, WasCreated).WithAudit(DecisionEvent(d)), d)
      else assert false; (book, Decision(Block, e.reason, r, false, None, None))
    case Allow =>
      var token := Some(TokenFor(cfg, r, env.later, e.delegation));
      if e.approval.Some? then
        var a := Consumption(e.approval.value, env.now);
        var d := Decision(Allow, e.reason, r, false, token, Some((r.approval, a)));
        (book.WithApproval(r.approval, a, WasConsumed).WithAudit(DecisionEvent(d)), d)
      else
        var d := Decision(Allow, e.reason, r, false, token, None);
        (book.WithAudit(DecisionEvent(d)), d)
  }

  /** evaluate: the same verdict, nothing written, no token. */
  function Evaluate(book: Book, r: Request, now: int): Decision {
    var e := EvaluateStrict(book, r, now);
    Decision(e.action, e.reason, r, true, None, None)
  }

  predicate Settleable(a: Approval, now: int) {
    a.Bound() ==> a.consumed.None? && a.status == Pending && IsFuture(a.expires, now)
  }

  /** approve and deny; None stands for ValueError. */
  function Settle(book: Book, id: string, approver: string, approved: bool, now: int): Option<Book> {
    if id !in book.approvals || !Settleable(book.approvals[id], now) then None
    else
      var a := book.approvals[id].(status := if approved then Approved else Denied,
                                   decided := Some(now), approver := Some(approver));
      Some(book.WithApproval(id, a, if approved then WasApproved else WasDenied))
  }

  // ---- The legacy verdict ----

  predicate Admits(value: string, patterns: seq<string>) { patterns == [] || Matches(value, patterns) }

  /** Does decide hand this request to authorize? */
  predicate IsStrict(book: Book, r: Request) {
    || r.context.mode == Autonomous
    || r.digest != Absent
    || (r.approval != "" && r.approval in book.approvals && book.approvals[r.approval].Bound())
  }

  function ApprovedRecord(book: Book, r: Request): Option<Approval> {
    if r.approval == "" || r.approval !in book.approvals then None
    else
      var a := book.approvals[r.approval];
      if a.status != Approved || !a.Matches(r) then None else Some(a)
  }

  function LegacyRefusal(book: Book, c: Context, now: int): (why: Option<Reason>)
    ensures why.None? ==> c.agent in book.agents && c.delegation in book.delegations
  {
    if c.agent !in book.agents then Some(AgentNotRegistered)
    else
      var agent := book.agents[c.agent];
      if !agent.enabled then Some(AgentDisabled)
      else if !Admits(c.tool, agent.tools) then Some(ToolNotAllowed)
      else if !Admits(c.resource, agent.resources) then Some(ResourceNotAllowed)
      else if c.delegation !in book.delegations then Some(DelegationNotFound)
      else
        var d := book.delegations[c.delegation];
        if d.status != Active || d.expires <= now then Some(DelegationNotActive) else DelegationMismatch(c, d)
  }

  function LegacyDecision(cfg: Config, book: Book, r: Request, now: int, later: int): Decision {
    var c := r.context;
    var why := LegacyRefusal(book, c, now);
    if why.Some? then Decision(Block, why.value, r, false, None, None)
    else
      var token := Some(TokenFor(cfg, r, later, Some(book.delegations[c.delegation])));
      if RequiresApproval(book.agents[c.agent], c) then
        match ApprovedRecord(book, r)
        case None => Decision(ApprovalRequired, NeedsApproval, r, false, None, None)
        case Some(a) => Decision(Allow, ApprovedHighRisk, r, false, token, Some((r.approval, a)))
      else Decision(Allow, DelegationAllowed, r, false, token, None)
  }

  /** The legacy path never spends a digest-bound approval: a request that reaches it carries no
      digest, and a bound approval matches no such request. */
  lemma {:induction false} LegacyNeverSpendsBound(cfg: Config, book: Book, r: Request, now: int, later: int)
    requires r.digest == Absent
    ensures var d := LegacyDecision(cfg, book, r, now, later);
            d.approval.Some? ==>
              && r.approval in book.approvals && d.approval == Some((r.approval, book.approvals[r.approval]))
              && !d.approval.value.1.Bound()
    ensures forall a: Approval | a.Bound() :: !a.Matches(r)
    ensures EvaluateStrict(book, r, now).action == Block
  {
    assert Refusal(book, r, now).Some?;
  }

  // ---- Privilege monotonicity ----

  /** Every pattern of the smaller list is in the larger, or the larger admits everything. */
  predicate Narrower(small: seq<string>, large: seq<string>) { "*" in large || forall x | x in small :: x in large }

  predicate WeakerAgent(a: Agent, b: Agent) {
    && a.tenant == b.tenant && (a.enabled ==> b.enabled) && (a.autonomous ==> b.autonomous)
    && (b.tier == High ==> a.tier == High)
    && Narrower(a.tools, b.tools) && Narrower(a.resources, b.resources) && Narrower(a.actions, b.actions)
  }

  predicate WeakerDelegation(a: Delegation, b: Delegation) {
    && a.tenant == b.tenant && a.user == b.user && a.agent == b.agent && a.task == b.task
    && (a.status == Active ==> b.status == Active) && a.expires <= b.expires
    && Narrower(a.resources, b.resources) && Narrower(a.actions, b.actions)
  }

  predicate WeakerApproval(a: Approval, b: Approval) {
    && a.context == b.context && a.instance == b.instance && a.digest == b.digest
    && (a.status == Approved ==> b.status == Approved)
    && (b.consumed.Some? ==> a.consumed.Some?)
    && (a.expires.Some? ==> b.expires.Some? && a.expires.value <= b.expires.value)
  }

  /** Agents disabled or made riskier, scope lists shrunk, expiries shortened, records removed. */
  predicate Weaker(small: Book, large: Book) {
    && (forall id | id in small.agents :: id in large.agents && WeakerAgent(small.agents[id], large.agents[id]))
    && (forall id | id in small.delegations ::
          id in large.delegations && WeakerDelegation(small.delegations[id], large.delegations[id]))
    && (forall id | id in small.approvals ::
          id in large.approvals && WeakerApproval(small.approvals[id], large.approvals[id]))
  }

  lemma {:induction false} NarrowerMatches(v: string, small: seq<string>, large: seq<string>)
    requires Narrower(small, large) && Matches(v, small)
    ensures Matches(v, large)
  {}

  lemma {:induction false} WeakerRefusal(small: Book, large: Book, r: Request, now: int)
    requires Weaker(small, large) && Refusal(small, r, now).None?
    ensures Refusal(large, r, now).None?
    ensures WeakerAgent(small.agents[r.context.agent], large.agents[r.context.agent])
  {
    var c := r.context;
    var a, b := small.agents[c.agent], large.agents[c.agent];
    assert WeakerAgent(a, b);
    NarrowerMatches(c.tool, a.tools, b.tools);
    NarrowerMatches(c.resource, a.resources, b.resources);
    assert AgentRefusal(large, c).None?;
    if c.mode == Autonomous {
      NarrowerMatches(c.action, a.actions, b.actions);
    } else {
      WeakerDelegationRefusal(small, large, c, now);
    }
  }

  lemma {:induction false} WeakerDelegationRefusal(small: Book, large: Book, c: Context, now: int)
    requires Weaker(small, large) && DelegationRefusal(small, c, now).None?
    ensures DelegationRefusal(large, c, now).None?
  {
    var a, b := small.delegations[c.delegation], large.delegations[c.delegation];
    assert WeakerDelegation(a, b);
    NarrowerMatches(c.resource, a.resources, b.resources);
    NarrowerMatches(c.action, a.actions, b.actions);
  }

  /** Taking privilege away never turns a refusal, or a call for approval, into an allow: for
      every request and time, what the weaker book allows the stronger one allows too. */
  lemma {:induction false} StrictIsMonotone(small: Book, large: Book, r: Request, now: int)
    requires Weaker(small, large)
    ensures EvaluateStrict(small, r, now).action == Allow ==> EvaluateStrict(large, r, now).action == Allow
  {
    if EvaluateStrict(small, r, now).action == Allow {
      WeakerRefusal(small, large, r, now);
      if r.approval != "" {
        assert WeakerApproval(small.approvals[r.approval], large.approvals[r.approval]);
      }
    }
  }

  /** The legacy lists mean "anything" when empty, so shrinking one keeps refusals exactly when
      it is not emptied, was empty already, or admitted everything. */
  predicate KeepsRefusals(small: seq<string>, large: seq<string>) { small != [] || large == [] || "*" in large }

  lemma {:induction false} LegacyShrinkKeepsRefusalsIff(small: seq<string>, large: seq<string>)
    requires forall x | x in small :: x in large
    ensures (forall v :: Admits(v, small) ==> Admits(v, large)) <==> KeepsRefusals(small, large)
  {
    if !KeepsRefusals(small, large) {
      var v := Other(large);
      assert Admits(v, small) && !Admits(v, large);
    }
  }

  /** A string that is in none of the given ones: longer than each of them. */
  function Other(patterns: seq<string>): (v: string)
    ensures forall p | p in patterns :: |v| > |p|
  {
    if patterns == [] then ""
    else
      var rest := Other(patterns[1..]);
      rest + patterns[0] + "x"
  }

  /** Emptying an agent's tool list turns a legacy block into an allow. */
  lemma {:induction false} LegacyIsNotMonotone(cfg: Config) returns (small: Book, large: Book, r: Request)
    ensures Weaker(small, large)
    ensures LegacyDecision(cfg, small, r, 0, 0).action == Allow && LegacyDecision(cfg, large, r, 0, 0).action == Block
  {
    var strong := Agent(None, true, Low, false, ["read"], [], []);
    var d := Delegation(None, "u", "a", "t", [], [], Active, 1);
    large := Book(map["a" := strong], map["d" := d], map[], []);
    small := Book(map["a" := strong.(tools := [])], map["d" := d], map[], []);
    r := Request(Context(OnBehalf, None, "u", "a", "d", "t", "write", "x", "edit"), None, "", Absent);
    assert |"write"| == 5 && |"edit"| == 4 && "edit"[0] == 'e' && "delete"[1] == 'e';
    assert "edit" !in HIGH_RISK_ACTIONS;
    assert !Matches("write", ["read"]);
  }

  predicate AgentKeepsRefusals(a: Agent, b: Agent) {
    KeepsRefusals(a.tools, b.tools) && KeepsRefusals(a.resources, b.resources)
  }

  predicate DelegationKeepsRefusals(a: Delegation, b: Delegation) {
    KeepsRefusals(a.resources, b.resources) && KeepsRefusals(a.actions, b.actions)
  }

  /** No list that decide looks at was emptied. */
  predicate NothingEmptied(small: Book, large: Book) {
    && (forall id | id in small.agents && id in large.agents ::
          AgentKeepsRefusals(small.agents[id], large.agents[id]))
    && (forall id | id in small.delegations && id in large.delegations ::
          DelegationKeepsRefusals(small.delegations[id], large.delegations[id]))
  }

  lemma {:induction false} NarrowerAdmits(v: string, small: seq<string>, large: seq<string>)
    requires Narrower(small, large) && KeepsRefusals(small, large) && Admits(v, small)
    ensures Admits(v, large)
  {}

  lemma {:induction false} WeakerLegacyRefusal(small: Book, large: Book, c: Context, now: int)
    requires Weaker(small, large) && NothingEmptied(small, large) && LegacyRefusal(small, c, now).None?
    ensures LegacyRefusal(large, c, now).None?
    ensures WeakerAgent(small.agents[c.agent], large.agents[c.agent])
  {
    var a, b := small.agents[c.agent], large.agents[c.agent];
    assert WeakerAgent(a, b) && AgentKeepsRefusals(a, b);
    NarrowerAdmits(c.tool, a.tools, b.tools);
    NarrowerAdmits(c.resource, a.resources, b.resources);
    var d, e := small.delegations[c.delegation], large.delegations[c.delegation];
    assert WeakerDelegation(d, e) && DelegationKeepsRefusals(d, e);
    NarrowerAdmits(c.resource, d.resources, e.resources);
    NarrowerAdmits(c.action, d.actions, e.actions);
  }

  /** Does decide allow on the weaker book what it does not allow on the stronger one? */
  predicate Escalates(cfg: Config, small: Book, large: Book, r: Request, now: int, later: int) {
    && LegacyDecision(cfg, small, r, now, later).action == Allow
    && LegacyDecision(cfg, large, r, now, later).action != Allow
  }

  /** As long as no list is emptied, taking privilege away gives nobody a new legacy allow. */
  lemma {:induction false} LegacyIsMonotoneUnlessEmptied(cfg: Config, small: Book, large: Book,
                                                         r: Request, now: int, later: int)
    requires Weaker(small, large) && NothingEmptied(small, large)
    ensures !Escalates(cfg, small, large, r, now, later)
  {
    if LegacyDecision(cfg, small, r, now, later).action == Allow {
      WeakerLegacyRefusal(small, large, r.context, now);
      if r.approval != "" && r.approval in small.approvals {
        assert WeakerApproval(small.approvals[r.approval], large.approvals[r.approval]);
      }
    }
  }

  datatype Scope = AgentTools | AgentResources | DelegationResources | DelegationActions

  /** The book with one list of one record replaced. */
  function WithScope(book: Book, scope: Scope, id: string, list: seq<string>): Book {
    match scope
    case AgentTools =>
      if id in book.agents then book.(agents := book.agents[id := book.agents[id].(tools := list)]) else book
    case AgentResources =>
      if id in book.agents then book.(agents := book.agents[id := book.agents[id].(resources := list)]) else book
    case DelegationResources =>
      if id !in book.delegations then book
      else book.(delegations := book.delegations[id := book.delegations[id].(resources := list)])
    case DelegationActions =>
      if id !in book.delegations then book
      else book.(delegations := book.delegations[id := book.delegations[id].(actions := list)])
  }

  lemma {:induction false} SameIsWeaker(book: Book)
    ensures Weaker(book, book) && NothingEmptied(book, book)
  {}

  lemma {:induction false} ReplacedAgentIsWeaker(book: Book, id: string, a: Agent, b: Agent)
    requires WeakerAgent(a, b) && AgentKeepsRefusals(a, b)
    ensures var small, large := book.(agents := book.agents[id := a]), book.(agents := book.agents[id := b]);
            Weaker(small, large) && NothingEmptied(small, large)
  {
    SameIsWeaker(book);
    hide WeakerAgent, AgentKeepsRefusals, WeakerDelegation, DelegationKeepsRefusals, WeakerApproval;
  }

  lemma {:induction false} ReplacedDelegationIsWeaker(book: Book, id: string, a: Delegation, b: Delegation)
    requires WeakerDelegation(a, b) && DelegationKeepsRefusals(a, b)
    ensures var small := book.(delegations := book.delegations[id := a]);
            var large := book.(delegations := book.delegations[id := b]);
            Weaker(small, large) && NothingEmptied(small, large)
  {
    SameIsWeaker(book);
    hide WeakerAgent, AgentKeepsRefusals, WeakerDelegation, DelegationKeepsRefusals, WeakerApproval;
  }

  lemma {:induction false} NarrowedScopeIsWeaker(book: Book, scope: Scope, id: string,
                                                 small: seq<string>, large: seq<string>)
    requires Narrower(small, large) && KeepsRefusals(small, large)
    ensures Weaker(WithScope(book, scope, id, small), WithScope(book, scope, id, large))
    ensures NothingEmptied(WithScope(book, scope, id, small), WithScope(book, scope, id, large))
  {
    hide Weaker, NothingEmptied;
    SameIsWeaker(book);
    if (scope.AgentTools? || scope.AgentResources?) && id in book.agents {
      ReplacedAgentIsWeaker(book, id, WithScope(book, scope, id, small).agents[id],
                            WithScope(book, scope, id, large).agents[id]);
    } else if (scope.DelegationResources? || scope.DelegationActions?) && id in book.delegations {
      ReplacedDelegationIsWeaker(book, id, WithScope(book, scope, id, small).delegations[id],
                                 WithScope(book, scope, id, large).delegations[id]);
    }
  }

  /** The exact condition: narrowing one of the four lists that decide reads can give some request
      on some book a new allow if and only if the list is emptied while it said something. */
  lemma {:induction false} LegacyNarrowingIsSafeIff(cfg: Config, scope: Scope, small: seq<string>, large: seq<string>)
    requires Narrower(small, large)
    ensures (forall book, id, r, now, later ::
               !Escalates(cfg, WithScope(book, scope, id, small), WithScope(book, scope, id, large), r, now, later))
            <==> KeepsRefusals(small, large)
  {
    if KeepsRefusals(small, large) {
      forall book, id, r, now, later
        ensures !Escalates(cfg, WithScope(book, scope, id, small), WithScope(book, scope, id, large), r, now, later)
      {
        NarrowedScopeIsWeaker(book, scope, id, small, large);
        LegacyIsMonotoneUnlessEmptied(cfg, WithScope(book, scope, id, small), WithScope(book, scope, id, large),
                                      r, now, later);
      }
    } else {
      EmptyingEscalates(cfg, scope, large);
    }
  }

  /** A book on which everything is open and approved, so that one list decides. */
  function OpenBook(v: string): Book {
    Book(map["a" := Agent(None, true, Low, false, [], [], [])],
         map["a" := Delegation(None, "", "a", "", [], [], Active, 1)],
         map["a" := Approval(OpenContext(v), None, None, Approved, None, None, None, None)], [])
  }

  function OpenContext(v: string): Context { Context(OnBehalf, None, "", "a", "a", "", v, v, v) }

  function OpenRequest(v: string): Request { Request(OpenContext(v), None, "a", Absent) }

  lemma {:induction false} OpenBookAllows(cfg: Config, scope: Scope, v: string)
    ensures LegacyDecision(cfg, WithScope(OpenBook(v), scope, "a", []), OpenRequest(v), 0, 0).action == Allow
  {
    hide RequiresApproval;
    assert WithScope(OpenBook(v), scope, "a", []) == OpenBook(v);
    assert OpenBook(v).approvals["a"].Matches(OpenRequest(v));
  }

  lemma {:induction false} OpenBookRefuses(cfg: Config, scope: Scope, v: string, list: seq<string>)
    requires !Admits(v, list)
    ensures LegacyDecision(cfg, WithScope(OpenBook(v), scope, "a", list), OpenRequest(v), 0, 0).action == Block
  {
    hide RequiresApproval;
  }

  lemma {:induction false} EmptyingEscalates(cfg: Config, scope: Scope, large: seq<string>)
    requires large != [] && "*" !in large
    ensures var v := Other(large);
            Escalates(cfg, WithScope(OpenBook(v), scope, "a", []), WithScope(OpenBook(v), scope, "a", large),
                      OpenRequest(v), 0, 0)
  {
    hide Other, WithScope, RequiresApproval;
    var v := Other(large);
    assert !Admits(v, large) && Admits(v, []);
    OpenBookAllows(cfg, scope, v);
    OpenBookRefuses(cfg, scope, v, large);
  }

  // ---- What an allow carries ----

  /** The scope an authorization was given under: that of its delegation, if it has one. */
  function Lender(book: Book, r: Request): Option<Delegation> {
    if r.context.mode == OnBehalf && r.context.delegation in book.delegations
    then Some(book.delegations[r.context.delegation]) else None
  }

  /** A token exists exactly on an allow.  It names the request's digest and scope and lasts for its
      time to live, cut short by the end of the delegation.  A new approval names the whole request,
      is pending, and lasts likewise. */
  lemma {:induction false} GrantsStayInBounds(cfg: Config, book: Book, r: Request, env: Reading)
    ensures var d, lender := Authorize(cfg, book, r, env).1, Lender(book, r);
            && (d.token.Some? <==> d.action == Allow)
            && (d.action != Block ==>
                  && IsDigest(r.digest)
                  && (r.context.mode == OnBehalf ==> lender.Some? && env.now < lender.value.expires))
            && (d.token.Some? ==>
                  && d.token.value.digest == r.digest && d.token.value.tenant == r.context.tenant
                  && d.token.value.resource == r.context.resource && d.token.value.action == r.context.action
                  && d.token.value.expires == EndOf(env.later + cfg.tokenTtl, lender))
            && (d.action == ApprovalRequired && r.approval == "" ==>
                  && d.approval.Some? && d.approval.value.0 == env.id && d.approval.value.1.Bound()
                  && d.approval.value.1.context == r.context && d.approval.value.1.instance == r.instance
                  && r.digest == Text(d.approval.value.1.digest.value)
                  && d.approval.value.1.status == Pending && d.approval.value.1.consumed.None?
                  && d.approval.value.1.expires == Some(EndOf(env.now + cfg.approvalTtl, lender)))
  {
  }

  /** A time, or the end of the delegation if that comes first. */
  function EndOf(time: int, lender: Option<Delegation>): (t: int)
    ensures t <= time && (lender.Some? ==> t <= lender.value.expires)
    ensures t == time || (lender.Some? && t == lender.value.expires)
  {
    if lender.Some? && lender.value.expires < time then lender.value.expires else time
  }

  /** decide keeps for itself only what carries no binding: a request on a user's behalf, without
      digest, that names no bound approval. */
  lemma {:induction false} LegacyTakesOnlyUnbound(book: Book, r: Request)
    ensures !IsStrict(book, r) <==>
              && r.context.mode == OnBehalf && r.digest == Absent
              && (r.approval in book.approvals && r.approval != "" ==> book.approvals[r.approval].digest.None?)
  {
  }
}
