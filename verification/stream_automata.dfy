/** The per-provider protocol checks of a streamed response, event by event. */
module StreamAutomata {
  import opened Wrappers
  import opened Json
  import opened SseLanes

  /** An event with data: the end marker of chat streams, or a parsed object together with the
      value of its event: line. */
  datatype Item = Done | Payload(value: Json, name: Option<string>)

  datatype State = State(
    family: Option<Family>, terminal: bool,
    started: bool, open: set<string>, seen: set<string>,
    candidates: set<string>, finished: set<string>)

  const START := State(None, false, false, {}, {}, {}, {})

  const RESPONSE_STATIC := {"response.created", "response.in_progress", "response.completed", "response.failed",
                            "response.output_item.added", "response.output_item.done", "response.content_part.added",
                            "response.content_part.done", "response.output_text.done", "response.refusal.done",
                            "response.function_call_arguments.done"}
  const ANTHROPIC_TYPES := {"message_start", "content_block_start", "content_block_delta", "content_block_stop",
                            "message_delta", "message_stop", "ping"}

  // ---- Checks that look at one value only ----

  function Keys(v: Json): set<string> {
    if v.Obj? then set i | 0 <= i < |v.fields| :: v.fields[i].0 else {}
  }

  predicate IsObj(v: Option<Json>) { v.Some? && v.value.Obj? }

  predicate IsStr(v: Option<Json>) { v.Some? && v.value.Str? }

  predicate ChatChoiceOk(choice: Json) {
    var delta := Lookup(choice, "delta");
    && choice.Obj? && IsObj(delta)
    && Keys(delta.value) <= {"role", "content", "refusal", "function_call", "tool_calls"}
    && forall k | k in {"content", "refusal", "role"} ::
         var x := Lookup(delta.value, k);
         x.Some? ==> x.value.Null? || x.value.Str?
  }

  predicate ChatOk(v: Json) {
    var choices, kind := Lookup(v, "choices"), Lookup(v, "object");
    && choices.Some? && choices.value.Arr? && (kind.None? || IsText(kind, "chat.completion.chunk"))
    && forall i | 0 <= i < |choices.value.items| :: ChatChoiceOk(choices.value.items[i])
  }

  function TypeOf(v: Json): string { if IsStr(Lookup(v, "type")) then Lookup(v, "type").value.s else "" }

  predicate HasIndex(v: Json, key: string) { Index(Lookup(v, key)).Ok? }

  predicate ResponsesOk(v: Json) {
    var t, item := TypeOf(v), Lookup(v, "item");
    && (t in RESPONSE_TEXT_DELTAS || t == ARGUMENTS_DELTA ==>
          && IsStr(Lookup(v, "delta")) && IsStr(Lookup(v, "item_id")) && HasIndex(v, "output_index")
          && (t != ARGUMENTS_DELTA ==> HasIndex(v, "content_index")))
    && (t == "response.output_item.added" ==>
          && IsObj(item) && IsStr(Lookup(item.value, "id")) && HasIndex(v, "output_index")
          && !(IsText(Lookup(item.value, "type"), "message")
               && Lookup(item.value, "content") !in {None, Some(Arr([]))}))
    && (t == "response.content_part.added" ==>
          && IsStr(Lookup(v, "item_id")) && IsObj(Lookup(v, "part"))
          && HasIndex(v, "output_index") && HasIndex(v, "content_index"))
  }

  function DeltaField(t: string): Option<string> {
    if t == "text_delta" then Some("text")
    else if t == "thinking_delta" then Some("thinking")
    else if t == "input_json_delta" then Some("partial_json")
    else if t == "signature_delta" then Some("signature")
    else None
  }

  predicate BlockOk(block: Option<Json>) {
    && IsObj(block)
    && TypeOf(block.value) in {"text", "thinking", "tool_use", "server_tool_use"}
    && (TypeOf(block.value) in {"tool_use", "server_tool_use"} ==>
        Lookup(block.value, "input") in {None, Some(Obj([]))})
  }

  predicate DeltaOk(delta: Option<Json>) {
    && IsObj(delta)
    && DeltaField(TypeOf(delta.value)).Some?
    && var field := DeltaField(TypeOf(delta.value)).value;
       Keys(delta.value) == {"type", field} && IsStr(Lookup(delta.value, field))
  }

  predicate AnthropicOk(v: Json) {
    var t := TypeOf(v);
    && (t in {"content_block_start", "content_block_delta", "content_block_stop"} ==> HasIndex(v, "index"))
    && (t == "content_block_start" ==> BlockOk(Lookup(v, "content_block")))
    && (t == "content_block_delta" ==> DeltaOk(Lookup(v, "delta")))
  }

  predicate PartOk(part: Json) {
    var text, call := Lookup(part, "text"), Lookup(part, "functionCall");
    && part.Obj? && Keys(part) <= {"text", "functionCall", "thought"}
    && (text.Some? ==> text.value.Str?)
    && (call.Some? ==>
          && call.value.Obj? && Keys(call.value) <= {"name", "args", "id"}
          && var args := Lookup(call.value, "args"); args.None? || args.value.Obj?)
  }

  /** The parts of a candidate that passed CandidateOk. */
  function PartsOf(candidate: Json): seq<Json> {
    var content := Lookup(candidate, "content");
    if content.None? then []
    else
      var parts := Lookup(content.value, "parts");
      if parts.Some? && parts.value.Arr? then parts.value.items else []
  }

  function NumberOf(candidate: Json): Result<string> {
    Index(if Has(candidate, "index") then Lookup(candidate, "index") else Some(Int(0)))
  }

  predicate CandidateOk(candidate: Json) {
    var content := Lookup(candidate, "content");
    && candidate.Obj? && NumberOf(candidate).Ok?
    && (content.Some? ==>
          && content.value.Obj?
          && var parts := Lookup(content.value, "parts"); parts.None? || parts.value.Arr?)
    && forall i | 0 <= i < |PartsOf(candidate)| :: PartOk(PartsOf(candidate)[i])
  }

  function CandidatesOf(v: Json): seq<Json> {
    var x := Lookup(v, "candidates");
    if x.Some? && x.value.Arr? then x.value.items else []
  }

  predicate GeminiOk(v: Json) {
    var x := Lookup(v, "candidates");
    && (x.None? || x.value.Arr?)
    && forall i | 0 <= i < |CandidatesOf(v)| :: CandidateOk(CandidatesOf(v)[i])
  }

  /** A nonzero digit before any exponent. */
  predicate NonZero(text: string) {
    text != "" && text[0] !in "eE" && (text[0] in "123456789" || NonZero(text[1..]))
  }

  /** Python's truth value. */
  predicate Truthy(v: Json) {
    match v
    case Null => false
    case Bool(b) => b
    case Int(n) => n != 0
    case Float(text) => NonZero(text)
    case Str(s) => s != ""
    case Arr(items) => items != []
    case Obj(fields) => fields != []
  }

  // ---- Which protocol an object belongs to ----

  function FamilyOf(v: Json): Option<Family> {
    var t := Lookup(v, "type");
    if Has(v, "choices") then Some(Chat)
    else if Unhashable(t) then None
    else if IsStr(t) && (t.value.s in RESPONSE_TEXT_DELTAS || t.value.s == ARGUMENTS_DELTA ||
                         t.value.s in RESPONSE_STATIC) then
      Some(Responses)
    else if IsStr(t) && t.value.s in ANTHROPIC_TYPES then Some(Anthropic)
    else if Has(v, "candidates") || Has(v, "usageMetadata") then Some(Gemini)
    else if IsText(Lookup(v, "jsonrpc"), "2.0") && (Has(v, "method") || Has(v, "result") || Has(v, "error")) then
      Some(Mcp)
    else None
  }

  /** The checks on one value that do not depend on what came before. */
  predicate LocallyOk(v: Json, name: Option<string>) {
    && v.Obj? && FamilyOf(v).Some? && !Unhashable(Lookup(v, "type"))
    && (name.None? || name.value == "message" || IsText(Lookup(v, "type"), name.value))
    && match FamilyOf(v).value
       case Chat => ChatOk(v)
       case Responses => ResponsesOk(v)
       case Anthropic => AnthropicOk(v)
       case Gemini => GeminiOk(v)
       case Mcp => true
  }

  // ---- The automata ----

  /** What an Anthropic event means to the automaton. */
  datatype Token =
    | MessageStart | Ping | MessageDelta | MessageStop
    | BlockStart(index: string) | BlockDelta(index: string) | BlockStop(index: string)

  function TokenOf(v: Json): Token {
    var t := TypeOf(v);
    var i := match Index(Lookup(v, "index")) case Ok(n) => n case Err(_) => "";
    if t == "message_start" then MessageStart
    else if t == "ping" then Ping
    else if t == "message_stop" then MessageStop
    else if t == "content_block_start" then BlockStart(i)
    else if t == "content_block_delta" then BlockDelta(i)
    else if t == "content_block_stop" then BlockStop(i)
    else MessageDelta
  }

  function AnthropicStep(s: State, t: Token): Option<State> {
    if t.MessageStart? then (if s.started then None else Some(s.(started := true)))
    else if t.Ping? then Some(s)
    else if !s.started then None
    else
      match t
      case BlockStart(i) => if i in s.seen then None else Some(s.(open := s.open + {i}, seen := s.seen + {i}))
      case BlockDelta(i) => if i in s.open then Some(s) else None
      case BlockStop(i) => if i in s.open then Some(s.(open := s.open - {i})) else None
      case MessageStop => if s.open == {} then Some(s.(terminal := true)) else None
      case _ => Some(s)
  }

  /** What a Gemini candidate means to the automaton. */
  datatype Candidate = Candidate(number: string, parts: bool, finishes: bool)

  function CandidateOf(c: Json): Candidate {
    var reason := Lookup(c, "finishReason");
    Candidate(match NumberOf(c) case Ok(n) => n case Err(_) => "", PartsOf(c) != [],
              reason.Some? && Truthy(reason.value))
  }

  function TokensOf(v: Json): seq<Candidate> {
    seq(|CandidatesOf(v)|, i requires 0 <= i < |CandidatesOf(v)| => CandidateOf(CandidatesOf(v)[i]))
  }

  function GeminiStep(s: State, c: Candidate): Option<State> {
    if c.number in s.finished && c.parts then None
    else Some(s.(candidates := s.candidates + {c.number},
                 finished := if c.finishes then s.finished + {c.number} else s.finished))
  }

  function GeminiSteps(s: State, cs: seq<Candidate>): Option<State>
    decreases |cs|
  {
    if cs == [] then Some(s)
    else
      match GeminiStep(s, cs[0])
      case None => None
      case Some(next) => GeminiSteps(next, cs[1..])
  }

  function Advance(s: State, v: Json): Option<State> {
    match FamilyOf(v)
    case Some(Responses) => Some(s.(terminal := TypeOf(v) in {"response.completed", "response.failed"}))
    case Some(Anthropic) => AnthropicStep(s, TokenOf(v))
    case Some(Gemini) => GeminiSteps(s, TokensOf(v))
    case _ => Some(s)
  }

  /** One event with data; None when the stream is rejected. */
  function Observe(s: State, item: Item): Option<State> {
    if s.terminal then None
    else
      match item
      case Done => if s.family in {None, Some(Chat)} then Some(s.(family := Some(Chat), terminal := true)) else None
      case Payload(v, name) =>
        if !LocallyOk(v, name) || (s.family.Some? && s.family != FamilyOf(v)) then None
        else
          match Advance(s, v)
          case None => None
          case Some(next) => Some(next.(family := FamilyOf(v)))
  }

  function Run(items: seq<Item>): Option<State> {
    if items == [] then Some(START)
    else
      match Run(items[..|items| - 1])
      case None => None
      case Some(s) => Observe(s, items[|items| - 1])
  }

  /** The checks after the last event. */
  predicate EndsWell(s: State) {
    && (s.family in {Some(Chat), Some(Responses), Some(Anthropic)} ==> s.terminal)
    && (s.family == Some(Gemini) ==> s.candidates != {} && s.candidates == s.finished)
  }

  predicate Accepted(items: seq<Item>) { Run(items).Some? && EndsWell(Run(items).value) }
}
