/** Sorting the string leaves of streamed events into lanes: text that a client will join, JSON
    fragments, and structural fields. */
module SseLanes {
  import opened Wrappers
  import opened Json
  import opened RedactJson

  datatype Family = Chat | Responses | Anthropic | Gemini | Mcp

  datatype Kind = TextKind | JsonKind | StructuralKind

  /** A component of a lane's name: a string, or the ordinal of an event. */
  datatype Part = S(s: string) | N(n: nat)

  datatype Lane = Lane(name: seq<Part>, kind: Kind)

  /** Where a string lives: parent[key] of one event. */
  datatype Ref = Ref(event: nat, place: Path)

  datatype Entry = Entry(lane: Lane, ref: Ref, text: string)

  const STRUCTURAL := {"id", "type", "object", "model", "role", "name", "item_id", "call_id", "tool_use_id",
                       "finish_reason", "signature", "finishReason", "modelVersion", "responseId"}

  const RESPONSE_TEXT_DELTAS := {"response.output_text.delta", "response.refusal.delta"}
  const ARGUMENTS_DELTA := "response.function_call_arguments.delta"

  function Parts(path: seq<string>): seq<Part> {
    seq(|path|, i requires 0 <= i < |path| => S(path[i]))
  }

  /** index(): an integer (not a boolean) from 0 to one million, as text. */
  function Index(v: Option<Json>): Result<string> {
    if v.Some? && v.value.Int? && 0 <= v.value.n <= 1_000_000 then Ok(Decimal(v.value.n))
    else Err("invalid_sse_index")
  }

  function TextField(v: Json, key: string): Result<string> {
    var x := Lookup(v, key);
    if x.Some? && x.value.Str? then Ok(x.value.s) else Err("inspection_unavailable")
  }

  /** str(value.get("content_index", "")); anything but an integer or a string is spelled as JSON. */
  function StrOf(v: Option<Json>): string {
    match v
    case None => ""
    case Some(Str(s)) => s
    case Some(x) => Encode(x)
  }

  function Last(path: seq<string>): string
    requires path != []
  {
    path[|path| - 1]
  }

  function DefaultLane(path: seq<string>, ordinal: nat): Lane
    requires path != []
  {
    Lane([S("event"), N(ordinal)] + Parts(path), if Last(path) in STRUCTURAL then StructuralKind else TextKind)
  }

  function Named(name: seq<Part>, kind: Kind): Result<Lane> { Ok(Lane(name, kind)) }

  function ChatLane(path: seq<string>): Option<Lane> {
    if !(|path| >= 4 && path[0] == "choices" && path[2] == "delta") then None
    else if path[3] in {"content", "refusal"} && |path| == 4 then
      Some(Lane([S("chat"), S(path[1]), S(path[3])], TextKind))
    else if (path[3] == "function_call" && Last(path) in {"name", "arguments"})
         || (path[3] == "tool_calls" && Last(path) in {"name", "arguments", "id"}) then
      Some(Lane([S("chat"), S(path[1])] + Parts(path[3..]),
                if Last(path) == "arguments" then JsonKind else StructuralKind))
    else None
  }

  /** ("responses", item id, output index, content index, delta type) */
  function ResponsesName(id: Result<string>, output: Result<string>, content: Result<string>, delta: string)
    : Result<seq<Part>>
  {
    match (id, output, content)
    case (Ok(i), Ok(o), Ok(c)) => Ok([S("responses"), S(i), S(o), S(c), S(delta)])
    case (Err(e), _, _) => Err(e)
    case (_, Err(e), _) => Err(e)
    case (_, _, Err(e)) => Err(e)
  }

  function WithKind(name: Result<seq<Part>>, kind: Kind): Result<Lane> {
    match name
    case Ok(n) => Ok(Lane(n, kind))
    case Err(e) => Err(e)
  }

  function ResponsesLane(event: Json, path: seq<string>): Option<Result<Lane>> {
    var eventType := Lookup(event, "type");
    var item := Lookup(event, "item");
    if !(eventType.Some? && eventType.value.Str?) then None
    else
      var t := eventType.value.s;
      if (t in RESPONSE_TEXT_DELTAS || t == ARGUMENTS_DELTA) && path == ["delta"] then
        Some(WithKind(ResponsesName(TextField(event, "item_id"), Index(Lookup(event, "output_index")),
                                    Ok(StrOf(Lookup(event, "content_index"))), t),
                      if t == ARGUMENTS_DELTA then JsonKind else TextKind))
      else if t == "response.output_item.added" && path == ["item", "arguments"] then
        Some(WithKind(ResponsesName(if item.Some? then TextField(item.value, "id") else Err("inspection_unavailable"),
                                    Index(Lookup(event, "output_index")), Ok(""), ARGUMENTS_DELTA), JsonKind))
      else if t == "response.content_part.added" && path in [["part", "text"], ["part", "refusal"]] then
        Some(WithKind(ResponsesName(TextField(event, "item_id"), Index(Lookup(event, "output_index")),
                                    Index(Lookup(event, "content_index")),
                                    if Last(path) == "text" then "response.output_text.delta"
                                    else "response.refusal.delta"),
                      TextKind))
      else None
  }

  /** ("anthropic", block index, field) */
  function AnthropicName(index: Result<string>, field: string): Result<seq<Part>> {
    match index
    case Ok(i) => Ok([S("anthropic"), S(i), S(field)])
    case Err(e) => Err(e)
  }

  predicate IsBlockField(field: string) { field in {"text", "thinking", "partial_json", "signature"} }

  function BlockKind(field: string): Kind {
    if field == "partial_json" then JsonKind
    else if field in {"thinking", "signature"} then StructuralKind
    else TextKind
  }

  function AnthropicLane(event: Json, path: seq<string>): Option<Result<Lane>> {
    var eventType, index := Lookup(event, "type"), Index(Lookup(event, "index"));
    if IsText(eventType, "content_block_delta") && |path| == 2 && path[0] == "delta" && IsBlockField(path[1]) then
      Some(WithKind(AnthropicName(index, path[1]), BlockKind(path[1])))
    else if IsText(eventType, "content_block_start") &&
            path in [["content_block", "text"], ["content_block", "thinking"]] then
      Some(WithKind(AnthropicName(index, Last(path)), if Last(path) == "thinking" then StructuralKind else TextKind))
    else None
  }

  /** select_lane: the lane of the string at this path of this event. */
  function SelectLane(family: Option<Family>, event: Json, path: seq<string>, ordinal: nat): Result<Lane>
    requires path != []
  {
    var byFamily: Option<Result<Lane>> :=
      match family
      case Some(Chat) => (match ChatLane(path) case Some(l) => Some(Ok(l)) case None => None)
      case Some(Gemini) =>
        if |path| == 6 && path[0] == "candidates" && path[2] == "content" && path[3] == "parts" && Last(path) == "text"
        then Some(Named([S("gemini"), S(path[1]), S(path[4])], TextKind)) else None
      case Some(Responses) => ResponsesLane(event, path)
      case Some(Anthropic) => AnthropicLane(event, path)
      case Some(Mcp) =>
        if |path| == 4 && path[0] == "result" && path[1] == "content" && Last(path) == "text"
        then Some(Named([S("mcp"), N(ordinal), S("content_text")], TextKind)) else None
      case None => None;
    if byFamily.Some? then byFamily.value
    else if Last(path) == "arguments" && family in {Some(Chat), Some(Responses)} then
      Named([S("event"), N(ordinal)] + Parts(path), JsonKind)
    else Ok(DefaultLane(path, ordinal))
  }

  // ---- collect ----

  /** What stays fixed while one event is collected. */
  datatype Context = Context(family: Option<Family>, event: Json, ordinal: nat, provider: Option<string>)

  const ENCODED_TYPES := {"image", "audio", "redacted_thinking"}
  const ENCODED_KEYS := {"encrypted_content", "inlineData", "fileData", "thoughtSignature", "partialArgs"}

  /** value.get("type") in a set raises for an unhashable value. */
  predicate Unhashable(v: Option<Json>) { v.Some? && (v.value.Arr? || v.value.Obj?) }

  predicate IsEncodedPayload(v: Json)
    requires v.Obj?
  {
    var t := Lookup(v, "type");
    || (t.Some? && t.value.Str? && t.value.s in ENCODED_TYPES)
    || exists k | 0 <= k < |v.fields| :: v.fields[k].0 in ENCODED_KEYS
  }

  /** Native protocol timestamps are exempt from the numeric scan. */
  predicate IsTimestamp(n: int, event: Json, path: seq<string>, provider: Option<string>) {
    var response := Lookup(event, "response");
    var t := Lookup(event, "type");
    && provider in {Some("openai"), Some("openrouter"), Some("google")}
    && 946684800 <= n <= 4102444800
    && (if path == ["created"] then
          IsText(Lookup(event, "object"), "chat.completion") || IsText(Lookup(event, "object"), "chat.completion.chunk")
        else if provider == Some("openai") && path == ["created_at"] then
          IsText(Lookup(event, "object"), "response")
        else
          && provider == Some("openai") && path == ["response", "created_at"]
          && t.Some? && t.value.Str?
          && t.value.s in {"response.created", "response.in_progress", "response.completed", "response.failed"}
          && response.Some? && IsText(Lookup(response.value, "object"), "response"))
  }

  predicate Numbered(family: Option<Family>, path: seq<string>) {
    path != [] && ((family == Some(Chat) && Last(path) in {"choices", "tool_calls"})
                   || (family == Some(Gemini) && Last(path) == "candidates"))
  }

  /** The path component of a list element, and the indices seen so far. */
  function ElementName(v: Json, i: nat, numbered: bool, seen: set<string>): Result<(string, set<string>)>
    requires v.Arr? && i < |v.items|
  {
    if !numbered then Ok((Decimal(i), seen))
    else if !v.items[i].Obj? || !Has(v.items[i], "index") then Err("invalid_sse_index")
    else
      match Index(Lookup(v.items[i], "index"))
      case Err(e) => Err(e)
      case Ok(name) => if name in seen then Err("duplicate_sse_index") else Ok((name, seen + {name}))
  }

  function MemberName(env: Env, v: Json, i: nat, numbered: bool, seen: set<string>): Result<(string, set<string>)>
    requires i < Children(v)
  {
    if v.Arr? then ElementName(v, i, numbered, seen)
    else if v.fields[i].0 == "logprobs" && v.fields[i].1 != Null then Err("unsupported_sse_encoded_payload")
    else if env.find(v.fields[i].0) != [] then Err("pii_in_structural_field")
    else Ok((v.fields[i].0, seen))
  }

  function Collect(env: Env, c: Context, v: Json, place: Path, path: seq<string>): Result<seq<Entry>>
    requires path == [] ==> v.Obj?
    decreases v, 1, 0
  {
    match v
    case Str(s) =>
      (match SelectLane(c.family, c.event, path, c.ordinal)
       case Err(e) => Err(e)
       case Ok(lane) => Ok([Entry(lane, Ref(c.ordinal, place), s)]))
    case Int(n) =>
      if IsTimestamp(n, c.event, path, c.provider) || env.find(IntText(n)) == [] then Ok([])
      else Err("pii_in_numeric_field")
    case Float(text) => if env.find(text) == [] then Ok([]) else Err("pii_in_numeric_field")
    case Null => Ok([])
    case Bool(_) => Ok([])
    case Arr(_) => CollectFrom(env, c, v, place, path, 0, {})
    case Obj(_) =>
      if Unhashable(Lookup(v, "type")) then Err("inspection_unavailable")
      else if IsEncodedPayload(v) then Err("unsupported_sse_encoded_payload")
      else CollectFrom(env, c, v, place, path, 0, {})
  }

  function CollectFrom(env: Env, c: Context, v: Json, place: Path, path: seq<string>, i: nat, seen: set<string>)
    : Result<seq<Entry>>
    requires i <= Children(v)
    decreases v, 0, Children(v) - i
  {
    if i == Children(v) then Ok([])
    else
      match MemberName(env, v, i, Numbered(c.family, path), seen)
      case Err(e) => Err(e)
      case Ok((name, seen')) =>
        match Collect(env, c, Child(v, i), place + [i], path + [name])
        case Err(e) => Err(e)
        case Ok(entries) =>
          match CollectFrom(env, c, v, place, path, i + 1, seen')
          case Err(e) => Err(e)
          case Ok(rest) => Ok(entries + rest)
  }

  // ---- Every string leaf goes to one lane, once ----

  function LeafOf(e: Entry): Leaf { Leaf(e.ref.place, e.text) }

  function LeavesOf(entries: seq<Entry>): seq<Leaf> {
    seq(|entries|, i requires 0 <= i < |entries| => LeafOf(entries[i]))
  }

  ghost predicate OfEvent(entries: seq<Entry>, ordinal: nat) {
    forall i | 0 <= i < |entries| :: entries[i].ref.event == ordinal
  }

  /** The entries of an event are its string leaves, each listed once, in document order. */
  lemma {:induction false} CollectListsLeaves(env: Env, c: Context, v: Json, place: Path, path: seq<string>)
    requires (path == [] ==> v.Obj?) && Collect(env, c, v, place, path).Ok?
    ensures var entries := Collect(env, c, v, place, path).value;
            LeavesOf(entries) == Leaves(v, place) && OfEvent(entries, c.ordinal)
    decreases v, 1, 0
  {
    if v.Arr? || v.Obj? {
      CollectFromListsLeaves(env, c, v, place, path, 0, {});
    } else if !v.Str? {
      assert Leaves(v, place) == [];
    }
  }

  lemma {:induction false} CollectFromListsLeaves(env: Env, c: Context, v: Json, place: Path, path: seq<string>,
                                                  i: nat, seen: set<string>)
    requires i <= Children(v) && CollectFrom(env, c, v, place, path, i, seen).Ok?
    ensures var entries := CollectFrom(env, c, v, place, path, i, seen).value;
            LeavesOf(entries) == LeavesFrom(v, place, i) && OfEvent(entries, c.ordinal)
    decreases v, 0, Children(v) - i
  {
    hide Collect, MemberName, Numbered, OfEvent, LeavesOf;
    if i == Children(v) { NoLeaves(c.ordinal); }
    if i < Children(v) {
      var (name, seen') := MemberName(env, v, i, Numbered(c.family, path), seen).value;
      CollectListsLeaves(env, c, Child(v, i), place + [i], path + [name]);
      CollectFromListsLeaves(env, c, v, place, path, i + 1, seen');
      LeavesOfBoth(Collect(env, c, Child(v, i), place + [i], path + [name]).value,
                   CollectFrom(env, c, v, place, path, i + 1, seen').value, c.ordinal);
    }
  }

  lemma {:induction false} NoLeaves(ordinal: nat)
    ensures LeavesOf([]) == [] && OfEvent([], ordinal)
  {}

  lemma {:induction false} LeavesOfBoth(a: seq<Entry>, b: seq<Entry>, ordinal: nat)
    requires OfEvent(a, ordinal) && OfEvent(b, ordinal)
    ensures LeavesOf(a + b) == LeavesOf(a) + LeavesOf(b) && OfEvent(a + b, ordinal)
  {}
}
