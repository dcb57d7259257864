/** What a client makes of a stream: the texts it joins from many events, and how they are masked. */
module SseClient {
  import opened Sequences
  import opened Wrappers
  import opened Json
  import opened RedactJson
  import opened SseLanes
  import opened SseRewrite
  import opened StreamAutomata
  import opened SsePipeline
  import Sse
  import L = Lanes

  // ---- Names of places ----

  /** The lists whose elements a client tells apart by their index member. */
  function IndexedLists(family: Family): set<string> {
    match family
    case Chat => {"choices", "tool_calls"}
    case Gemini => {"candidates"}
    case _ => {}
  }

  /** What child i of a value is called; under is the name of the value itself. */
  function Called(family: Family, v: Json, i: nat, under: string): string
    requires i < Children(v)
  {
    if v.Obj? then v.fields[i].0
    else if under !in IndexedLists(family) then Decimal(i)
    else
      match Lookup(v.items[i], "index")
      case Some(Int(n)) => IntText(n)
      case _ => ""
  }

  function NamesOf(family: Family, v: Json, place: Path, under: string): seq<string>
    requires At(v, place).Some?
  {
    if place == [] then []
    else
      var name := Called(family, v, place[0], under);
      [name] + NamesOf(family, Child(v, place[0]), place[1..], name)
  }

  function LastOr(names: seq<string>, under: string): string { if names == [] then under else names[|names| - 1] }

  lemma {:induction false} AtSnoc(v: Json, place: Path, i: nat)
    requires At(v, place).Some? && i < Children(At(v, place).value)
    ensures At(v, place + [i]) == Some(Child(At(v, place).value, i))
  {
    if place == [] {
      assert [] + [i] == [i] && [i][1..] == [];
    } else {
      TailConcat(place, [i]);
      AtSnoc(Child(v, place[0]), place[1..], i);
    }
  }

  lemma {:induction false} NamesSnoc(family: Family, v: Json, place: Path, i: nat, under: string)
    requires At(v, place).Some? && i < Children(At(v, place).value)
    ensures At(v, place + [i]).Some?
    ensures NamesOf(family, v, place + [i], under) ==
            NamesOf(family, v, place, under) +
            [Called(family, At(v, place).value, i, LastOr(NamesOf(family, v, place, under), under))]
  {
    AtSnoc(v, place, i);
    if place == [] {
      assert [] + [i] == [i] && [i][1..] == [];
    } else {
      TailConcat(place, [i]);
      var name := Called(family, v, place[0], under);
      var rest := NamesOf(family, Child(v, place[0]), place[1..], name);
      NamesSnoc(family, Child(v, place[0]), place[1..], i, name);
      Associate([name], rest, [Called(family, At(v, place).value, i, LastOr(rest, name))]);
    }
  }

  // ---- Every leaf is in the lane of its names ----

  /** The entry is in the lane that its place's names select. */
  predicate InLane(family: Family, event: Json, ordinal: nat, e: Entry) {
    && e.ref.event == ordinal && At(event, e.ref.place).Some? && e.ref.place != []
    && SelectLane(Some(family), event, NamesOf(family, event, e.ref.place, ""), ordinal) == Ok(e.lane)
  }

  lemma {:induction false} MemberIsCalled(env: Env, family: Family, v: Json, i: nat, path: seq<string>,
                                          seen: set<string>)
    requires i < Children(v) && MemberName(env, v, i, Numbered(Some(family), path), seen).Ok?
    ensures MemberName(env, v, i, Numbered(Some(family), path), seen).value.0 == Called(family, v, i, LastOr(path, ""))
  {
    assert |"choices"| == 7 && |"tool_calls"| == 10 && |"candidates"| == 10;
  }

  lemma {:induction false} CollectInLane(env: Env, c: Context, family: Family, v: Json, place: Path, path: seq<string>)
    requires c.family == Some(family) && At(c.event, place) == Some(v) && path == NamesOf(family, c.event, place, "")
    requires (path == [] ==> v.Obj?) && Collect(env, c, v, place, path).Ok?
    ensures forall e | e in Collect(env, c, v, place, path).value :: InLane(family, c.event, c.ordinal, e)
    decreases v, 1, 0
  {
    hide SelectLane;
    if v.Arr? || v.Obj? {
      CollectFromInLane(env, c, family, v, place, path, 0, {});
    }
  }

  lemma {:induction false} CollectFromInLane(env: Env, c: Context, family: Family, v: Json, place: Path,
                                             path: seq<string>, i: nat, seen: set<string>)
    requires c.family == Some(family) && At(c.event, place) == Some(v) && path == NamesOf(family, c.event, place, "")
    requires i <= Children(v) && CollectFrom(env, c, v, place, path, i, seen).Ok?
    ensures forall e | e in CollectFrom(env, c, v, place, path, i, seen).value :: InLane(family, c.event, c.ordinal, e)
    decreases v, 0, Children(v) - i
  {
    hide SelectLane, InLane, MemberName, Called, Collect, NamesOf;
    if i < Children(v) {
      var (name, seen') := MemberName(env, v, i, Numbered(c.family, path), seen).value;
      MemberIsCalled(env, family, v, i, path, seen);
      NamesSnoc(family, c.event, place, i, "");
      AtSnoc(c.event, place, i);
      CollectInLane(env, c, family, Child(v, i), place + [i], path + [name]);
      CollectFromInLane(env, c, family, v, place, path, i + 1, seen');
    }
  }

  // ---- The texts that a client joins ----

  /** A text that a client puts together from pieces: a field of a chat choice's delta, a delta of a
      Responses item, a field of an Anthropic content block, a part of a Gemini candidate, and the
      text items of one MCP result, which are inspected together. */
  datatype Key =
    | ChatKey(choice: string, rest: seq<string>)
    | ResponsesKey(item: string, output: string, content: string, delta: string)
    | BlockKey(index: string, field: string)
    | PartKey(candidate: string, part: string)
    | McpKey(event: nat)

  function FamilyOfKey(k: Key): Family {
    match k
    case ChatKey(_, _) => Chat
    case ResponsesKey(_, _, _, _) => Responses
    case BlockKey(_, _) => Anthropic
    case PartKey(_, _) => Gemini
    case McpKey(_) => Mcp
  }

  /** Text is masked in place, JSON is redacted as a tree, structural text must be free of findings. */
  function KindOfKey(k: Key): Kind {
    match k
    case ChatKey(_, rest) =>
      if rest in [["content"], ["refusal"]] then TextKind
      else if rest != [] && rest[|rest| - 1] == "arguments" then JsonKind
      else StructuralKind
    case ResponsesKey(_, _, _, delta) =>
      if delta == "response.function_call_arguments.delta" then JsonKind else TextKind
    case BlockKey(_, field) =>
      if field == "partial_json" then JsonKind
      else if field in ["thinking", "signature"] then StructuralKind
      else TextKind
    case _ => TextKind
  }

  /** What a client joins of a choice's delta: its text, and names, arguments and ids of calls. */
  predicate IsDeltaField(rest: seq<string>) {
    || rest in [["content"], ["refusal"]]
    || (|rest| > 1 && rest[0] == "function_call" && rest[|rest| - 1] in ["name", "arguments"])
    || (|rest| > 1 && rest[0] == "tool_calls" && rest[|rest| - 1] in ["name", "arguments", "id"])
  }

  predicate IsNumber(v: Option<Json>, text: string) {
    v.Some? && v.value.Int? && 0 <= v.value.n <= 1_000_000 && IntText(v.value.n) == text
  }

  function Within(v: Json, first: string, second: string): Option<Json> {
    if Lookup(v, first).Some? then Lookup(Lookup(v, first).value, second) else None
  }

  predicate IsString(v: Option<Json>, text: string) { v == Some(Str(text)) }

  /** Does the leaf with these names, in event t with this payload, carry a piece of the text? */
  predicate Carries(k: Key, t: nat, v: Json, names: seq<string>) {
    match k
    case ChatKey(choice, rest) =>
      IsDeltaField(rest) && |names| == 3 + |rest| && names == ["choices", choice, "delta"] + rest
    case ResponsesKey(item, output, content, delta) =>
      IsNumber(Lookup(v, "output_index"), output) && CarriesDelta(item, content, delta, v, names)
    case BlockKey(index, field) =>
      && IsNumber(Lookup(v, "index"), index)
      && ((IsString(Lookup(v, "type"), "content_block_delta") && names == ["delta", field] &&
           field in ["text", "thinking", "partial_json", "signature"]) ||
          (IsString(Lookup(v, "type"), "content_block_start") && names == ["content_block", field] &&
           field in ["text", "thinking"]))
    case PartKey(candidate, part) => names == ["candidates", candidate, "content", "parts", part, "text"]
    case McpKey(event) => event == t && |names| == 4 && names[..2] == ["result", "content"] && names[3] == "text"
  }

  predicate CarriesDelta(item: string, content: string, delta: string, v: Json, names: seq<string>) {
    var kind := Lookup(v, "type");
    || (delta in ["response.output_text.delta", "response.refusal.delta", "response.function_call_arguments.delta"] &&
        IsString(kind, delta) && names == ["delta"] &&
        IsString(Lookup(v, "item_id"), item) && StrOf(Lookup(v, "content_index")) == content)
    || (delta == "response.function_call_arguments.delta" && content == "" &&
        IsString(kind, "response.output_item.added") && names == ["item", "arguments"] &&
        IsString(Within(v, "item", "id"), item))
    || (IsString(kind, "response.content_part.added") &&
        IsString(Lookup(v, "item_id"), item) && IsNumber(Lookup(v, "content_index"), content) &&
        ((delta == "response.output_text.delta" && names == ["part", "text"]) ||
         (delta == "response.refusal.delta" && names == ["part", "refusal"])))
  }

  function KeyLane(k: Key): Lane {
    match k
    case ChatKey(choice, rest) => Lane([S("chat"), S(choice)] + Parts(rest), KindOfKey(k))
    case ResponsesKey(item, output, content, delta) =>
      Lane([S("responses"), S(item), S(output), S(content), S(delta)], KindOfKey(k))
    case BlockKey(index, field) => Lane([S("anthropic"), S(index), S(field)], KindOfKey(k))
    case PartKey(candidate, part) => Lane([S("gemini"), S(candidate), S(part)], TextKind)
    case McpKey(event) => Lane([S("mcp"), N(event), S("content_text")], TextKind)
  }

  /** How a string is inspected that is no piece of a longer text. */
  function LoneKind(family: Family, names: seq<string>): Kind
    requires names != []
  {
    var last := names[|names| - 1];
    if last == "arguments" && family in {Chat, Responses} then JsonKind
    else if last in {"id", "type", "object", "model", "role", "name", "item_id", "call_id", "tool_use_id",
                     "finish_reason", "signature", "finishReason", "modelVersion", "responseId"}
    then StructuralKind
    else TextKind
  }

  function LoneLane(family: Family, names: seq<string>, t: nat): Lane
    requires names != []
  {
    Lane([S("event"), N(t)] + Parts(names), LoneKind(family, names))
  }

  lemma {:induction false} LoneIsNotKeyed(family: Family, names: seq<string>, t: nat, k: Key)
    requires names != []
    ensures LoneLane(family, names, t) != KeyLane(k)
  {
    assert |"event"| == 5 && |"chat"| == 4 && |"responses"| == 9 && |"anthropic"| == 9;
    assert |"gemini"| == 6 && |"mcp"| == 3;
    assert LoneLane(family, names, t).name[0] == S("event");
    assert KeyLane(k).name[0] in [S("chat"), S("responses"), S("anthropic"), S("gemini"), S("mcp")];
  }

  // ---- select_lane, protocol by protocol ----

  lemma {:induction false} DefaultIsLone(family: Family, names: seq<string>, t: nat)
    requires names != []
    ensures LoneLane(family, names, t) ==
            if Last(names) == "arguments" && family in {Chat, Responses}
            then Lane([S("event"), N(t)] + Parts(names), JsonKind) else DefaultLane(names, t)
  {}

  lemma {:induction false} SelectChat(v: Json, names: seq<string>, t: nat)
    requires names != []
    ensures SelectLane(Some(Chat), v, names, t) ==
            Ok(if ChatLane(names).Some? then ChatLane(names).value else LoneLane(Chat, names, t))
  {
    hide ChatLane, ResponsesLane, AnthropicLane, DefaultLane, LoneLane;
    DefaultIsLone(Chat, names, t);
  }

  lemma {:induction false} SelectResponses(v: Json, names: seq<string>, t: nat)
    requires names != []
    ensures SelectLane(Some(Responses), v, names, t) ==
            if ResponsesLane(v, names).Some? then ResponsesLane(v, names).value else Ok(LoneLane(Responses, names, t))
  {
    hide ChatLane, ResponsesLane, AnthropicLane, DefaultLane, LoneLane;
    DefaultIsLone(Responses, names, t);
  }

  lemma {:induction false} SelectAnthropic(v: Json, names: seq<string>, t: nat)
    requires names != []
    ensures SelectLane(Some(Anthropic), v, names, t) ==
            if AnthropicLane(v, names).Some? then AnthropicLane(v, names).value else Ok(LoneLane(Anthropic, names, t))
  {
    hide ChatLane, ResponsesLane, AnthropicLane, DefaultLane, LoneLane;
    DefaultIsLone(Anthropic, names, t);
  }

  predicate IsPartText(names: seq<string>) {
    |names| == 6 && names[0] == "candidates" && names[2] == "content" && names[3] == "parts" && names[5] == "text"
  }

  predicate IsResultText(names: seq<string>) {
    |names| == 4 && names[0] == "result" && names[1] == "content" && names[3] == "text"
  }

  lemma {:induction false} SelectGemini(v: Json, names: seq<string>, t: nat)
    requires names != []
    ensures SelectLane(Some(Gemini), v, names, t) ==
            Ok(if IsPartText(names) then KeyLane(PartKey(names[1], names[4])) else LoneLane(Gemini, names, t))
  {
    hide ChatLane, ResponsesLane, AnthropicLane, DefaultLane, LoneLane;
    DefaultIsLone(Gemini, names, t);
  }

  lemma {:induction false} SelectMcp(v: Json, names: seq<string>, t: nat)
    requires names != []
    ensures SelectLane(Some(Mcp), v, names, t) ==
            Ok(if IsResultText(names) then KeyLane(McpKey(t)) else LoneLane(Mcp, names, t))
  {
    hide ChatLane, ResponsesLane, AnthropicLane, DefaultLane, LoneLane;
    DefaultIsLone(Mcp, names, t);
  }

  lemma {:induction false} NumberIffIndex(v: Option<Json>, text: string)
    ensures Index(v) == Ok(text) <==> IsNumber(v, text)
  {}

  lemma {:induction false} PartsApart(a: seq<string>, b: seq<string>)
    ensures Parts(a) == Parts(b) <==> a == b
  {
    if Parts(a) == Parts(b) {
      assert |a| == |Parts(a)| == |b|;
      forall i | 0 <= i < |a| ensures a[i] == b[i] {
        assert Parts(a)[i] == Parts(b)[i];
      }
    }
  }

  lemma {:induction false} ChatLaneOfNames(names: seq<string>)
    requires |names| >= 4 && names[0] == "choices" && names[2] == "delta"
    ensures ChatLane(names) ==
            if IsDeltaField(names[3..]) then Some(KeyLane(ChatKey(names[1], names[3..]))) else None
  {
    var rest := names[3..];
    assert |"function_call"| == 13 && |"tool_calls"| == 10 && |"content"| == 7 && |"refusal"| == 7;
    assert |"name"| == 4 && |"arguments"| == 9 && |"id"| == 2;
    assert rest[|rest| - 1] == Last(names) && rest[0] == names[3];
    if |rest| == 1 {
      assert rest == [names[3]];
      assert Parts(rest) == [S(names[3])];
      assert [S("chat"), S(names[1])] + [S(names[3])] == [S("chat"), S(names[1]), S(names[3])];
    }
  }

  lemma {:induction false} ChatKeysApart(k: Key, choice: string, rest: seq<string>)
    requires k.ChatKey?
    ensures KeyLane(k) == KeyLane(ChatKey(choice, rest)) <==> k == ChatKey(choice, rest)
  {
    var a, b := KeyLane(k).name, KeyLane(ChatKey(choice, rest)).name;
    if a == b {
      assert a[1] == b[1] && a[2..] == Parts(k.rest) && b[2..] == Parts(rest);
      PartsApart(k.rest, rest);
    }
  }

  lemma {:induction false} ChatCarried(k: Key, t: nat, v: Json, names: seq<string>)
    requires k.ChatKey? && |names| >= 4 && names[0] == "choices" && names[2] == "delta"
    ensures Carries(k, t, v, names) <==> IsDeltaField(names[3..]) && k == ChatKey(names[1], names[3..])
  {
    hide IsDeltaField;
    assert names == ["choices", names[1], "delta"] + names[3..];
    if Carries(k, t, v, names) {
      assert (["choices", k.choice, "delta"] + k.rest)[3..] == k.rest;
    }
  }

  lemma {:induction false} ChatKeyLane(k: Key, t: nat, v: Json, names: seq<string>)
    requires k.ChatKey? && names != []
    ensures SelectLane(Some(Chat), v, names, t) == Ok(KeyLane(k)) <==> Carries(k, t, v, names)
  {
    hide IsDeltaField, KeyLane, LoneLane, SelectLane, ChatLane, Carries;
    SelectChat(v, names, t);
    LoneIsNotKeyed(Chat, names, t, k);
    CarriedByChoice(k, t, v, names);
    if |names| >= 4 && names[0] == "choices" && names[2] == "delta" {
      ChatLaneOfNames(names);
      ChatKeysApart(k, names[1], names[3..]);
      ChatCarried(k, t, v, names);
    } else {
      NoChatLane(names);
    }
  }

  lemma {:induction false} CarriedByChoice(k: Key, t: nat, v: Json, names: seq<string>)
    requires k.ChatKey?
    ensures Carries(k, t, v, names) ==> |names| >= 4 && names[0] == "choices" && names[2] == "delta"
  {}

  lemma {:induction false} NoChatLane(names: seq<string>)
    requires !(|names| >= 4 && names[0] == "choices" && names[2] == "delta")
    ensures ChatLane(names) == None
  {}

  lemma {:induction false} BlockCarried(k: Key, t: nat, v: Json, names: seq<string>)
    requires k.BlockKey?
    ensures Carries(k, t, v, names) <==>
            Index(Lookup(v, "index")) == Ok(k.index) && (OfDelta(v, names, k.field) || OfStart(v, names, k.field))
  {
    hide Index, IsNumber, IsString;
    NumberIffIndex(Lookup(v, "index"), k.index);
  }

  lemma {:induction false} BlockKeyLane(k: Key, t: nat, v: Json, names: seq<string>)
    requires k.BlockKey? && names != []
    ensures SelectLane(Some(Anthropic), v, names, t) == Ok(KeyLane(k)) <==> Carries(k, t, v, names)
  {
    hide OfDelta, OfStart, AnthropicLane, Carries, Index, IsString, KeyLane, LoneLane, SelectLane;
    SelectAnthropic(v, names, t);
    LoneIsNotKeyed(Anthropic, names, t, k);
    AnthropicLaneIff(k, v, names);
    BlockCarried(k, t, v, names);
  }

  function BlockLane(index: Result<string>, field: string): Result<Lane> {
    match index
    case Ok(i) => Ok(KeyLane(BlockKey(i, field)))
    case Err(e) => Err(e)
  }

  lemma {:induction false} TypesOfBlocks(kind: Option<Json>)
    ensures !(IsString(kind, "content_block_delta") && IsString(kind, "content_block_start"))
  {
    assert "content_block_delta"[14] == 'd' && "content_block_start"[14] == 's';
  }

  lemma {:induction false} NamedBlock(index: Result<string>, field: string)
    ensures WithKind(AnthropicName(index, field), BlockKind(field)) == BlockLane(index, field)
    ensures BlockKind("text") == TextKind && BlockKind("thinking") == StructuralKind
    ensures IsBlockField(field) <==> field in ["text", "thinking", "partial_json", "signature"]
  {}

  lemma {:induction false} AnthropicDeltaLane(v: Json, names: seq<string>)
    requires names != [] && IsString(Lookup(v, "type"), "content_block_delta")
    ensures AnthropicLane(v, names) ==
            if |names| == 2 && names[0] == "delta" && IsBlockField(names[1])
            then Some(BlockLane(Index(Lookup(v, "index")), names[1])) else None
  {
    hide Index, Lookup, BlockLane, AnthropicName, WithKind, IsBlockField, BlockKind;
    TypesOfBlocks(Lookup(v, "type"));
    if |names| == 2 { NamedBlock(Index(Lookup(v, "index")), names[1]); }
  }

  predicate IsStartField(field: string) { field in ["text", "thinking"] }

  lemma {:induction false} StartNames(names: seq<string>)
    ensures names in [["content_block", "text"], ["content_block", "thinking"]] <==>
            |names| == 2 && names[0] == "content_block" && IsStartField(names[1])
  {
    if |names| == 2 { assert names == [names[0], names[1]]; }
  }

  lemma {:induction false} StartKind(field: string)
    requires IsStartField(field)
    ensures BlockKind(field) == if field == "thinking" then StructuralKind else TextKind
  {
    FieldsOfBlocks();
  }

  lemma {:induction false} AnthropicStartLane(v: Json, names: seq<string>)
    requires names != [] && IsString(Lookup(v, "type"), "content_block_start")
    ensures AnthropicLane(v, names) ==
            if |names| == 2 && names[0] == "content_block" && IsStartField(names[1])
            then Some(BlockLane(Index(Lookup(v, "index")), names[1])) else None
  {
    hide Index, Lookup, BlockLane, AnthropicName, WithKind, IsBlockField, BlockKind, IsStartField;
    TypesOfBlocks(Lookup(v, "type"));
    StartNames(names);
    if |names| == 2 && IsStartField(names[1]) {
      NamedBlock(Index(Lookup(v, "index")), names[1]);
      StartKind(names[1]);
    }
  }

  lemma {:induction false} FieldsOfBlocks()
    ensures |"text"| == 4 && |"thinking"| == 8 && |"partial_json"| == 12 && |"signature"| == 9
  {}

  lemma {:induction false} BlockKeysApart(a: Key, index: string, field: string)
    requires a.BlockKey?
    ensures KeyLane(a) == KeyLane(BlockKey(index, field)) <==> a == BlockKey(index, field)
  {
    var x, y := KeyLane(a).name, KeyLane(BlockKey(index, field)).name;
    if x == y { assert x[1] == y[1] && x[2] == y[2]; }
  }

  lemma {:induction false} NoAnthropicLane(v: Json, names: seq<string>)
    requires !IsString(Lookup(v, "type"), "content_block_delta") && !IsString(Lookup(v, "type"), "content_block_start")
    ensures AnthropicLane(v, names) == None
  {
    hide Index, Lookup;
  }

  predicate OfDelta(v: Json, names: seq<string>, field: string) {
    IsString(Lookup(v, "type"), "content_block_delta") && names == ["delta", field] && IsBlockField(field)
  }

  predicate OfStart(v: Json, names: seq<string>, field: string) {
    IsString(Lookup(v, "type"), "content_block_start") && names == ["content_block", field] && IsStartField(field)
  }

  lemma {:induction false} BlockLaneIff(k: Key, index: Result<string>, field: string)
    requires k.BlockKey?
    ensures BlockLane(index, field) == Ok(KeyLane(k)) <==> index == Ok(k.index) && field == k.field
  {
    hide KeyLane;
    if index.Ok? { BlockKeysApart(k, index.value, field); }
  }

  lemma {:induction false} DeltaLaneIff(k: Key, v: Json, names: seq<string>)
    requires k.BlockKey? && names != [] && IsString(Lookup(v, "type"), "content_block_delta")
    ensures AnthropicLane(v, names) == Some(Ok(KeyLane(k))) <==>
            Index(Lookup(v, "index")) == Ok(k.index) && OfDelta(v, names, k.field)
  {
    hide Index, Lookup, AnthropicLane, KeyLane, IsString, IsBlockField, BlockLane;
    AnthropicDeltaLane(v, names);
    if |names| == 2 {
      BlockLaneIff(k, Index(Lookup(v, "index")), names[1]);
      assert names == [names[0], names[1]];
    }
  }

  lemma {:induction false} StartLaneIff(k: Key, v: Json, names: seq<string>)
    requires k.BlockKey? && names != [] && IsString(Lookup(v, "type"), "content_block_start")
    ensures AnthropicLane(v, names) == Some(Ok(KeyLane(k))) <==>
            Index(Lookup(v, "index")) == Ok(k.index) && OfStart(v, names, k.field)
  {
    hide Index, Lookup, AnthropicLane, KeyLane, IsString, IsStartField, BlockLane;
    AnthropicStartLane(v, names);
    if |names| == 2 {
      BlockLaneIff(k, Index(Lookup(v, "index")), names[1]);
      assert names == [names[0], names[1]];
    }
  }

  lemma {:induction false} AnthropicLaneIff(k: Key, v: Json, names: seq<string>)
    requires k.BlockKey? && names != []
    ensures AnthropicLane(v, names) == Some(Ok(KeyLane(k))) <==>
            Index(Lookup(v, "index")) == Ok(k.index) && (OfDelta(v, names, k.field) || OfStart(v, names, k.field))
  {
    hide Index, Lookup, AnthropicLane, KeyLane, IsString, IsBlockField;
    TypesOfBlocks(Lookup(v, "type"));
    if IsString(Lookup(v, "type"), "content_block_delta") {
      DeltaLaneIff(k, v, names);
    } else if IsString(Lookup(v, "type"), "content_block_start") {
      StartLaneIff(k, v, names);
    } else {
      NoAnthropicLane(v, names);
    }
  }

  lemma {:induction false} PartLaneOfNames(k: Key, t: nat, v: Json, names: seq<string>)
    requires k.PartKey?
    ensures Carries(k, t, v, names) <==>
              IsPartText(names) && KeyLane(PartKey(names[1], names[4])) == KeyLane(k)
  {
    if |names| == 6 {
      assert names == [names[0], names[1], names[2], names[3], names[4], names[5]];
      var lane := KeyLane(PartKey(names[1], names[4]));
      assert lane == KeyLane(k) ==> lane.name[1] == KeyLane(k).name[1] && lane.name[2] == KeyLane(k).name[2];
    }
  }

  lemma {:induction false} PartKeyLane(k: Key, t: nat, v: Json, names: seq<string>)
    requires k.PartKey? && names != []
    ensures SelectLane(Some(Gemini), v, names, t) == Ok(KeyLane(k)) <==> Carries(k, t, v, names)
  {
    hide Carries, KeyLane, LoneLane, SelectLane;
    SelectGemini(v, names, t);
    LoneIsNotKeyed(Gemini, names, t, k);
    PartLaneOfNames(k, t, v, names);
  }

  lemma {:induction false} McpLaneOfNames(k: Key, t: nat, v: Json, names: seq<string>)
    requires k.McpKey?
    ensures Carries(k, t, v, names) <==>
              IsResultText(names) && KeyLane(McpKey(t)) == KeyLane(k)
  {
    if |names| == 4 {
      assert names[..2] == [names[0], names[1]];
      var lane := KeyLane(McpKey(t));
      assert lane == KeyLane(k) ==> lane.name[1] == KeyLane(k).name[1];
    }
  }

  lemma {:induction false} McpKeyLane(k: Key, t: nat, v: Json, names: seq<string>)
    requires k.McpKey? && names != []
    ensures SelectLane(Some(Mcp), v, names, t) == Ok(KeyLane(k)) <==> Carries(k, t, v, names)
  {
    hide Carries, KeyLane, LoneLane, SelectLane;
    SelectMcp(v, names, t);
    LoneIsNotKeyed(Mcp, names, t, k);
    McpLaneOfNames(k, t, v, names);
  }

  /** The three kinds of events that carry a Responses delta, one at a time. */
  lemma {:induction false} DeltaEventLane(k: Key, v: Json, names: seq<string>)
    requires k.ResponsesKey? && names == ["delta"]
    requires exists kind | kind in ["response.output_text.delta", "response.refusal.delta",
                                    "response.function_call_arguments.delta"] :: IsString(Lookup(v, "type"), kind)
    ensures ResponsesLane(v, names) == Some(Ok(KeyLane(k))) <==>
              && IsString(Lookup(v, "type"), k.delta) && IsString(Lookup(v, "item_id"), k.item)
              && Index(Lookup(v, "output_index")) == Ok(k.output) && StrOf(Lookup(v, "content_index")) == k.content
  {
    hide Index, StrOf;
    TypesApart();
  }

  lemma {:induction false} TypesApart()
    ensures |"response.output_text.delta"| == 26 && |"response.refusal.delta"| == 22
    ensures |"response.function_call_arguments.delta"| == 38
    ensures |"response.output_item.added"| == 26 && |"response.content_part.added"| == 27
    ensures "response.output_text.delta"[16] == 't' && "response.output_item.added"[16] == 'i'
  {}

  lemma {:induction false} AddedItemLane(k: Key, v: Json, names: seq<string>)
    requires k.ResponsesKey? && names == ["item", "arguments"]
    requires IsString(Lookup(v, "type"), "response.output_item.added")
    ensures ResponsesLane(v, names) == Some(Ok(KeyLane(k))) <==>
              && k.delta == "response.function_call_arguments.delta" && k.content == ""
              && IsString(Within(v, "item", "id"), k.item) && Index(Lookup(v, "output_index")) == Ok(k.output)
  {
    hide Index;
    TypesApart();
  }

  lemma {:induction false} AddedPartLane(k: Key, v: Json, names: seq<string>)
    requires k.ResponsesKey? && IsString(Lookup(v, "type"), "response.content_part.added")
    requires names in [["part", "text"], ["part", "refusal"]]
    ensures ResponsesLane(v, names) == Some(Ok(KeyLane(k))) <==>
              && k.delta == (if names == ["part", "text"] then "response.output_text.delta"
                             else "response.refusal.delta")
              && IsString(Lookup(v, "item_id"), k.item) && Index(Lookup(v, "output_index")) == Ok(k.output)
              && Index(Lookup(v, "content_index")) == Ok(k.content)
  {
    hide Index;
    TypesApart();
    assert "text"[0] == 't' && "refusal"[0] == 'r' && |"text"| == 4 && |"refusal"| == 7;
  }

  predicate IsDeltaType(kind: string) {
    kind in ["response.output_text.delta", "response.refusal.delta", "response.function_call_arguments.delta"]
  }

  lemma {:induction false} NoResponsesLane(v: Json, names: seq<string>)
    requires names != []
    requires !(names == ["delta"] && exists kind | IsDeltaType(kind) :: IsString(Lookup(v, "type"), kind))
    requires !(IsString(Lookup(v, "type"), "response.output_item.added") && names == ["item", "arguments"])
    requires !(IsString(Lookup(v, "type"), "response.content_part.added") &&
               names in [["part", "text"], ["part", "refusal"]])
    ensures ResponsesLane(v, names) == None
  {
    var kind := Lookup(v, "type");
    if kind.Some? && kind.value.Str? && names == ["delta"] { assert IsString(kind, kind.value.s); }
  }

  lemma {:induction false} DeltaCarried(k: Key, t: nat, v: Json, names: seq<string>)
    requires k.ResponsesKey? && names == ["delta"]
    ensures Carries(k, t, v, names) <==>
              && IsDeltaType(k.delta) && IsString(Lookup(v, "type"), k.delta) && IsString(Lookup(v, "item_id"), k.item)
              && IsNumber(Lookup(v, "output_index"), k.output) && StrOf(Lookup(v, "content_index")) == k.content
  {
    hide IsNumber, StrOf;
  }

  lemma {:induction false} AddedItemCarried(k: Key, t: nat, v: Json, names: seq<string>)
    requires k.ResponsesKey? && names == ["item", "arguments"]
    ensures Carries(k, t, v, names) <==>
              && IsString(Lookup(v, "type"), "response.output_item.added")
              && k.delta == "response.function_call_arguments.delta" && k.content == ""
              && IsString(Within(v, "item", "id"), k.item) && IsNumber(Lookup(v, "output_index"), k.output)
  {
    hide IsNumber, StrOf, Within;
    assert "part"[0] == 'p' && "item"[0] == 'i';
  }

  lemma {:induction false} AddedPartCarried(k: Key, t: nat, v: Json, names: seq<string>)
    requires k.ResponsesKey? && names in [["part", "text"], ["part", "refusal"]]
    ensures Carries(k, t, v, names) <==>
              && IsString(Lookup(v, "type"), "response.content_part.added")
              && k.delta == (if names == ["part", "text"] then "response.output_text.delta"
                             else "response.refusal.delta")
              && IsString(Lookup(v, "item_id"), k.item) && IsNumber(Lookup(v, "output_index"), k.output)
              && IsNumber(Lookup(v, "content_index"), k.content)
  {
    hide IsNumber, StrOf, Within;
    assert "part"[0] == 'p' && "item"[0] == 'i' && "text"[0] == 't' && "refusal"[0] == 'r';
  }

  lemma {:induction false} NotCarried(k: Key, t: nat, v: Json, names: seq<string>)
    requires k.ResponsesKey? && names !in [["delta"], ["item", "arguments"], ["part", "text"], ["part", "refusal"]]
    ensures !Carries(k, t, v, names) && ResponsesLane(v, names) == None
  {}

  /** With a lane of its own: exactly the one of the text that the leaf carries a piece of. */
  lemma {:induction false} ResponsesLaneIff(k: Key, t: nat, v: Json, names: seq<string>)
    requires k.ResponsesKey? && names != []
    ensures ResponsesLane(v, names) == Some(Ok(KeyLane(k))) <==> Carries(k, t, v, names)
  {
    hide KeyLane, ResponsesLane, Carries, StrOf, Index, IsNumber, Within;
    NumberIffIndex(Lookup(v, "output_index"), k.output);
    NumberIffIndex(Lookup(v, "content_index"), k.content);
    TypesApart();
    assert "part"[0] == 'p' && "item"[0] == 'i';
    if names == ["delta"] {
      DeltaCarried(k, t, v, names);
      if exists kind | IsDeltaType(kind) :: IsString(Lookup(v, "type"), kind) {
        DeltaEventLane(k, v, names);
      } else {
        NoResponsesLane(v, names);
      }
    } else if names == ["item", "arguments"] {
      AddedItemCarried(k, t, v, names);
      if IsString(Lookup(v, "type"), "response.output_item.added") {
        AddedItemLane(k, v, names);
      } else {
        NoResponsesLane(v, names);
      }
    } else if names in [["part", "text"], ["part", "refusal"]] {
      AddedPartCarried(k, t, v, names);
      if IsString(Lookup(v, "type"), "response.content_part.added") {
        AddedPartLane(k, v, names);
      } else {
        NoResponsesLane(v, names);
      }
    } else {
      NotCarried(k, t, v, names);
    }
  }

  lemma {:induction false} ResponsesKeyLane(k: Key, t: nat, v: Json, names: seq<string>)
    requires k.ResponsesKey? && names != []
    ensures SelectLane(Some(Responses), v, names, t) == Ok(KeyLane(k)) <==> Carries(k, t, v, names)
  {
    hide Carries, KeyLane, LoneLane, ResponsesLane, SelectLane;
    SelectResponses(v, names, t);
    LoneIsNotKeyed(Responses, names, t, k);
    ResponsesLaneIff(k, t, v, names);
  }

  /** A leaf is in the lane of a client's text exactly when it carries a piece of that text. */
  lemma {:induction false} LaneIffCarries(k: Key, t: nat, v: Json, names: seq<string>)
    requires names != []
    ensures SelectLane(Some(FamilyOfKey(k)), v, names, t) == Ok(KeyLane(k)) <==> Carries(k, t, v, names)
  {
    hide KeyLane, Carries, SelectLane;
    match k
    case ChatKey(_, _) => ChatKeyLane(k, t, v, names);
    case ResponsesKey(_, _, _, _) => ResponsesKeyLane(k, t, v, names);
    case BlockKey(_, _) => BlockKeyLane(k, t, v, names);
    case PartKey(_, _) => PartKeyLane(k, t, v, names);
    case McpKey(_) => McpKeyLane(k, t, v, names);
  }

  /** Two texts never share a lane. */
  lemma {:induction false} KeysApart(a: Key, b: Key)
    requires a != b
    ensures KeyLane(a) != KeyLane(b)
  {
    assert |"chat"| == 4 && |"responses"| == 9 && |"anthropic"| == 9 && |"gemini"| == 6 && |"mcp"| == 3;
    assert "responses"[0] == 'r' && "anthropic"[0] == 'a';
    if a.ChatKey? && b.ChatKey? {
      ChatKeysApart(a, b.choice, b.rest);
    } else {
      assert KeyLane(a).name[0].s == KeyLane(b).name[0].s ==> FamilyOfKey(a) == FamilyOfKey(b);
    }
  }
}
