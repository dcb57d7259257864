/** The redacted streams that frame to one event more.

    An empty line at the end of the last block changes nothing for the checks: it is neither data
    nor metadata.  It does change the print, which moves the data line behind the kept lines: the
    empty one then stands inside the event and splits it.  So one more newline at the end of any
    redacted stream is enough, when its last event carries JSON and has another line; and a reply
    of an MCP server, as servers send it, is such a stream. */
module SseBreaking {
  import opened Sequences
  import opened Wrappers
  import opened Json
  import opened Spans
  import opened RedactJson
  import opened SseLanes
  import opened SseRewrite
  import opened StreamAutomata
  import opened SsePipeline
  import Sse
  import L = Lanes

  // ---- One more newline ----

  /** The events when the last block ends with one more, empty, line. */
  function WithBlank(events: seq<seq<string>>): seq<seq<string>>
    requires events != []
  {
    events[|events| - 1 := events[|events| - 1] + [""]]
  }

  lemma {:induction false} BlankLine()
    ensures Sse.FieldName("") == "" && !Sse.IsData("")
    ensures Sse.Kept([""]) == [""] && Sse.DataLines([""]) == []
  {
    Sse.KeptOne("");
  }

  lemma {:induction false} NothingFound(env: Env)
    requires Sound(env)
    ensures env.find("") == []
  {
    FirstInRange(env.find(""), |""|);
  }

  lemma {:induction false} FirstInRange(fs: seq<Finding>, size: nat)
    requires InRange(fs, size)
    ensures fs != [] ==> size > 0
  {
    if fs != [] { assert fs[0].start < fs[0].end <= size; }
  }

  lemma {:induction false} BlankIsNoMetadata(env: Env, lines: seq<string>)
    requires Sound(env) && !env.screen(Str(""))
    ensures Metadata(env, lines + [""]) == Metadata(env, lines)
  {
    hide Sse.Contents;
    BlankLine();
    NothingFound(env);
    assert (lines + [""])[..|lines|] == lines;
    assert forall fields :: ReadLine(env, fields, "") == Ok(fields);
  }

  lemma {:induction false} BlankIsNoData(lines: seq<string>)
    ensures Sse.Data(lines + [""]) == Sse.Data(lines)
  {
    BlankLine();
    Sse.KeptConcat(lines, [""]);
    ConcatNothing(Sse.DataLines(lines));
  }

  /** An empty line is neither data nor metadata. */
  lemma {:induction false} BlankLineIsIgnored(env: Env, provider: Option<string>, g: Gathered, lines: seq<string>)
    requires Sound(env) && !env.screen(Str(""))
    ensures Absorb(env, provider, g, lines + [""]) == Absorb(env, provider, g, lines)
  {
    hide Metadata, Sse.Data, Observe, AbsorbValue;
    BlankIsNoMetadata(env, lines);
    BlankIsNoData(lines);
  }

  lemma {:induction false} BlankLineChangesNothing(env: Env, provider: Option<string>, events: seq<seq<string>>)
    requires Sound(env) && !env.screen(Str("")) && events != []
    ensures RedactEvents(env, provider, WithBlank(events)) == RedactEvents(env, provider, events)
  {
    hide Absorb, RewriteLanes, EndsWell;
    var n := |events| - 1;
    assert WithBlank(events)[..n] == events[..n];
    if Gather(env, provider, events[..n]).Ok? {
      BlankLineIsIgnored(env, provider, Gather(env, provider, events[..n]).value, events[n]);
    }
  }

  lemma {:induction false} SplitBlankJoins(s: string)
    ensures Sse.JoinBlank(Sse.SplitBlank(s)) == s
    decreases |s|
  {
    hide Sse.FindBlank, Sse.JoinBlank;
    var k := Sse.FindBlank(s);
    if k < |s| {
      SplitBlankJoins(s[k + 2..]);
      BlankSplits(s, k);
      JoinBlankFirst(s[..k], Sse.SplitBlank(s[k + 2..]));
    } else {
      JoinBlankOne(s);
    }
  }

  lemma {:induction false} BlankSplits(s: string, k: nat)
    requires Sse.BlankAt(s, k)
    ensures s == s[..k] + "\n\n" + s[k + 2..]
  {}

  lemma {:induction false} JoinBlankOne(p: string)
    ensures Sse.JoinBlank([p]) == p
  {}

  lemma {:induction false} JoinBlankFirst(first: string, rest: seq<string>)
    requires rest != []
    ensures Sse.JoinBlank([first] + rest) == first + "\n\n" + Sse.JoinBlank(rest)
  {
    assert ([first] + rest)[1..] == rest;
  }

  lemma {:induction false} JoinLastGrows(ps: seq<string>, more: string)
    requires ps != []
    ensures Sse.JoinBlank(ps[|ps| - 1 := ps[|ps| - 1] + more]) == Sse.JoinBlank(ps) + more
  {
    var grown := ps[|ps| - 1 := ps[|ps| - 1] + more];
    if |ps| > 1 {
      JoinLastGrows(ps[1..], more);
      assert grown[1..] == ps[1..][|ps| - 2 := ps[|ps| - 1] + more];
    }
  }

  /** A piece that does not end a line, and a newline: one empty line more. */
  lemma {:induction false} PieceWithNewline(p: string)
    requires Sse.NoBlank(p) && !Sse.EndsBlank(Sse.SplitLines(p))
    ensures Sse.NoBlank(p + "\n") && Sse.SplitLines(p + "\n") == Sse.SplitLines(p) + [""]
  {
    hide Sse.NoBlank, Sse.SplitLines, Sse.FindBlank;
    var lines := Sse.SplitLines(p);
    Sse.SplitLinesAreLines(p);
    Sse.JoinLinesConcat(lines, [""]);
    assert p + "\n" + Sse.JoinLines([""]) == p + "\n";
    Sse.SplitOfJoinedLines(lines + [""]);
    Sse.JoinedHasBlankIff(lines);
    Sse.JoinedHasBlankIff(lines + [""]);
    assert forall i | 0 < i < |lines| - 1 :: (lines + [""])[i] == lines[i];
  }

  lemma {:induction false} NewlineFrames(text: string)
    requires |text| >= 2 && text[|text| - 2..] == "\n\n" && !Sse.EndsBlank(Sse.Frame(text)[|Sse.Frame(text)| - 1])
    ensures Sse.Frame(text + "\n") == WithBlank(Sse.Frame(text))
  {
    hide Sse.SplitBlank, Sse.SplitLines, Sse.NoBlank, Sse.EndsBlank;
    var s := text[..|text| - 2];
    var ps := Sse.SplitBlank(s);
    var grown := ps[|ps| - 1 := ps[|ps| - 1] + "\n"];
    Sse.SplitBlankIsPieces(s);
    SplitBlankJoins(s);
    JoinLastGrows(ps, "\n");
    PieceWithNewline(ps[|ps| - 1]);
    Sse.SplitOfJoinedPieces(grown);
    assert text == s + "\n\n";
    assert (text + "\n")[..|text| - 1] == s + "\n";
  }

  // ---- Texts that normalisation leaves alone ----

  predicate Unixy(text: string) { '\r' !in text && (text == "" || text[0] != '\U{FEFF}') }

  lemma {:induction false} UnixLinesStay(text: string)
    requires '\r' !in text
    ensures UnixLines(text) == text
  {
    if text != "" { UnixLinesStay(text[1..]); }
  }

  predicate Ends(text: string) { |text| >= 2 && text[|text| - 2..] == "\n\n" && '\0' !in text }

  /** A stream that is accepted and has something to redact. */
  ghost predicate Redacted(env: Env, provider: Option<string>, text: string) {
    && Unixy(text) && Ends(text) && RedactEvents(env, provider, Sse.Frame(text)).Ok?
    && SomethingToRedact(env, provider, Sse.Frame(text))
  }

  function TreesOf(env: Env, provider: Option<string>, text: string): Trees
    requires Ends(text) && RedactEvents(env, provider, Sse.Frame(text)).Ok?
  {
    RedactEvents(env, provider, Sse.Frame(text)).value.trees
  }

  lemma {:induction false} FramesCount(again: seq<seq<string>>, events: seq<seq<string>>, trees: Trees)
    requires |trees| == |events| && FramesAs(again, events, trees)
    ensures |again| == |events| + if LastBlockBreaks(events, trees) then 1 else 0
  {}

  /** How many events the answer to a stream with something to redact frames to. */
  lemma {:induction false} AnswerFrames(env: Env, provider: Option<string>, text: string)
    requires Redacted(env, provider, text)
    ensures RedactSse(env, provider, text).Ok? && |RedactSse(env, provider, text).value| >= 2
    ensures var events, trees := Sse.Frame(text), TreesOf(env, provider, text);
            && |trees| == |events|
            && |Sse.Frame(RedactSse(env, provider, text).value)| ==
               |events| + if LastBlockBreaks(events, trees) then 1 else 0
  {
    hide Sse.Frame, Sse.PrintedAll, AnyHits, RedactEvents, UnixLines, FramesAs, LastBlockBreaks;
    UnixLinesStay(text);
    BodyIsRedacted(env, provider, text);
    RedactedStreamFramesAgain(env, provider, text);
    var events, trees := Sse.Frame(text), TreesOf(env, provider, text);
    FramesCount(Sse.Frame(Sse.Print(Printable(events, trees))), events, trees);
  }

  /** The last event carries JSON, has another line, and does not end with an empty one. */
  predicate LastMayBreak(events: seq<seq<string>>, trees: Trees) {
    && events != [] && |trees| == |events| && trees[|events| - 1].Some?
    && !Sse.EndsBlank(events[|events| - 1]) && Sse.Kept(events[|events| - 1]) != []
  }

  lemma {:induction false} BlankBreaksLast(events: seq<seq<string>>, trees: Trees)
    requires LastMayBreak(events, trees)
    ensures LastBlockBreaks(WithBlank(events), trees) && !LastBlockBreaks(events, trees)
  {
    BlankLine();
    Sse.KeptConcat(events[|events| - 1], [""]);
  }

  /** Every stream that is redacted, and whose last event carries JSON beside another line, breaks
      when it ends with one more newline: it is still accepted, with the same events, but what is
      printed frames to one event more. */
  lemma {:induction false} OneMoreNewlineBreaks(env: Env, provider: Option<string>, text: string)
    requires Sound(env) && !env.screen(Str("")) && Redacted(env, provider, text)
    requires LastMayBreak(Sse.Frame(text), TreesOf(env, provider, text))
    ensures var before, after := RedactSse(env, provider, text), RedactSse(env, provider, text + "\n");
            && before.Ok? && |before.value| >= 2 && |Sse.Frame(before.value)| == |Sse.Frame(text)|
            && after.Ok? && |after.value| >= 2 && |Sse.Frame(after.value)| == |Sse.Frame(text + "\n")| + 1
            && |Sse.Frame(text + "\n")| == |Sse.Frame(text)|
  {
    hide Sse.Frame, AnyHits, RedactEvents, LastBlockBreaks, RedactSse, WithBlank;
    LastOf(env, provider, text);
    NewlineFrames(text);
    WithBlankCount(Sse.Frame(text));
    BlankLineChangesNothing(env, provider, Sse.Frame(text));
    BlankBreaksLast(Sse.Frame(text), TreesOf(env, provider, text));
    AnswerFrames(env, provider, text);
    assert Redacted(env, provider, text + "\n");
    AnswerFrames(env, provider, text + "\n");
  }

  lemma {:induction false} LastOf(env: Env, provider: Option<string>, text: string)
    requires Ends(text) && RedactEvents(env, provider, Sse.Frame(text)).Ok?
    requires LastMayBreak(Sse.Frame(text), TreesOf(env, provider, text))
    ensures Sse.Frame(text) != [] && !Sse.EndsBlank(Sse.Frame(text)[|Sse.Frame(text)| - 1])
  {}

  lemma {:induction false} WithBlankCount(events: seq<seq<string>>)
    requires events != []
    ensures |WithBlank(events)| == |events| && WithBlank(events) != []
  {}

  // ---- A stream that breaks ----

  const SECRET := "a@b.example"
  const ITEM := Obj([("type", Str("text")), ("text", Str(SECRET))])
  const CONTENT := Arr([ITEM])
  const RESULT := Obj([("content", CONTENT)])

  /** The reply of an MCP server with one text item. */
  const REPLY := Obj([("jsonrpc", Str("2.0")), ("result", RESULT)])

  const EVENT_LINE := "event: message"
  const LINES: seq<string> := [EVENT_LINE, Sse.DataLine(Encode(REPLY))]
  const BODY: string := Sse.JoinLines(LINES) + "\n\n"

  /** A detector that knows one address, and a parser that knows this reply. */
  function Surroundings(): Env {
    Env(s => if s == SECRET then [Finding("EMAIL_ADDRESS", 0, |SECRET|)] else [],
        s => if s == Encode(REPLY) then Some(REPLY) else None, _ => false, Redact)
  }

  lemma {:induction false} Finds(s: string)
    ensures |s| != 11 ==> Surroundings().find(s) == []
    ensures Surroundings().find(SECRET) != []
    ensures Sound(Surroundings())
  {
    assert |SECRET| == 11;
  }

  predicate Harmless(v: Json) { v.Obj? && !Unhashable(Lookup(v, "type")) && !IsEncodedPayload(v) }

  /** Collecting the two members of an object. */
  lemma {:induction false} CollectPair(env: Env, c: Context, v: Json, place: Path, path: seq<string>)
    requires Harmless(v) && |v.fields| == 2
    requires forall k | 0 <= k < 2 :: v.fields[k].0 != "logprobs" && env.find(v.fields[k].0) == []
    requires forall k | 0 <= k < 2 :: Collect(env, c, v.fields[k].1, place + [k], path + [v.fields[k].0]).Ok?
    ensures Collect(env, c, v, place, path) ==
            Ok(Collect(env, c, v.fields[0].1, place + [0], path + [v.fields[0].0]).value +
               Collect(env, c, v.fields[1].1, place + [1], path + [v.fields[1].0]).value)
  {
    hide IsEncodedPayload, SelectLane;
    var none: set<string> := {};
    assert CollectFrom(env, c, v, place, path, 2, none) == Ok([]);
    var second := Collect(env, c, v.fields[1].1, place + [1], path + [v.fields[1].0]).value;
    assert CollectFrom(env, c, v, place, path, 1, none) == Ok(second + []);
    ConcatNothing(second);
  }

  lemma {:induction false} CollectSingle(env: Env, c: Context, v: Json, place: Path, path: seq<string>)
    requires Harmless(v) && |v.fields| == 1 && v.fields[0].0 != "logprobs" && env.find(v.fields[0].0) == []
    requires Collect(env, c, v.fields[0].1, place + [0], path + [v.fields[0].0]).Ok?
    ensures Collect(env, c, v, place, path) == Collect(env, c, v.fields[0].1, place + [0], path + [v.fields[0].0])
  {
    hide IsEncodedPayload, SelectLane;
    var none: set<string> := {};
    assert CollectFrom(env, c, v, place, path, 1, none) == Ok([]);
    ConcatNothing(Collect(env, c, v.fields[0].1, place + [0], path + [v.fields[0].0]).value);
  }

  lemma {:induction false} CollectOne(env: Env, c: Context, v: Json, place: Path, path: seq<string>)
    requires v.Arr? && |v.items| == 1 && !Numbered(c.family, path)
    requires path != [] && Collect(env, c, v.items[0], place + [0], path + ["0"]).Ok?
    ensures Collect(env, c, v, place, path) == Collect(env, c, v.items[0], place + [0], path + ["0"])
  {
    hide IsEncodedPayload, SelectLane;
    var none: set<string> := {};
    assert Decimal(0) == "0";
    assert CollectFrom(env, c, v, place, path, 1, none) == Ok([]);
    ConcatNothing(Collect(env, c, v.items[0], place + [0], path + ["0"]).value);
  }

  /** Looking a key up among one or two members. */
  lemma {:induction false} GetOf(fields: seq<(string, Json)>, key: string)
    requires 1 <= |fields| <= 2
    ensures Get(fields, key) == if fields[0].0 == key then Some(fields[0].1)
                                else if |fields| == 2 && fields[1].0 == key then Some(fields[1].1) else None
  {
    if |fields| == 2 {
      GetOf(fields[1..], key);
    } else {
      assert fields[1..] == [];
    }
  }

  lemma {:induction false} ItemIsHarmless()
    ensures Harmless(ITEM)
  {
    NoEncodedKey("type");
    NoEncodedKey("text");
    assert |"text"| == 4 && |"image"| == 5 && |"audio"| == 5 && |"redacted_thinking"| == 17;
    assert Lookup(ITEM, "type") == Some(Str("text"));
  }

  lemma {:induction false} ResultIsHarmless()
    ensures Harmless(RESULT)
  {
    NoEncodedKey("content");
    assert |"type"| == 4 && |"content"| == 7;
    GetOf([("content", CONTENT)], "type");
  }

  lemma {:induction false} ReplyIsHarmless()
    ensures Harmless(REPLY)
  {
    NoEncodedKey("jsonrpc");
    NoEncodedKey("result");
    assert |"type"| == 4 && |"jsonrpc"| == 7 && |"result"| == 6;
    GetOf([("jsonrpc", Str("2.0")), ("result", RESULT)], "type");
  }

  lemma {:induction false} NoEncodedKey(key: string)
    requires |key| < 8
    ensures key !in ENCODED_KEYS
  {
    assert |"encrypted_content"| > 8 && |"inlineData"| > 8 && |"fileData"| == 8;
    assert |"thoughtSignature"| > 8 && |"partialArgs"| > 8;
  }

  const WHERE := Context(Some(Mcp), REPLY, 0, None)

  const VERSION := Entry(DefaultLane(["jsonrpc"], 0), Ref(0, [0]), "2.0")
  const KIND := Entry(DefaultLane(["result", "content", "0", "type"], 0), Ref(0, [1, 0, 0, 0]), "text")
  const TEXT := Entry(Lane([S("mcp"), N(0), S("content_text")], TextKind), Ref(0, [1, 0, 0, 1]), SECRET)

  /** The names in the reply are not suspicious. */
  lemma {:induction false} PlainKey(key: string)
    requires |key| < 8
    ensures key != "logprobs" && Surroundings().find(key) == []
  {
    assert |"logprobs"| == 8;
    Finds(key);
  }

  lemma {:induction false} CollectItem()
    ensures Collect(Surroundings(), WHERE, ITEM, [1, 0, 0], ["result", "content", "0"]) == Ok([KIND, TEXT])
  {
    hide Surroundings, Collect;
    var env, path := Surroundings(), ["result", "content", "0"];
    ItemIsHarmless();
    PlainKey("type");
    PlainKey("text");
    ItemLeaves();
    assert path + ["type"] == ["result", "content", "0", "type"] && [1, 0, 0] + [0] == [1, 0, 0, 0];
    assert path + ["text"] == ["result", "content", "0", "text"] && [1, 0, 0] + [1] == [1, 0, 0, 1];
    CollectPair(env, WHERE, ITEM, [1, 0, 0], path);
    assert [KIND] + [TEXT] == [KIND, TEXT];
  }

  lemma {:induction false} ItemLeaves()
    ensures Collect(Surroundings(), WHERE, Str("text"), [1, 0, 0, 0], ["result", "content", "0", "type"]) == Ok([KIND])
    ensures Collect(Surroundings(), WHERE, Str(SECRET), [1, 0, 0, 1], ["result", "content", "0", "text"]) == Ok([TEXT])
  {
    assert "type"[1] == 'y' && "text"[1] == 'e';
  }

  lemma {:induction false} CollectResult()
    ensures Collect(Surroundings(), WHERE, RESULT, [1], ["result"]) == Ok([KIND, TEXT])
  {
    hide Surroundings, Collect;
    var env := Surroundings();
    ResultIsHarmless();
    PlainKey("content");
    CollectItem();
    assert ["result", "content"] + ["0"] == ["result", "content", "0"] && [1, 0] + [0] == [1, 0, 0];
    CollectOne(env, WHERE, CONTENT, [1, 0], ["result", "content"]);
    assert ["result"] + ["content"] == ["result", "content"] && [1] + [0] == [1, 0];
    CollectSingle(env, WHERE, RESULT, [1], ["result"]);
  }

  /** The three strings of the reply, and the lanes they go to. */
  lemma {:induction false} CollectReply()
    ensures Collect(Surroundings(), WHERE, REPLY, [], []) == Ok([VERSION, KIND, TEXT])
  {
    hide Surroundings, Collect;
    var env := Surroundings();
    ReplyIsHarmless();
    PlainKey("jsonrpc");
    PlainKey("result");
    CollectResult();
    VersionLeaf();
    assert [] + ["jsonrpc"] == ["jsonrpc"] && [] + ["result"] == ["result"] && [] + [0] == [0] && [] + [1] == [1];
    CollectPair(env, WHERE, REPLY, [], []);
    assert [VERSION] + [KIND, TEXT] == [VERSION, KIND, TEXT];
  }

  lemma {:induction false} VersionLeaf()
    ensures Collect(Surroundings(), WHERE, Str("2.0"), [0], ["jsonrpc"]) == Ok([VERSION])
  {}

  /** The reply is an MCP message that passes the protocol checks. */
  lemma {:induction false} ReplyIsMcp()
    ensures Observe(START, Payload(REPLY, Some("message"))) == Some(START.(family := Some(Mcp)))
    ensures Defaulted(REPLY) == REPLY
  {
    var fields := [("jsonrpc", Str("2.0")), ("result", RESULT)];
    assert "choices"[0] == 'c' && "jsonrpc"[0] == 'j' && |"result"| == 6 && |"jsonrpc"| == 7;
    GetOf(fields, "choices");
    GetOf(fields, "type");
    assert |"candidates"| == 10 && |"usageMetadata"| == 13;
    GetOf(fields, "candidates");
    GetOf(fields, "usageMetadata");
    GetOf(fields, "jsonrpc");
    GetOf(fields, "result");
    assert FamilyOf(REPLY) == Some(Mcp);
  }

  /** A field and its contents. */
  lemma {:induction false} FieldOf(name: string, contents: string)
    requires ':' !in name
    ensures var line := name + ": " + contents; Sse.FieldName(line) == name && Sse.Contents(line) == contents
  {
    var line := name + ": " + contents;
    var k := Sse.FindColon(line);
    assert line[|name|] == ':' && line[|name| + 1] == ' ' && line[|name| + 2..] == contents && line[..|name|] == name;
    assert forall i | 0 <= i < |name| :: line[i] == name[i] && name[i] in name;
    assert forall i | 0 <= i < k :: line[i] in line[..k];
  }

  lemma {:induction false} EventLineRead()
    ensures !Sse.IsData(EVENT_LINE)
    ensures ReadLine(Surroundings(), map[], EVENT_LINE) == Ok(map["event" := "message"])
  {
    assert EVENT_LINE == "event" + ": " + "message" && |EVENT_LINE| == 14;
    FieldOf("event", "message");
    assert |"event"| == 5 && |"data"| == 4 && "retry"[0] == 'r';
    Finds(EVENT_LINE);
  }

  /** Reading one line of metadata and one of data. */
  lemma {:induction false} TwoLines(env: Env, line: string, data: string)
    requires !Sse.IsData(line)
    ensures Metadata(env, [line, Sse.DataLine(data)]) == ReadLine(env, map[], line)
    ensures Sse.Data([line, Sse.DataLine(data)]) == data && Sse.Kept([line, Sse.DataLine(data)]) == [line]
  {
    hide ReadLine, Sse.IsData, Sse.Contents, Sse.DataLine;
    var last := Sse.DataLine(data);
    Sse.DataLineIsData(data);
    assert [line, last][..1] == [line] && [line][..0] == [] && [line, last] == [line] + [last];
    assert Metadata(env, []) == Ok(map[]);
    assert Metadata(env, [line]) == ReadLine(env, map[], line);
    Sse.KeptConcat([line], [last]);
    Sse.KeptOne(line);
    Sse.KeptOne(last);
  }

  lemma {:induction false} LinesRead()
    ensures Metadata(Surroundings(), LINES) == Ok(map["event" := "message"])
    ensures Sse.Data(LINES) == Encode(REPLY)
    ensures Sse.Kept(LINES) == [EVENT_LINE]
  {
    hide Encode, Metadata, Sse.Data, Sse.Kept, ReadLine;
    EventLineRead();
    TwoLines(Surroundings(), EVENT_LINE, Encode(REPLY));
  }

  lemma {:induction false} EncodedReply()
    ensures Encode(REPLY) != "" && Encode(REPLY) != "[DONE]" && Plain(Encode(REPLY))
  {
    EncodeIsPlain(REPLY);
    assert Encode(REPLY)[0] == '{';
  }

  const GATHERED := Gathered(START.(family := Some(Mcp)), [Payload(REPLY, Some("message"))], [Some(REPLY)],
                             [VERSION, KIND, TEXT])

  lemma {:induction false} ReplyAbsorbed()
    ensures AbsorbValue(Surroundings(), None, NOTHING, REPLY, Some("message")) == Ok(GATHERED)
  {
    hide Observe, Collect, Defaulted, Surroundings;
    ReplyIsMcp();
    CollectReply();
    assert [] + [Some(REPLY)] == [Some(REPLY)] && [] + [VERSION, KIND, TEXT] == [VERSION, KIND, TEXT];
    assert [] + [Payload(REPLY, Some("message"))] == [Payload(REPLY, Some("message"))];
  }

  /** An event with one payload. */
  lemma {:induction false} AbsorbPayload(env: Env, g: Gathered, lines: seq<string>, fields: map<string, string>,
                                         v: Json)
    requires Metadata(env, lines) == Ok(fields) && "event" in fields && !g.state.terminal
    requires Sse.Data(lines) !in {"", "[DONE]"} && env.parse(Sse.Data(lines)) == Some(v)
    requires v.Obj? && !env.screen(v)
    ensures Absorb(env, None, g, lines) == AbsorbValue(env, None, g, v, Some(fields["event"]))
  {
    hide Metadata, Sse.Data, AbsorbValue;
  }

  lemma {:induction false} GatherOne(env: Env, lines: seq<string>)
    ensures Gather(env, None, [lines]) == Absorb(env, None, NOTHING, lines)
  {
    hide Absorb;
    assert [lines][..0] == [];
    assert Gather(env, None, []) == Ok(NOTHING);
  }

  lemma {:induction false} ReplyGathered()
    ensures Gather(Surroundings(), None, [LINES]) == Ok(GATHERED)
  {
    hide Encode, Metadata, Sse.Data, AbsorbValue, Absorb, Gather;
    LinesRead();
    EncodedReply();
    ReplyAbsorbed();
    GatherOne(Surroundings(), LINES);
    AbsorbPayload(Surroundings(), NOTHING, LINES, map["event" := "message"], REPLY);
  }

  lemma {:induction false} OneMoreEntry(entries: seq<Entry>, e: Entry, lane: Lane)
    ensures Members(entries + [e], lane) == Members(entries, lane) + if e.lane == lane then [e] else []
    ensures LaneOrder(entries + [e]) ==
            if e.lane in LaneOrder(entries) then LaneOrder(entries) else LaneOrder(entries) + [e.lane]
  {
    assert (entries + [e])[..|entries|] == entries;
  }

  /** Three entries in lanes of their own. */
  lemma {:induction false} ThreeLanes(a: Entry, b: Entry, c: Entry)
    requires a.lane != b.lane && a.lane != c.lane && b.lane != c.lane
    ensures LaneOrder([a, b, c]) == [a.lane, b.lane, c.lane]
    ensures Members([a, b, c], a.lane) == [a] && Members([a, b, c], b.lane) == [b] && Members([a, b, c], c.lane) == [c]
  {
    hide Members, LaneOrder;
    NoEntries();
    assert [a] == [] + [a] && [a, b] == [a] + [b] && [a, b, c] == [a, b] + [c];
    forall lane ensures Members([a, b, c], lane) == (if a.lane == lane then [a] else []) +
                          (if b.lane == lane then [b] else []) + (if c.lane == lane then [c] else [])
    {
      NoEntriesIn(lane);
      OneMoreEntry([], a, lane);
      OneMoreEntry([a], b, lane);
      OneMoreEntry([a, b], c, lane);
    }
    OneMoreEntry([], a, a.lane);
    OneMoreEntry([a], b, b.lane);
    OneMoreEntry([a, b], c, c.lane);
  }

  lemma {:induction false} NoEntries()
    ensures LaneOrder([]) == []
  {}

  lemma {:induction false} NoEntriesIn(lane: Lane)
    ensures Members([], lane) == []
  {}

  lemma {:induction false} LanesDiffer()
    ensures VERSION.lane != KIND.lane && VERSION.lane != TEXT.lane && KIND.lane != TEXT.lane
  {
    assert |VERSION.lane.name| == 3 && |KIND.lane.name| == 6 && |TEXT.lane.name| == 3;
    assert VERSION.lane.name[0] == S("event") && TEXT.lane.name[0] == S("mcp") && |"event"| == 5 && |"mcp"| == 3;
  }

  /** A lane of one text that no detector objects to, or that may be starred. */
  lemma {:induction false} LaneOfOne(env: Env, trees: Trees, e: Entry)
    requires !e.lane.kind.JsonKind? && env.action.Redact? && !env.screen(Str(e.text))
    requires env.find(e.text) != [] ==> e.lane.kind.TextKind?
    ensures var r := SseRewrite.RewriteLane(env, trees, [e], e.lane.kind);
            r.Ok? && (r.value.1 <==> env.find(e.text) != [])
    ensures Hits(env, e.lane.kind, Texts([e])) <==> env.find(e.text) != []
  {
    assert Texts([e]) == [e.text];
    assert [e.text][1..] == [];
    assert L.Join([e.text]) == e.text;
    assert |L.StarredLane([e.text], 0, env.find(e.text))| == 1;
  }

  lemma {:induction false} ReplyRewritten()
    ensures RedactEvents(Surroundings(), None, [LINES]).Ok?
    ensures RedactEvents(Surroundings(), None, [LINES]).value.g == GATHERED
    ensures SomethingToRedact(Surroundings(), None, [LINES])
  {
    hide Gather, SseRewrite.RewriteLane, Hits, Members, LaneOrder, Surroundings;
    var env, order := Surroundings(), [VERSION.lane, KIND.lane, TEXT.lane];
    ReplyGathered();
    LanesDiffer();
    ThreeLanes(VERSION, KIND, TEXT);
    LanesGoThrough(GATHERED.trees);
    assert TEXT.lane in order;
  }

  lemma {:induction false} LaneAnswers(trees: Trees)
    ensures SseRewrite.RewriteLane(Surroundings(), trees, [VERSION], VERSION.lane.kind).Ok?
    ensures SseRewrite.RewriteLane(Surroundings(), trees, [KIND], KIND.lane.kind).Ok?
    ensures SseRewrite.RewriteLane(Surroundings(), trees, [TEXT], TEXT.lane.kind).Ok?
    ensures Hits(Surroundings(), TEXT.lane.kind, Texts([TEXT]))
  {
    hide SseRewrite.RewriteLane, Hits;
    Finds("2.0");
    Finds("text");
    Finds(SECRET);
    LaneOfOne(Surroundings(), trees, VERSION);
    LaneOfOne(Surroundings(), trees, KIND);
    LaneOfOne(Surroundings(), trees, TEXT);
  }

  /** All three lanes go through, and the text lane has something to redact. */
  lemma {:induction false} LanesGoThrough(trees: Trees)
    requires LaneOrder(GATHERED.entries) == [VERSION.lane, KIND.lane, TEXT.lane]
    requires Members(GATHERED.entries, VERSION.lane) == [VERSION] && Members(GATHERED.entries, KIND.lane) == [KIND]
    requires Members(GATHERED.entries, TEXT.lane) == [TEXT]
    ensures RewriteLanes(Surroundings(), trees, GATHERED.entries, LaneOrder(GATHERED.entries)).Ok?
    ensures Hits(Surroundings(), TEXT.lane.kind, Texts(Members(GATHERED.entries, TEXT.lane)))
  {
    hide SseRewrite.RewriteLane, Hits, Members, LaneOrder, Surroundings;
    var env, order := Surroundings(), [VERSION.lane, KIND.lane, TEXT.lane];
    LaneAnswers(trees);
    var t1 := SseRewrite.RewriteLane(env, trees, [VERSION], VERSION.lane.kind).value.0;
    LaneAnswers(t1);
    var t2 := SseRewrite.RewriteLane(env, t1, [KIND], KIND.lane.kind).value.0;
    LaneAnswers(t2);
    assert order[1..] == [KIND.lane, TEXT.lane] && order[1..][1..] == [TEXT.lane] && order[1..][1..][1..] == [];
    assert RewriteLanes(env, t2, GATHERED.entries, [TEXT.lane]).Ok?;
    assert RewriteLanes(env, t1, GATHERED.entries, [KIND.lane, TEXT.lane]).Ok?;
  }

  lemma {:induction false} BodyFrames()
    ensures Unixy(BODY) && Ends(BODY) && Sse.Frame(BODY) == [LINES]
  {
    hide Encode;
    EncodedReply();
    PlainBody(Encode(REPLY));
    BodyPieces();
  }

  lemma {:induction false} PlainBody(doc: string)
    requires Plain(doc)
    ensures var text := Sse.JoinLines([EVENT_LINE, Sse.DataLine(doc)]) + "\n\n"; Unixy(text) && Ends(text)
    ensures Sse.AreLines([EVENT_LINE, Sse.DataLine(doc)])
  {
    var lines := [EVENT_LINE, Sse.DataLine(doc)];
    assert lines[1..] == [Sse.DataLine(doc)] && Sse.JoinLines([Sse.DataLine(doc)]) == Sse.DataLine(doc);
    assert Sse.JoinLines(lines) == EVENT_LINE + "\n" + Sse.DataLine(doc);
  }

  lemma {:induction false} BodyPieces()
    requires Sse.AreLines(LINES)
    ensures Sse.Frame(BODY) == [LINES]
  {
    hide Encode, Sse.SplitBlank, Sse.SplitLines;
    var piece := Sse.JoinLines(LINES);
    Sse.JoinedHasBlankIff(LINES);
    Sse.SplitOfJoinedLines(LINES);
    assert Sse.Pieces([piece]);
    Sse.SplitOfJoinedPieces([piece]);
    assert BODY[..|BODY| - 2] == piece;
    assert Sse.JoinBlank([piece]) == piece;
  }

  /** It happens: an MCP reply with one address in it, its lines as servers send them, ends with one
      more newline.  The body is accepted and redacted, and what is printed frames to two events. */
  lemma {:induction false} RedactedReplyBreaks() returns (env: Env, body: string, answer: string)
    ensures Sound(env) && RedactSse(env, None, body) == Ok(answer)
    ensures |body| >= 2 && |Sse.Frame(body)| == 1
    ensures |answer| >= 2 && |Sse.Frame(answer)| == 2
  {
    hide Gather, RewriteLanes, RedactEvents, RedactSse, AnyHits, Sse.Frame, Encode, GATHERED;
    env, body := Surroundings(), BODY + "\n";
    Finds("");
    BodyFrames();
    ReplyRewritten();
    ReplyMayBreak();
    OneMoreNewlineBreaks(env, None, BODY);
    answer := RedactSse(env, None, body).value;
  }

  lemma {:induction false} ReplyMayBreak()
    requires Ends(BODY) && Sse.Frame(BODY) == [LINES] && RedactEvents(Surroundings(), None, [LINES]).Ok?
    requires RedactEvents(Surroundings(), None, [LINES]).value.g == GATHERED
    ensures LastMayBreak(Sse.Frame(BODY), TreesOf(Surroundings(), None, BODY))
  {
    hide Gather, RewriteLanes, RedactEvents, Encode, LaneOk, Partition, Sse.Kept;
    AcceptedStream(Surroundings(), None, [LINES]);
    LinesRead();
    assert LINES[1] != "" by { assert LINES[1][0] == 'd'; }
  }
}
